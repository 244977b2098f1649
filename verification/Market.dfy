// The auction house and the token as one transition system:
// packages/nouns-contracts/contracts/NounsAuctionHouse.sol with NounsToken.sol.
module Market {
  import opened Chain
  import opened Token
  import TokenRuns

  // The auction house's own address.
  const HOUSE: Address := 1

  datatype Auction = Auction(nounId: nat, amount: nat, startTime: nat, endTime: nat, bidder: Address, settled: bool)

  // Every movement of ETH through the house; wrapped when it went out as WETH.
  datatype Cash =
    | BidIn(from: Address, amount: nat)
    | Refund(to: Address, amount: nat, wrapped: bool)
    | Payout(to: Address, amount: nat, wrapped: bool)

  datatype House = House(auction: Auction, paused: bool, timeBuffer: nat, reservePrice: nat,
                         minBidIncrementPercentage: nat, duration: nat, owner: Address,
                         balance: nat, cash: seq<Cash>)

  datatype World = World(net: Net, house: House, time: nat)

  datatype Action =
    | CreateBid(nounId: nat, value: nat, accepts: bool)
    | SettleAuction(accepts: bool)
    | SettleCurrentAndCreateNewAuction(accepts: bool, reward: Seeding, regular: Seeding)
    | Pause
    | Unpause(reward: Seeding, regular: Seeding)
    | SetTimeBuffer(timeBuffer: nat)
    | SetReservePrice(reservePrice: nat)
    | SetMinBidIncrementPercentage(percentage: nat)
    | TransferHouseOwnership(owner: Address)
    | RenounceHouseOwnership
    | OnToken(call: Call)

  datatype Move = Do(sender: Address, action: Action) | Wait(seconds: nat, blocks: nat)

  // ETH leaves the house; a refusal, or the house itself as recipient, turns it into WETH.
  function Send(h: House, to: Address, amount: nat, accepts: bool, refund: bool): Result<House> {
    if h.balance < amount then Error
    else
      var wrapped := !accepts || to == HOUSE;
      Ok(h.(balance := h.balance - amount,
            cash := h.cash + [if refund then Refund(to, amount, wrapped) else Payout(to, amount, wrapped)]))
  }

  function Times(amount: nat, percentage: nat): nat {
    amount * percentage
  }

  function MinimumBid(amount: nat, percentage: nat): nat {
    amount + Times(amount, percentage) / 100
  }

  // The bid leads, and extends the auction when little time is left.
  function RecordBid(w: World, sender: Address, value: nat): Result<World> {
    var a, h := w.house.auction, w.house;
    var extended := a.endTime - w.time < h.timeBuffer;
    if extended && w.time + h.timeBuffer >= U256 then Panic
    else
      var endTime := if extended then w.time + h.timeBuffer else a.endTime;
      Ok(w.(house := h.(auction := a.(amount := value, bidder := sender, endTime := endTime)),
            net := w.net.(log := w.net.log + [AuctionBid(a.nounId, sender, value, extended)]
                                 + if extended then [AuctionExtended(a.nounId, endTime)] else [])))
  }

  function Bid(w: World, sender: Address, nounId: nat, value: nat, accepts: bool): Result<World> {
    var a := w.house.auction;
    if a.nounId != nounId || w.time >= a.endTime || value < w.house.reservePrice then Error
    else if Times(a.amount, w.house.minBidIncrementPercentage) >= U256 then Panic
    else if MinimumBid(a.amount, w.house.minBidIncrementPercentage) >= U256 then Panic
    else if value < MinimumBid(a.amount, w.house.minBidIncrementPercentage) then Error
    else
      var paid := w.house.(balance := w.house.balance + value, cash := w.house.cash + [BidIn(sender, value)]);
      match (if a.bidder != ZERO then Send(paid, a.bidder, a.amount, accepts, true) else Ok(paid))
      case Error => Error
      case Panic => Panic
      case Ok(h) => RecordBid(w.(house := h), sender, value)
  }

  function Settle(w: World, accepts: bool): Result<World> {
    var a := w.house.auction;
    if a.startTime == 0 || a.settled || w.time < a.endTime then Error
    else
      var call := if a.bidder == ZERO then Burn(a.nounId) else TransferFrom(HOUSE, a.bidder, a.nounId);
      match Exec(w.net.token, w.net.block, HOUSE, call)
      case Error => Error
      case Panic => Panic
      case Ok(e) =>
        var h := w.house.(auction := a.(settled := true));
        match (if a.amount > 0 then Send(h, h.owner, a.amount, accepts, false) else Ok(h))
        case Error => Error
        case Panic => Panic
        case Ok(paid) =>
          Ok(w.(house := paid,
                net := w.net.(token := e.token,
                              log := w.net.log + e.events + [AuctionSettled(a.nounId, a.bidder, a.amount)])))
  }

  // The auction of a noun just minted.
  function Begin(w: World, nounId: nat): Result<World> {
    if w.time + w.house.duration >= U256 then Panic
    else
      var endTime := w.time + w.house.duration;
      Ok(w.(house := w.house.(auction := Auction(nounId, 0, w.time, endTime, ZERO, false)),
            net := w.net.(log := w.net.log + [AuctionCreated(nounId, w.time, endTime)])))
  }

  // A mint refused with a message pauses the house; any other refusal reverts the call.
  function Create(w: World, reward: Seeding, regular: Seeding): Result<World> {
    match Exec(w.net.token, w.net.block, HOUSE, Mint(reward, regular))
    case Panic => Panic
    case Error => if w.house.paused then Error else Ok(w.(house := w.house.(paused := true)))
    case Ok(e) => Begin(w.(net := w.net.(token := e.token, log := w.net.log + e.events)), e.token.nextId - 1)
  }

  function SettleAndCreate(w: World, accepts: bool, reward: Seeding, regular: Seeding): Result<World> {
    match Settle(w, accepts)
    case Error => Error
    case Panic => Panic
    case Ok(settled) => Create(settled, reward, regular)
  }

  function Act(w: World, sender: Address, action: Action): Result<World> {
    var h := w.house;
    match action
    case CreateBid(nounId, value, accepts) => Bid(w, sender, nounId, value, accepts)
    case SettleAuction(accepts) => if !h.paused then Error else Settle(w, accepts)
    case SettleCurrentAndCreateNewAuction(accepts, reward, regular) =>
      if h.paused then Error else SettleAndCreate(w, accepts, reward, regular)
    case Pause => if sender != h.owner || h.paused then Error else Ok(w.(house := h.(paused := true)))
    case Unpause(reward, regular) =>
      if sender != h.owner || !h.paused then Error
      else
        var open := w.(house := h.(paused := false));
        if h.auction.startTime == 0 || h.auction.settled then Create(open, reward, regular) else Ok(open)
    case SetTimeBuffer(v) => if sender != h.owner then Error else Ok(w.(house := h.(timeBuffer := v)))
    case SetReservePrice(v) => if sender != h.owner then Error else Ok(w.(house := h.(reservePrice := v)))
    case SetMinBidIncrementPercentage(v) =>
      if sender != h.owner then Error else Ok(w.(house := h.(minBidIncrementPercentage := v)))
    case TransferHouseOwnership(owner) =>
      if sender != h.owner || owner == ZERO then Error else Ok(w.(house := h.(owner := owner)))
    case RenounceHouseOwnership => if sender != h.owner then Error else Ok(w.(house := h.(owner := ZERO)))
    case OnToken(call) =>
      match Exec(w.net.token, w.net.block, sender, call)
      case Error => Error
      case Panic => Panic
      case Ok(e) => Ok(w.(net := w.net.(token := e.token, log := w.net.log + e.events)))
  }

  // Calls that can be made at all: not from the zero address, nor from the house, whose code makes
  // no calls but its own and which holds no signing key.
  predicate Possible(sender: Address, action: Action) {
    && sender != ZERO && sender != HOUSE
    && (action.OnToken? && action.call.DelegateBySig? ==> action.call.signatory != HOUSE)
  }

  function Advance(w: World, m: Move): World {
    match m
    case Wait(seconds, blocks) => w.(time := w.time + seconds, net := w.net.(block := w.net.block + blocks))
    case Do(sender, action) =>
      if Accepted(w, m) then Act(w, sender, action).value else w
  }

  predicate Accepted(w: World, m: Move) {
    m.Do? && Possible(m.sender, m.action) && Act(w, m.sender, m.action).Ok?
  }

  function Play(w: World, moves: seq<Move>): World {
    if moves == [] then w else Advance(Play(w, moves[..|moves| - 1]), moves[|moves| - 1])
  }

  const NO_AUCTION: Auction := Auction(0, 0, 0, 0, ZERO, false)

  // A freshly initialised house and a freshly deployed token.
  ghost predicate Initial(w: World) {
    && w.house.auction == NO_AUCTION && w.house.balance == 0 && w.house.cash == []
    && w.house.paused && w.time > 0 && w.net.log == []
    && w.net.token == TokenRuns.Deployed(w.net.token.minter, w.net.token.noundersDAO, w.net.token.owner, w.net.token.proxies)
    && HOUSE !in w.net.token.proxies
  }

  // ----- Sums over the logs

  function PaidIn(cash: seq<Cash>, a: Address): nat {
    if cash == [] then 0
    else
      var c := cash[|cash| - 1];
      PaidIn(cash[..|cash| - 1], a) + if c.BidIn? && c.from == a then c.amount else 0
  }

  function Refunded(cash: seq<Cash>, a: Address): nat {
    if cash == [] then 0
    else
      var c := cash[|cash| - 1];
      Refunded(cash[..|cash| - 1], a) + if c.Refund? && c.to == a then c.amount else 0
  }

  function PaidOut(cash: seq<Cash>): nat {
    if cash == [] then 0
    else
      var c := cash[|cash| - 1];
      PaidOut(cash[..|cash| - 1]) + if c.Payout? then c.amount else 0
  }

  // The amounts of the auctions a won.
  function Won(log: seq<Event>, a: Address): nat {
    if log == [] then 0
    else
      var e := log[|log| - 1];
      Won(log[..|log| - 1], a) + if e.AuctionSettled? && e.winner == a then e.amount else 0
  }

  function SettledTotal(log: seq<Event>): nat {
    if log == [] then 0
    else
      var e := log[|log| - 1];
      SettledTotal(log[..|log| - 1]) + if e.AuctionSettled? then e.amount else 0
  }

  lemma CashSnoc(cash: seq<Cash>, c: Cash, a: Address)
    ensures PaidIn(cash + [c], a) == PaidIn(cash, a) + if c.BidIn? && c.from == a then c.amount else 0
    ensures Refunded(cash + [c], a) == Refunded(cash, a) + if c.Refund? && c.to == a then c.amount else 0
    ensures PaidOut(cash + [c]) == PaidOut(cash) + if c.Payout? then c.amount else 0
  {
    assert (cash + [c])[..|cash|] == cash;
  }

  lemma {:induction false} WonConcat(log: seq<Event>, more: seq<Event>, a: Address)
    ensures Won(log + more, a) == Won(log, a) + Won(more, a)
    ensures SettledTotal(log + more) == SettledTotal(log) + SettledTotal(more)
  {
    if more == [] {
      assert log + more == log;
    } else {
      var k := |more| - 1;
      WonConcat(log, more[..k], a);
      assert (log + more)[..|log| + k] == log + more[..k];
    }
  }

  lemma {:induction false} NothingWon(log: seq<Event>, a: Address)
    requires forall e <- log :: !e.AuctionSettled?
    ensures Won(log, a) == 0 && SettledTotal(log) == 0
  {
    if log != [] {
      NothingWon(log[..|log| - 1], a);
    }
  }

  // Token calls emit transfers only.
  lemma TokenEvents(t: Token, block: nat, sender: Address, call: Call)
    requires Exec(t, block, sender, call).Ok?
    ensures forall e <- Exec(t, block, sender, call).value.events :: e.Transfer?
  {
  }

  // ----- What a settlement and a creation leave behind

  // The call a settlement makes on the token.
  function SettleCall(a: Auction): Call {
    if a.bidder == ZERO then Burn(a.nounId) else TransferFrom(HOUSE, a.bidder, a.nounId)
  }

  ghost predicate OnlyTransfers(events: seq<Event>) {
    forall e <- events :: e.Transfer?
  }

  ghost predicate Settled(w: World, w': World, e: Effect) {
    var a := w.house.auction;
    && !a.settled && a.startTime != 0 && a.endTime <= w.time
    && w'.time == w.time && w'.house.auction == a.(settled := true)
    && OnlyTransfers(e.events)
    && w'.net == Net(e.token, w.net.block, w.net.log + (e.events + [AuctionSettled(a.nounId, a.bidder, a.amount)]))
  }

  lemma SettleParts(w: World, accepts: bool)
    requires Settle(w, accepts).Ok?
    ensures var r := Exec(w.net.token, w.net.block, HOUSE, SettleCall(w.house.auction));
            r.Ok? && Settled(w, Settle(w, accepts).value, r.value)
  {
    hide Exec, Send;
    var a := w.house.auction;
    var e := Exec(w.net.token, w.net.block, HOUSE, SettleCall(a)).value;
    TokenEvents(w.net.token, w.net.block, HOUSE, SettleCall(a));
    var done := AuctionSettled(a.nounId, a.bidder, a.amount);
    assert w.net.log + e.events + [done] == w.net.log + (e.events + [done]);
    SendKeeps(w.house.(auction := a.(settled := true)), w.house.owner, a.amount, accepts);
  }

  lemma SendKeeps(h: House, to: Address, amount: nat, accepts: bool)
    ensures Send(h, to, amount, accepts, false).Ok? ==> Send(h, to, amount, accepts, false).value.auction == h.auction
  {
  }

  ghost predicate Opened(w: World, w': World, e: Effect) {
    && e.token.nextId > 0
    && var id, end := e.token.nextId - 1, w.time + w.house.duration;
       && w'.time == w.time && w'.house == w.house.(auction := Auction(id, 0, w.time, end, ZERO, false))
       && OnlyTransfers(e.events)
       && w'.net == Net(e.token, w.net.block, w.net.log + (e.events + [AuctionCreated(id, w.time, end)]))
  }

  lemma CreateParts(w: World, reward: Seeding, regular: Seeding)
    requires Create(w, reward, regular).Ok?
    ensures var r, w' := Exec(w.net.token, w.net.block, HOUSE, Mint(reward, regular)), Create(w, reward, regular).value;
            if r.Ok? then Opened(w, w', r.value) else w' == w.(house := w.house.(paused := true))
  {
    var call := Mint(reward, regular);
    if Exec(w.net.token, w.net.block, HOUSE, call).Ok? {
      var e := Exec(w.net.token, w.net.block, HOUSE, call).value;
      assert e.token.nextId > 0;
      TokenEvents(w.net.token, w.net.block, HOUSE, call);
      var created := AuctionCreated(e.token.nextId - 1, w.time, w.time + w.house.duration);
      assert w.net.log + e.events + [created] == w.net.log + (e.events + [created]);
    }
    hide Exec;
  }
}
