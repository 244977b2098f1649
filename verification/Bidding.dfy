// One auction from bid to bid: how fast its price grows and how far its end can move.
module Bidding {
  import opened Chain
  import opened Token
  import opened Market
  import opened MarketRuns
  import opened Custody
  import opened HouseSettings

  // ----- When a bid is accepted, and what it does

  // The arithmetic of a bid stays below 2^256.
  predicate InWidth(w: World) {
    var a, h := w.house.auction, w.house;
    && a.amount * h.minBidIncrementPercentage < U256
    && a.amount + a.amount * h.minBidIncrementPercentage / 100 < U256
    && (w.time + h.timeBuffer <= a.endTime || w.time + h.timeBuffer < U256)
  }

  // A bid is accepted exactly when it names the current noun in time, meets the reserve price, and
  // raises the price by the percentage rounded down.
  lemma BidExact(w: World, sender: Address, nounId: nat, value: nat, accepts: bool)
    requires Invariant(w)
    ensures var a, h := w.house.auction, w.house;
            Bid(w, sender, nounId, value, accepts).Ok? <==>
              && nounId == a.nounId && w.time < a.endTime && value >= h.reservePrice
              && value >= a.amount + a.amount * h.minBidIncrementPercentage / 100
              && InWidth(w)
  {
    assert Money(w);
    EscrowOf(w);
    hide Money, Sequenced, TokenFine;
    var a, h := w.house.auction, w.house;
    assert Times(a.amount, h.minBidIncrementPercentage) == a.amount * h.minBidIncrementPercentage;
    if w.time < a.endTime {
      RefundGoesThrough(w, value, accepts);
    }
    hide Times, Send;
  }

  lemma RefundGoesThrough(w: World, value: nat, accepts: bool)
    requires AuctionSane(w) && Escrowed(w) && w.time < w.house.auction.endTime
    ensures var a := w.house.auction;
            Send(w.house.(balance := w.house.balance + value, cash := w.house.cash + [BidIn(0, value)]), a.bidder, a.amount, accepts, true).Ok?
  {
  }

  function Latest(a: nat, b: nat): nat {
    if a > b then a else b
  }

  // An accepted bid leads with its own value, pushes the end out to leave the buffer, and tells the log
  // of both; the extension only if there is one.
  lemma BidEffect(w: World, sender: Address, nounId: nat, value: nat, accepts: bool)
    requires Bid(w, sender, nounId, value, accepts).Ok?
    ensures var a, w' := w.house.auction, Bid(w, sender, nounId, value, accepts).value;
            var end := Latest(a.endTime, w.time + w.house.timeBuffer);
            && w'.house.auction == Auction(nounId, value, a.startTime, end, sender, a.settled)
            && w'.net == w.net.(log := w.net.log
                                      + if end == a.endTime then [AuctionBid(nounId, sender, value, false)]
                                        else [AuctionBid(nounId, sender, value, true), AuctionExtended(nounId, end)])
            && w'.time == w.time && SameSettings(w, w') && w'.house.paused == w.house.paused
  {
    hide Times, MinimumBid;
    var bid, late := AuctionBid(nounId, sender, value, true), AuctionExtended(nounId, w.time + w.house.timeBuffer);
    assert w.net.log + [bid] + [late] == w.net.log + [bid, late];
  }

  predicate BidAccepted(w: World, m: Move) {
    Accepted(w, m) && m.action.CreateBid?
  }

  function BidsIn(w: World, moves: seq<Move>): nat {
    if moves == [] then 0
    else
      var k := |moves| - 1;
      BidsIn(w, moves[..k]) + if BidAccepted(Play(w, moves[..k]), moves[k]) then 1 else 0
  }

  // The time buffers in force when each bid was accepted.
  function BuffersIn(w: World, moves: seq<Move>): nat {
    if moves == [] then 0
    else
      var k := |moves| - 1;
      var before := Play(w, moves[..k]);
      BuffersIn(w, moves[..k]) + if BidAccepted(before, moves[k]) then before.house.timeBuffer else 0
  }

  // The same auction is the house's current one all along.
  ghost predicate SameAuction(w: World, moves: seq<Move>) {
    && w.house.auction.startTime != 0
    && forall i :: 0 <= i <= |moves| ==> Play(w, moves[..i]).house.auction.nounId == w.house.auction.nounId
  }

  ghost predicate SamePercentage(w: World, moves: seq<Move>, p: nat) {
    forall i :: 0 <= i <= |moves| ==> Play(w, moves[..i]).house.minBidIncrementPercentage == p
  }

  lemma CreateChangesNoun(w: World, reward: Seeding, regular: Seeding)
    requires Sequenced(w) && TokenFine(w) && w.house.auction.startTime != 0 && Create(w, reward, regular).Ok?
    requires Create(w, reward, regular).value.house.auction != w.house.auction
    ensures Create(w, reward, regular).value.house.auction.nounId != w.house.auction.nounId
  {
    CreateFine(w, reward, regular);
    hide TokenFine;
  }

  // What one move does to the current auction, as long as it stays the current one.
  lemma AuctionStep(w: World, m: Move)
    requires Invariant(w) && w.house.auction.startTime != 0
    requires Advance(w, m).house.auction.nounId == w.house.auction.nounId
    ensures var a, b := w.house.auction, Advance(w, m).house.auction;
            && b.startTime == a.startTime
            && if BidAccepted(w, m) then
                 && b.amount == m.action.value >= MinimumBid(a.amount, w.house.minBidIncrementPercentage)
                 && m.action.value >= w.house.reservePrice
                 && b.bidder == m.sender && !b.settled
                 && w.time < a.endTime && b.endTime == Latest(a.endTime, w.time + w.house.timeBuffer)
               else b.amount == a.amount && b.endTime == a.endTime && b.bidder == a.bidder
  {
    hide Settle, Create, Exec, Money, Sequenced, TokenFine, MinimumBid, Times;
    if Accepted(w, m) {
      match m.action {
        case CreateBid(nounId, value, accepts) => BidStep(w, m.sender, nounId, value, accepts);
        case SettleAuction(accepts) => SettleSettles(w, accepts);
        case SettleCurrentAndCreateNewAuction(accepts, reward, regular) =>
          SettleSettles(w, accepts);
          SettleFine(w, accepts);
          SettleSequenced(w, accepts);
          var settled := Settle(w, accepts).value;
          if Create(settled, reward, regular).value.house.auction != settled.house.auction {
            CreateChangesNoun(settled, reward, regular);
          }
        case Unpause(reward, regular) =>
          var open := w.(house := w.house.(paused := false));
          if w.house.auction.settled {
            FineElsewhere(w, open);
            SequencedElsewhere(w, open, []);
            if Create(open, reward, regular).value.house.auction != open.house.auction {
              CreateChangesNoun(open, reward, regular);
            }
          }
        case _ =>
      }
    }
  }

  lemma BidStep(w: World, sender: Address, nounId: nat, value: nat, accepts: bool)
    requires Invariant(w) && Bid(w, sender, nounId, value, accepts).Ok?
    ensures value >= MinimumBid(w.house.auction.amount, w.house.minBidIncrementPercentage) && value >= w.house.reservePrice
    ensures !w.house.auction.settled && w.time < w.house.auction.endTime
    ensures Bid(w, sender, nounId, value, accepts).value.house.auction ==
            w.house.auction.(amount := value, bidder := sender, endTime := Latest(w.house.auction.endTime, w.time + w.house.timeBuffer))
  {
    assert AuctionSane(w) by { assert Money(w); }
    BidEffect(w, sender, nounId, value, accepts);
    BidExact(w, sender, nounId, value, accepts);
    hide Invariant, Times, Send, RecordBid;
  }

  // ----- The reserve price over a run

  // Some move made this bid, in a run from w, while the reserve price was no higher.
  ghost predicate MetReserve(w: World, moves: seq<Move>, e: Event)
    requires e.AuctionBid?
  {
    exists k :: 0 <= k < |moves| && MadeAt(w, moves, k, e)
  }

  ghost predicate MadeAt(w: World, moves: seq<Move>, k: nat, e: Event)
    requires e.AuctionBid? && k < |moves|
  {
    && moves[k].Do? && moves[k].sender == e.sender && moves[k].action.CreateBid?
    && moves[k].action.nounId == e.nounId && moves[k].action.value == e.value
    && e.value >= SettingsAfter(SettingsOf(w.house), moves[..k]).reservePrice
  }

  // A log that has grown by no bid.
  ghost predicate NoBidsAdded(log: seq<Event>, log': seq<Event>) {
    log <= log' && forall i :: |log| <= i < |log'| ==> !log'[i].AuctionBid?
  }

  lemma NoBidsIn(log: seq<Event>, moved: seq<Event>, last: Event)
    requires OnlyTransfers(moved) && !last.AuctionBid?
    ensures NoBidsAdded(log, log + (moved + [last])) && NoBidsAdded(log, log + moved)
  {
    var log' := log + (moved + [last]);
    forall i | |log| <= i < |log'|
      ensures !log'[i].AuctionBid?
    {
      assert i - |log| < |moved| ==> log'[i] == moved[i - |log|] && log'[i] in moved;
    }
    var logged := log + moved;
    forall i | |log| <= i < |logged|
      ensures !logged[i].AuctionBid?
    {
      assert logged[i] == moved[i - |log|] && logged[i] in moved;
    }
  }

  lemma SettleAddsNoBids(w: World, accepts: bool)
    requires Settle(w, accepts).Ok?
    ensures NoBidsAdded(w.net.log, Settle(w, accepts).value.net.log)
  {
    SettleParts(w, accepts);
    hide Settle, Exec, OnlyTransfers;
    var a := w.house.auction;
    NoBidsIn(w.net.log, Exec(w.net.token, w.net.block, HOUSE, SettleCall(a)).value.events, AuctionSettled(a.nounId, a.bidder, a.amount));
  }

  lemma CreateAddsNoBids(w: World, reward: Seeding, regular: Seeding)
    requires Create(w, reward, regular).Ok?
    ensures NoBidsAdded(w.net.log, Create(w, reward, regular).value.net.log)
  {
    CreateParts(w, reward, regular);
    hide Create, Exec, OnlyTransfers;
    var r, a := Exec(w.net.token, w.net.block, HOUSE, Mint(reward, regular)), Create(w, reward, regular).value.house.auction;
    if r.Ok? {
      NoBidsIn(w.net.log, r.value.events, AuctionCreated(a.nounId, a.startTime, a.endTime));
    }
  }

  lemma CallAddsNoBids(w: World, sender: Address, call: Call)
    requires Exec(w.net.token, w.net.block, sender, call).Ok?
    ensures NoBidsAdded(w.net.log, w.net.log + Exec(w.net.token, w.net.block, sender, call).value.events)
  {
    TokenEvents(w.net.token, w.net.block, sender, call);
    hide Exec;
    NoBidsIn(w.net.log, Exec(w.net.token, w.net.block, sender, call).value.events, AuctionSettled(0, 0, 0));
  }

  // Only an accepted bid adds a bid to the log, and that one met the reserve price.
  lemma StepBids(w: World, m: Move)
    requires Invariant(w)
    ensures var log, log' := w.net.log, Advance(w, m).net.log;
            && log <= log'
            && (BidAccepted(w, m) || NoBidsAdded(log, log'))
            && (BidAccepted(w, m) ==>
                  forall i :: |log| <= i < |log'| && log'[i].AuctionBid? ==>
                    && log'[i].sender == m.sender && log'[i].nounId == m.action.nounId
                    && log'[i].value == m.action.value >= w.house.reservePrice)
  {
    hide Bid, Settle, Create, Exec, Money, Sequenced, TokenFine;
    if Accepted(w, m) {
      match m.action {
        case CreateBid(nounId, value, accepts) =>
          BidEffect(w, m.sender, nounId, value, accepts);
          BidExact(w, m.sender, nounId, value, accepts);
        case SettleAuction(accepts) => SettleAddsNoBids(w, accepts);
        case SettleCurrentAndCreateNewAuction(accepts, reward, regular) =>
          SettleAddsNoBids(w, accepts);
          CreateAddsNoBids(Settle(w, accepts).value, reward, regular);
        case Unpause(reward, regular) =>
          if w.house.auction.startTime == 0 || w.house.auction.settled {
            CreateAddsNoBids(w.(house := w.house.(paused := false)), reward, regular);
          }
        case OnToken(call) => CallAddsNoBids(w, m.sender, call);
        case _ =>
      }
    }
  }

  // Every bid in the log of a run met the reserve price then in force, which the moves alone determine.
  lemma {:induction false} EveryBidMet(w: World, moves: seq<Move>)
    requires Initial(w)
    ensures forall e <- Play(w, moves).net.log :: e.AuctionBid? ==> MetReserve(w, moves, e)
  {
    if moves != [] {
      hide Advance, Invariant, SettingsAfter, SettingsOf, Initial;
      var k := |moves| - 1;
      var before := Play(w, moves[..k]);
      EveryBidMet(w, moves[..k]);
      InvariantHolds(w, moves[..k]);
      StepBids(before, moves[k]);
      ReserveThen(w, moves[..k]);
      var log' := Play(w, moves).net.log;
      forall i | 0 <= i < |log'| && log'[i].AuctionBid?
        ensures MetReserve(w, moves, log'[i])
      {
        if i < |before.net.log| {
          assert log'[i] == before.net.log[i];
          MetLater(w, moves, k, log'[i]);
        } else {
          assert MadeAt(w, moves, k, log'[i]);
        }
      }
    }
  }

  lemma ReserveThen(w: World, moves: seq<Move>)
    ensures SettingsAfter(SettingsOf(w.house), moves).reservePrice == Play(w, moves).house.reservePrice
  {
    SettingsExact(w, moves);
    hide Play, SettingsAfter;
  }

  lemma MetLater(w: World, moves: seq<Move>, k: nat, e: Event)
    requires e.AuctionBid? && k <= |moves| && MetReserve(w, moves[..k], e)
    ensures MetReserve(w, moves, e)
  {
    hide SettingsAfter, SettingsOf;
    var i :| 0 <= i < k && MadeAt(w, moves[..k], i, e);
    assert moves[..k][..i] == moves[..i];
    assert MadeAt(w, moves, i, e);
  }

  lemma PlayedBefore(w: World, moves: seq<Move>)
    requires moves != []
    ensures var k := |moves| - 1;
            && (SameAuction(w, moves) ==> SameAuction(w, moves[..k]))
            && (forall p :: SamePercentage(w, moves, p) ==> SamePercentage(w, moves[..k], p))
            && Play(w, moves) == Advance(Play(w, moves[..k]), moves[k])
  {
    hide Advance;
    var k := |moves| - 1;
    forall i | 0 <= i <= k
      ensures moves[..k][..i] == moves[..i]
    {
    }
  }

  lemma {:induction false} InvariantKept(w: World, moves: seq<Move>)
    requires Invariant(w)
    ensures Invariant(Play(w, moves))
  {
    if moves != [] {
      hide Money, Sequenced, TokenFine, Advance;
      var k := |moves| - 1;
      InvariantKept(w, moves[..k]);
      NextKeepsMoney(Play(w, moves[..k]), moves[k]);
      AdvanceFine(Play(w, moves[..k]), moves[k]);
      AdvanceSequenced(Play(w, moves[..k]), moves[k]);
    }
  }

  // The house takes a further bid of the very price already offered exactly when the increment
  // rounds down to nothing.
  lemma TieExact(w: World, sender: Address, accepts: bool)
    requires Invariant(w) && Running(w) && w.time < w.house.auction.endTime
    requires w.house.reservePrice <= w.house.auction.amount < U256 && w.time + w.house.timeBuffer < U256
    ensures var a := w.house.auction;
            Bid(w, sender, a.nounId, a.amount, accepts).Ok? <==> Times(a.amount, w.house.minBidIncrementPercentage) < 100
  {
    EscrowHolds(w);
    hide Times, Invariant;
  }

  lemma EscrowHolds(w: World)
    requires Invariant(w) && Running(w)
    ensures w.house.balance == w.house.auction.amount
  {
    assert Money(w);
    EscrowOf(w);
  }

  function Pow(base: nat, n: nat): nat {
    if n == 0 then 1 else base * Pow(base, n - 1)
  }

  lemma FloorGrowth(a: nat, b: nat, p: nat)
    requires b >= MinimumBid(a, p)
    ensures b >= a
    ensures 100 * (p * b - 99) >= (100 + p) * (p * a - 99)
  {
    assert 100 * b >= 100 * a + a * p - 99;
    MulMono(p, 100 * b, 100 * a + a * p - 99);
    hide MinimumBid;
    Distribute(a, b, p);
  }

  lemma Distribute(a: nat, b: nat, p: nat)
    ensures p * (100 * b) == 100 * (p * b)
    ensures p * (100 * a + a * p - 99) == (100 + p) * (p * a) - 99 * p
    ensures (100 + p) * (p * a - 99) == (100 + p) * (p * a) - 99 * (100 + p)
  {
    var x := p * a;
    assert p * (100 * a) == 100 * x;
    assert p * (a * p) == p * x;
    assert p * (100 * a + a * p - 99) == p * (100 * a) + p * (a * p) - p * 99;
  }

  lemma MulMono(k: nat, x: int, y: int)
    requires x >= y
    ensures k * x >= k * y
  {
  }

  lemma GrowthStep(c: nat, d: nat, x: int, y: int, z: int, p: nat)
    requires c * y >= d * x && 100 * z >= (100 + p) * y
    ensures (100 * c) * z >= ((100 + p) * d) * x
  {
    MulMono(c, 100 * z, (100 + p) * y);
    MulMono(100 + p, c * y, d * x);
    assert (100 * c) * z == c * (100 * z);
    assert c * ((100 + p) * y) == (100 + p) * (c * y);
    assert (100 + p) * (d * x) == ((100 + p) * d) * x;
  }

  // Compound growth over any stretch of one auction with a fixed percentage, exact about rounding down.
  lemma {:induction false} PriceGrowth(w: World, moves: seq<Move>, p: nat)
    requires Invariant(w) && SameAuction(w, moves) && SamePercentage(w, moves, p)
    ensures var n, a0, an := BidsIn(w, moves), w.house.auction.amount, Play(w, moves).house.auction.amount;
            && Play(w, moves).house.auction.startTime == w.house.auction.startTime
            && an >= a0 && Pow(100, n) * (p * an - 99) >= Pow(100 + p, n) * (p * a0 - 99)
  {
    hide Invariant, Advance, SameAuction, SamePercentage;
    if moves != [] {
      var k := |moves| - 1;
      var before := Play(w, moves[..k]);
      PlayedBefore(w, moves);
      PriceGrowth(w, moves[..k], p);
      InvariantKept(w, moves[..k]);
      SameAt(w, moves, k, p);
      SameAt(w, moves, k + 1, p);
      assert moves[..k + 1] == moves;
      AuctionStep(before, moves[k]);
      if BidAccepted(before, moves[k]) {
        var n := BidsIn(w, moves[..k]);
        var a, b := before.house.auction.amount, Play(w, moves).house.auction.amount;
        FloorGrowth(a, b, p);
        hide MinimumBid;
        GrowthStep(Pow(100, n), Pow(100 + p, n), p * w.house.auction.amount - 99, p * a - 99, p * b - 99, p);
      }
    }
  }

  lemma SameAt(w: World, moves: seq<Move>, i: nat, p: nat)
    requires i <= |moves| && SameAuction(w, moves)
    ensures var v := Play(w, moves[..i]);
            && v.house.auction.nounId == w.house.auction.nounId
            && w.house.auction.startTime != 0
            && (SamePercentage(w, moves, p) ==> v.house.minBidIncrementPercentage == p)
  {
  }

  // The end of an auction never moves back, always leaves the buffer then in force after a bid, and
  // never passes its first value plus the buffers of the bids accepted since.
  lemma {:induction false} EndTimeBounded(w: World, moves: seq<Move>)
    requires Invariant(w) && SameAuction(w, moves)
    ensures var a, b := w.house.auction, Play(w, moves).house.auction;
            && b.startTime == a.startTime
            && a.endTime <= b.endTime <= a.endTime + BuffersIn(w, moves)
    ensures moves != [] ==>
              var k := |moves| - 1; var before := Play(w, moves[..k]);
              BidAccepted(before, moves[k]) ==>
                before.time + before.house.timeBuffer <= Play(w, moves).house.auction.endTime
  {
    hide Invariant, Advance, SameAuction;
    if moves == [] {
    } else {
      var k := |moves| - 1;
      PlayedBefore(w, moves);
      EndTimeBounded(w, moves[..k]);
      InvariantKept(w, moves[..k]);
      SameAt(w, moves, k, 0);
      SameAt(w, moves, k + 1, 0);
      assert moves[..k + 1] == moves;
      AuctionStep(Play(w, moves[..k]), moves[k]);
    }
  }

  // Counted from the moment it is created, an auction ends by start + duration + those buffers.
  lemma EndTimeFromCreation(w: World, reward: Seeding, regular: Seeding, moves: seq<Move>)
    requires Invariant(w) && (w.house.auction.startTime == 0 || w.house.auction.settled)
    requires Create(w, reward, regular).Ok? && Exec(w.net.token, w.net.block, HOUSE, Mint(reward, regular)).Ok?
    requires SameAuction(Create(w, reward, regular).value, moves)
    ensures var first := Create(w, reward, regular).value;
            Play(first, moves).house.auction.endTime <= w.time + w.house.duration + BuffersIn(first, moves)
  {
    hide Invariant, TokenFine, Sequenced, Exec, SameAuction;
    assert Money(w) && Sequenced(w) && TokenFine(w) by { InvariantParts(w); }
    var first := Create(w, reward, regular).value;
    CreateKeepsMoney(w, reward, regular);
    CreateFine(w, reward, regular);
    CreateSequenced(w, reward, regular);
    InvariantOf(first);
    EndTimeBounded(first, moves);
  }

  lemma InvariantParts(w: World)
    requires Invariant(w)
    ensures Money(w) && Sequenced(w) && TokenFine(w)
  {
  }

  lemma InvariantOf(w: World)
    requires Money(w) && Sequenced(w) && TokenFine(w)
    ensures Invariant(w)
  {
  }
}
