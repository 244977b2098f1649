// What holds of the auction house and its token after any run.
module MarketRuns {
  import opened Chain
  import opened Ledger
  import opened Votes
  import opened Token
  import opened Market

  // ----- Money

  ghost predicate AuctionSane(w: World) {
    var a := w.house.auction;
    && w.time > 0
    && a.startTime <= w.time
    && (a.startTime == 0 ==> a == NO_AUCTION)
    && (a.settled ==> a.endTime <= w.time)
    && (a.bidder == ZERO ==> a.amount == 0)
  }

  // The house holds exactly the leading bid of an unsettled auction.
  ghost predicate Escrowed(w: World) {
    w.house.balance == if w.house.auction.settled then 0 else w.house.auction.amount
  }

  // What an account paid in came back as refunds, bought it auctions, or is its leading bid.
  ghost predicate Accounted(w: World, x: Address) {
    var a := w.house.auction;
    PaidIn(w.house.cash, x) == Refunded(w.house.cash, x) + Won(w.net.log, x)
      + if !a.settled && a.bidder == x then a.amount else 0
  }

  ghost predicate Money(w: World) {
    && AuctionSane(w)
    && Escrowed(w)
    && (forall x :: Accounted(w, x))
    && PaidOut(w.house.cash) == SettledTotal(w.net.log)
  }

  lemma BidAccounts(w: World, sender: Address, nounId: nat, value: nat, accepts: bool, x: Address)
    requires Bid(w, sender, nounId, value, accepts).Ok?
    requires !w.house.auction.settled && (w.house.auction.bidder == ZERO ==> w.house.auction.amount == 0)
    requires Accounted(w, x) && PaidOut(w.house.cash) == SettledTotal(w.net.log)
    ensures var w' := Bid(w, sender, nounId, value, accepts).value;
            Accounted(w', x) && PaidOut(w'.house.cash) == SettledTotal(w'.net.log)
  {
    hide Won, SettledTotal, PaidIn, Refunded, PaidOut, MinimumBid, Times;
    var w' := Bid(w, sender, nounId, value, accepts).value;
    var a, cash := w.house.auction, w.house.cash;
    var events := w'.net.log[|w.net.log|..];
    assert w'.net.log == w.net.log + events;
    CashSnoc(cash, BidIn(sender, value), x);
    if a.bidder != ZERO {
      CashSnoc(cash + [BidIn(sender, value)], Refund(a.bidder, a.amount, !accepts || a.bidder == HOUSE), x);
    }
    NothingWon(events, x);
    WonConcat(w.net.log, events, x);
  }

  // An accepted bid finds an auction that has begun and is not settled, though createBid tests neither.
  lemma BidFindsAuction(w: World, sender: Address, nounId: nat, value: nat, accepts: bool)
    requires AuctionSane(w) && Bid(w, sender, nounId, value, accepts).Ok?
    ensures !w.house.auction.settled && w.house.auction.startTime != 0
  {
  }

  lemma BidKeepsMoney(w: World, sender: Address, nounId: nat, value: nat, accepts: bool)
    requires Money(w) && sender != ZERO && Bid(w, sender, nounId, value, accepts).Ok?
    ensures Money(Bid(w, sender, nounId, value, accepts).value)
  {
    hide Accounted, PaidOut, SettledTotal, MinimumBid, Times;
    BidFindsAuction(w, sender, nounId, value, accepts);
    BidAccounts(w, sender, nounId, value, accepts, ZERO);
    forall x {
      BidAccounts(w, sender, nounId, value, accepts, x);
    }
  }

  // The log of a settlement: the token's events, then the settlement itself.
  lemma SettleLog(w: World, accepts: bool, x: Address)
    requires Settle(w, accepts).Ok?
    ensures var a := w.house.auction; var log := Settle(w, accepts).value.net.log;
            && Won(log, x) == Won(w.net.log, x) + (if a.bidder == x then a.amount else 0)
            && SettledTotal(log) == SettledTotal(w.net.log) + a.amount
  {
    hide Exec, Won, SettledTotal, Send;
    var a := w.house.auction;
    var call := if a.bidder == ZERO then Burn(a.nounId) else TransferFrom(HOUSE, a.bidder, a.nounId);
    var e := Exec(w.net.token, w.net.block, HOUSE, call).value;
    var done := AuctionSettled(a.nounId, a.bidder, a.amount);
    TokenEvents(w.net.token, w.net.block, HOUSE, call);
    NothingWon(e.events, x);
    WonConcat(w.net.log, e.events, x);
    WonConcat(w.net.log + e.events, [done], x);
    WonOne(done, x);
  }

  lemma WonOne(e: Event, x: Address)
    requires e.AuctionSettled?
    ensures Won([e], x) == (if e.winner == x then e.amount else 0) && SettledTotal([e]) == e.amount
  {
    assert [e][..0] == [];
  }

  lemma SettleAccounts(w: World, accepts: bool, x: Address)
    requires Settle(w, accepts).Ok? && Accounted(w, x) && PaidOut(w.house.cash) == SettledTotal(w.net.log)
    ensures var w' := Settle(w, accepts).value;
            Accounted(w', x) && PaidOut(w'.house.cash) == SettledTotal(w'.net.log)
  {
    hide Exec, Won, SettledTotal, PaidIn, Refunded, PaidOut;
    var a, cash := w.house.auction, w.house.cash;
    SettleLog(w, accepts, x);
    if a.amount > 0 {
      CashSnoc(cash, Payout(w.house.owner, a.amount, !accepts || w.house.owner == HOUSE), x);
    }
  }

  lemma SettleKeepsMoney(w: World, accepts: bool)
    requires Money(w) && Settle(w, accepts).Ok?
    ensures Money(Settle(w, accepts).value)
  {
    hide Exec, Accounted, PaidOut, SettledTotal;
    SettleAccounts(w, accepts, ZERO);
    forall x {
      SettleAccounts(w, accepts, x);
    }
  }

  // Creating an auction, or pausing instead, adds nothing to what was won.
  lemma CreateLog(w: World, reward: Seeding, regular: Seeding, x: Address)
    requires Create(w, reward, regular).Ok?
    ensures var log := Create(w, reward, regular).value.net.log;
            Won(log, x) == Won(w.net.log, x) && SettledTotal(log) == SettledTotal(w.net.log)
  {
    hide Exec, Won, SettledTotal;
    if Exec(w.net.token, w.net.block, HOUSE, Mint(reward, regular)).Ok? {
      var e := Exec(w.net.token, w.net.block, HOUSE, Mint(reward, regular)).value;
      var created := AuctionCreated(e.token.nextId - 1, w.time, w.time + w.house.duration);
      TokenEvents(w.net.token, w.net.block, HOUSE, Mint(reward, regular));
      NothingWon(e.events + [created], x);
      WonConcat(w.net.log, e.events + [created], x);
      assert w.net.log + e.events + [created] == w.net.log + (e.events + [created]);
    }
  }

  lemma CreateKeepsMoney(w: World, reward: Seeding, regular: Seeding)
    requires Money(w) && Create(w, reward, regular).Ok?
    requires w.house.auction.startTime == 0 || w.house.auction.settled
    ensures Money(Create(w, reward, regular).value)
  {
    hide Exec, Won, SettledTotal, PaidIn, Refunded, PaidOut;
    CreateLog(w, reward, regular, ZERO);
    forall x
      ensures Accounted(Create(w, reward, regular).value, x)
    {
      assert Accounted(w, x);
      CreateLog(w, reward, regular, x);
    }
  }

  lemma TokenKeepsMoney(w: World, sender: Address, call: Call)
    requires Money(w) && Act(w, sender, OnToken(call)).Ok?
    ensures Money(Act(w, sender, OnToken(call)).value)
  {
    hide Exec;
    var w' := Act(w, sender, OnToken(call)).value;
    var e := Exec(w.net.token, w.net.block, sender, call).value;
    TokenEvents(w.net.token, w.net.block, sender, call);
    forall x
      ensures Accounted(w', x)
      ensures PaidOut(w'.house.cash) == SettledTotal(w'.net.log)
    {
      assert Accounted(w, x);
      NothingWon(e.events, x);
      WonConcat(w.net.log, e.events, x);
    }
    assert Accounted(w', ZERO);
  }

  lemma MoneyElsewhere(w: World, w': World)
    requires Money(w) && w'.net.log == w.net.log && w'.time >= w.time
    requires w'.house.auction == w.house.auction && w'.house.balance == w.house.balance && w'.house.cash == w.house.cash
    ensures Money(w')
  {
    forall x
      ensures Accounted(w', x)
    {
      assert Accounted(w, x);
    }
  }

  lemma NextKeepsMoney(w: World, m: Move)
    requires Money(w)
    ensures Money(Advance(w, m))
  {
    hide Money, Bid, Settle, Create, Exec;
    if m.Wait? {
      MoneyElsewhere(w, Advance(w, m));
    } else if Accepted(w, m) {
      match m.action {
        case CreateBid(nounId, value, accepts) => BidKeepsMoney(w, m.sender, nounId, value, accepts);
        case SettleAuction(accepts) => SettleKeepsMoney(w, accepts);
        case SettleCurrentAndCreateNewAuction(accepts, reward, regular) =>
          SettleKeepsMoney(w, accepts);
          SettleSettles(w, accepts);
          CreateKeepsMoney(Settle(w, accepts).value, reward, regular);
        case Unpause(reward, regular) =>
          var open := w.(house := w.house.(paused := false));
          MoneyElsewhere(w, open);
          if w.house.auction.startTime == 0 || w.house.auction.settled {
            CreateKeepsMoney(open, reward, regular);
          }
        case OnToken(call) => TokenKeepsMoney(w, m.sender, call);
        case _ => MoneyElsewhere(w, Advance(w, m));
      }
    }
  }

  lemma SettleSettles(w: World, accepts: bool)
    requires Settle(w, accepts).Ok?
    ensures Settle(w, accepts).value.house.auction == w.house.auction.(settled := true)
    ensures !w.house.auction.settled && w.house.auction.startTime != 0
  {
  }

  // Escrow and per-account conservation in every reachable state.
  lemma {:induction false} MoneyConserved(w: World, moves: seq<Move>)
    requires Initial(w)
    ensures Money(Play(w, moves))
  {
    if moves == [] {
      forall x
        ensures Accounted(w, x)
      {
      }
    } else {
      hide Money;
      var k := |moves| - 1;
      MoneyConserved(w, moves[..k]);
      NextKeepsMoney(Play(w, moves[..k]), moves[k]);
    }
  }

  // ----- The house's nouns

  // The house approves nobody, delegates to nobody and has no proxy.
  ghost predicate HandsOff(t: Token) {
    && HOUSE !in t.proxies
    && HOUSE !in t.votes.delegates
    && (forall operator :: (HOUSE, operator) !in t.ledger.operators)
    && (forall id :: id in t.ledger.owners && t.ledger.owners[id] == HOUSE ==> Approved(t.ledger, id) == ZERO)
  }

  ghost predicate Holds(t: Token, id: nat) {
    id in t.ledger.owners && t.ledger.owners[id] == HOUSE
  }

  // Approvals are only ever set for existing tokens that are not the house's.
  lemma MintToHandsOff(t: Token, block: nat, to: Address, id: nat, seeding: Seeding, held: nat)
    requires Counted(t.ledger) && HandsOff(t) && MintTo(t, block, to, id, seeding).Ok?
    ensures var t' := MintTo(t, block, to, id, seeding).value.token;
            && HandsOff(t')
            && (Holds(t, held) ==> Holds(t', held))
            && Owner(t'.ledger, id) == to
            && t'.nextId == t.nextId && t'.minter == t.minter
  {
    MovesKeepDelegates(t.votes, block, DelegateOf(t.votes, ZERO), DelegateOf(t.votes, to), 1);
    hide MoveDelegates, Held;
  }

  lemma MovesKeepDelegates(v: Votes, block: nat, src: Address, dst: Address, amount: nat)
    requires MoveDelegates(v, block, src, dst, amount).Ok?
    ensures MoveDelegates(v, block, src, dst, amount).value.delegates == v.delegates
  {
  }

  lemma MintNextHandsOff(t: Token, block: nat, to: Address, seeding: Seeding, held: nat)
    requires Counted(t.ledger) && HandsOff(t) && MintNext(t, block, to, seeding).Ok?
    ensures var t' := MintNext(t, block, to, seeding).value.token;
            && Counted(t'.ledger) && HandsOff(t')
            && (Holds(t, held) ==> Holds(t', held))
            && Owner(t'.ledger, t.nextId) == to
            && t'.nextId == t.nextId + 1 && t'.minter == t.minter
  {
    hide HandsOff, BeforeTransfer;
    var raised := t.(nextId := t.nextId + 1);
    assert HandsOff(raised) by { HandsOffSame(t, raised); }
    MintToHandsOff(raised, block, to, t.nextId, seeding, held);
    CreditCounted(t.ledger, to, t.nextId);
  }

  lemma HandsOffSame(t: Token, t': Token)
    requires HandsOff(t)
    requires t'.proxies == t.proxies && t'.votes.delegates == t.votes.delegates && t'.ledger == t.ledger
    ensures HandsOff(t')
  {
  }

  lemma MintBothHandsOff(t: Token, block: nat, reward: Seeding, regular: Seeding, held: nat)
    requires Counted(t.ledger) && HandsOff(t) && MintBoth(t, block, reward, regular).Ok?
    ensures var t' := MintBoth(t, block, reward, regular).value.token;
            && HandsOff(t')
            && (Holds(t, held) ==> Holds(t', held))
            && t'.nextId > t.nextId
            && Owner(t'.ledger, t'.nextId - 1) == t.minter
  {
    hide HandsOff, MintNext, Counted;
    if t.nextId <= LAST_REWARD && t.nextId % 10 == 0 {
      MintNextHandsOff(t, block, t.noundersDAO, reward, held);
      var first := MintNext(t, block, t.noundersDAO, reward).value.token;
      MintNextHandsOff(first, block, first.minter, regular, held);
    } else {
      MintNextHandsOff(t, block, t.minter, regular, held);
    }
  }

  lemma BurnHandsOff(t: Token, block: nat, id: nat, held: nat)
    requires HandsOff(t) && BurnToken(t, block, id).Ok?
    ensures var t' := BurnToken(t, block, id).value.token;
            && HandsOff(t')
            && (Holds(t', held) <==> Holds(t, held) && held != id)
            && Owner(t'.ledger, id) == ZERO
            && t'.nextId == t.nextId
  {
    MovesKeepDelegates(t.votes, block, DelegateOf(t.votes, t.ledger.owners[id]), DelegateOf(t.votes, ZERO), 1);
    hide MoveDelegates;
  }

  lemma MoveHandsOff(t: Token, block: nat, from: Address, to: Address, id: nat, held: nat)
    requires HandsOff(t) && MoveToken(t, block, from, to, id).Ok?
    ensures var t' := MoveToken(t, block, from, to, id).value.token;
            && HandsOff(t')
            && Owner(t'.ledger, id) == to
            && (held != id ==> (Holds(t', held) <==> Holds(t, held)))
            && t'.nextId == t.nextId
  {
    MovesKeepDelegates(t.votes, block, DelegateOf(t.votes, from), DelegateOf(t.votes, to), 1);
    hide MoveDelegates;
  }

  lemma RedelegateHandsOff(t: Token, block: nat, delegator: Address, delegatee: Address, held: nat)
    requires HandsOff(t) && delegator != HOUSE && Redelegate(t, block, delegator, delegatee).Ok?
    ensures var t' := Redelegate(t, block, delegator, delegatee).value.token;
            HandsOff(t') && t'.ledger == t.ledger && t'.nextId == t.nextId
  {
    MovesKeepDelegates(t.votes.(delegates := t.votes.delegates[delegator := delegatee]), block,
                       DelegateOf(t.votes, delegator), delegatee, Balance(t.ledger, delegator));
    hide MoveDelegates;
  }

  // Nobody outside can take a noun from the house, save the minter by burning it.
  lemma OutsideCallHandsOff(t: Token, block: nat, sender: Address, call: Call, held: nat)
    requires Counted(t.ledger) && HandsOff(t) && Possible(sender, OnToken(call)) && Exec(t, block, sender, call).Ok?
    ensures var t' := Exec(t, block, sender, call).value.token;
            && HandsOff(t')
            && (Holds(t, held) ==> (Holds(t', held) <==> call != Burn(held)))
            && t'.nextId >= t.nextId
  {
    hide MintBoth, BurnToken, MoveToken, Redelegate, Counted;
    match call {
      case TransferFrom(from, to, id) => MoveHandsOff(t, block, from, to, id, held);
      case Mint(reward, regular) => MintBothHandsOff(t, block, reward, regular, held);
      case Burn(id) => BurnHandsOff(t, block, id, held);
      case Delegate(delegatee) => RedelegateHandsOff(t, block, sender, if delegatee == ZERO then sender else delegatee, held);
      case DelegateBySig(signatory, delegatee) => RedelegateHandsOff(t, block, signatory, delegatee, held);
      case _ =>
    }
  }

  // ----- The order of auctions

  function CreatedIds(log: seq<Event>): seq<nat> {
    if log == [] then []
    else
      var e := log[|log| - 1];
      CreatedIds(log[..|log| - 1]) + if e.AuctionCreated? then [e.nounId] else []
  }

  function SettledIds(log: seq<Event>): seq<nat> {
    if log == [] then []
    else
      var e := log[|log| - 1];
      SettledIds(log[..|log| - 1]) + if e.AuctionSettled? then [e.nounId] else []
  }

  lemma {:induction false} IdsConcat(log: seq<Event>, more: seq<Event>)
    ensures CreatedIds(log + more) == CreatedIds(log) + CreatedIds(more)
    ensures SettledIds(log + more) == SettledIds(log) + SettledIds(more)
  {
    hide CreatedIds, SettledIds;
    if more == [] {
      NoIds(more);
      assert log + more == log;
    } else {
      var k := |more| - 1;
      IdsConcat(log, more[..k]);
      IdsSnoc(more[..k], more[k]);
      IdsSnoc(log + more[..k], more[k]);
      assert more[..k] + [more[k]] == more;
      assert log + more[..k] + [more[k]] == log + more;
    }
  }

  lemma IdsSnoc(log: seq<Event>, e: Event)
    ensures CreatedIds(log + [e]) == CreatedIds(log) + if e.AuctionCreated? then [e.nounId] else []
    ensures SettledIds(log + [e]) == SettledIds(log) + if e.AuctionSettled? then [e.nounId] else []
  {
    assert (log + [e])[..|log|] == log;
  }

  lemma {:induction false} NoIds(log: seq<Event>)
    requires forall e <- log :: !e.AuctionCreated? && !e.AuctionSettled?
    ensures CreatedIds(log) == [] && SettledIds(log) == []
  {
    if log != [] {
      NoIds(log[..|log| - 1]);
    }
  }

  ghost predicate Increasing(ids: seq<nat>) {
    forall i, j :: 0 <= i < j < |ids| ==> ids[i] < ids[j]
  }

  // Auctions follow one another: each is settled, once, before the next begins, and ids only go up.
  ghost predicate Sequenced(w: World) {
    var a := w.house.auction;
    var created, settled := CreatedIds(w.net.log), SettledIds(w.net.log);
    && Increasing(created)
    && (forall i :: 0 <= i < |created| ==> created[i] < w.net.token.nextId)
    && (a.startTime == 0 ==> created == [] && settled == [])
    && (a.startTime != 0 ==>
          && created != [] && created[|created| - 1] == a.nounId
          && settled == if a.settled then created else created[..|created| - 1])
  }

  lemma SequencedElsewhere(w: World, w': World, quiet: seq<Event>)
    requires Sequenced(w) && w'.net.log == w.net.log + quiet
    requires forall e <- quiet :: !e.AuctionCreated? && !e.AuctionSettled?
    requires w'.net.token.nextId >= w.net.token.nextId
    requires var a, b := w.house.auction, w'.house.auction;
             b.startTime == a.startTime && b.nounId == a.nounId && b.settled == a.settled
    ensures Sequenced(w')
  {
    NoIds(quiet);
    IdsConcat(w.net.log, quiet);
    assert CreatedIds(w'.net.log) == CreatedIds(w.net.log) && SettledIds(w'.net.log) == SettledIds(w.net.log);
  }

  lemma DoneIds(log: seq<Event>, moved: seq<Event>, id: nat, winner: Address, amount: nat)
    requires OnlyTransfers(moved)
    ensures var log' := log + (moved + [AuctionSettled(id, winner, amount)]);
            CreatedIds(log') == CreatedIds(log) && SettledIds(log') == SettledIds(log) + [id]
  {
    NoIds(moved);
    hide CreatedIds, SettledIds;
    var done := AuctionSettled(id, winner, amount);
    IdsConcat(log, moved);
    IdsSnoc(log + moved, done);
    assert log + moved + [done] == log + (moved + [done]);
  }

  lemma SettleSequenced(w: World, accepts: bool)
    requires Sequenced(w) && Settle(w, accepts).Ok?
    requires Settle(w, accepts).value.net.token.nextId >= w.net.token.nextId
    ensures Sequenced(Settle(w, accepts).value)
  {
    hide Exec, CreatedIds, SettledIds, Settle;
    var a := w.house.auction;
    SettleParts(w, accepts);
    DoneIds(w.net.log, Exec(w.net.token, w.net.block, HOUSE, SettleCall(a)).value.events, a.nounId, a.bidder, a.amount);
    var created := CreatedIds(w.net.log);
    assert created == created[..|created| - 1] + [a.nounId];
  }

  lemma OneId(e: Event)
    ensures CreatedIds([e]) == (if e.AuctionCreated? then [e.nounId] else [])
    ensures SettledIds([e]) == (if e.AuctionSettled? then [e.nounId] else [])
  {
    assert [e][..0] == [];
  }

  lemma NewIds(log: seq<Event>, minted: seq<Event>, created: Event)
    requires OnlyTransfers(minted) && created.AuctionCreated?
    ensures var log' := log + (minted + [created]);
            CreatedIds(log') == CreatedIds(log) + [created.nounId] && SettledIds(log') == SettledIds(log)
  {
    NoIds(minted);
    hide CreatedIds, SettledIds;
    IdsConcat(log, minted);
    IdsSnoc(log + minted, created);
    assert log + minted + [created] == log + (minted + [created]);
  }

  lemma CreateSequenced(w: World, reward: Seeding, regular: Seeding)
    requires Sequenced(w) && w.time > 0 && Create(w, reward, regular).Ok?
    requires w.house.auction.startTime == 0 || w.house.auction.settled
    requires Exec(w.net.token, w.net.block, HOUSE, Mint(reward, regular)).Ok? ==>
               Exec(w.net.token, w.net.block, HOUSE, Mint(reward, regular)).value.token.nextId > w.net.token.nextId
    ensures Sequenced(Create(w, reward, regular).value)
  {
    hide Exec, CreatedIds, SettledIds, Create, Sequenced, OnlyTransfers;
    CreateParts(w, reward, regular);
    var r := Exec(w.net.token, w.net.block, HOUSE, Mint(reward, regular));
    if r.Ok? {
      NewIds(w.net.log, r.value.events, AuctionCreated(r.value.token.nextId - 1, w.time, w.time + w.house.duration));
      NextSequenced(w, Create(w, reward, regular).value);
    } else {
      SequencedElsewhere(w, Create(w, reward, regular).value, []);
    }
  }

  // The next auction in order.
  lemma NextSequenced(w: World, w': World)
    requires Sequenced(w) && (w.house.auction.startTime == 0 || w.house.auction.settled)
    requires w'.net.token.nextId > w.net.token.nextId
    requires var a := w'.house.auction; a.startTime != 0 && !a.settled && a.nounId == w'.net.token.nextId - 1
    requires CreatedIds(w'.net.log) == CreatedIds(w.net.log) + [w'.house.auction.nounId]
    requires SettledIds(w'.net.log) == SettledIds(w.net.log)
    ensures Sequenced(w')
  {
    hide CreatedIds, SettledIds;
    var ids := CreatedIds(w.net.log);
    assert (ids + [w'.house.auction.nounId])[..|ids|] == ids;
  }
}
