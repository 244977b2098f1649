// The indexer's auctions against the auction house, over any run of the joint system.
module AuctionReplica {
  import opened Wrappers
  import opened Chain
  import opened Votes
  import opened Token
  import opened Market
  import opened MarketRuns
  import opened Custody
  import opened Subgraph
  import opened Ownership

  function EntityOf(a: Auction): AuctionEntity {
    AuctionEntity(a.amount, a.startTime, a.endTime, if a.bidder == ZERO then None else Some(a.bidder), a.settled)
  }

  // The log records the settlement of this auction, with this winner and amount.
  ghost predicate RecordedWin(log: seq<Event>, id: nat, e: AuctionEntity) {
    && e.settled
    && exists k, winner: Address :: 0 <= k < |log| && log[k] == AuctionSettled(id, winner, e.amount)
         && e.bidder == if winner == ZERO then None else Some(winner)
  }

  // Every auction ever created is in the store, and nothing else is. The current one is mirrored
  // field by field; all others, and it too once settled, are as their settlement left them.
  ghost predicate Mirrors(auctions: map<nat, AuctionEntity>, w: World) {
    var a := w.house.auction;
    && (a.startTime != 0 ==> a.nounId in auctions && auctions[a.nounId] == EntityOf(a))
    && (forall id :: id in auctions <==> id in CreatedIds(w.net.log))
    && (forall id :: id in auctions && (id != a.nounId || a.startTime == 0 || a.settled) ==>
          RecordedWin(w.net.log, id, auctions[id]))
  }

  function ReplayFrom(s: Store, events: seq<Event>): Store {
    if events == [] then s else On(ReplayFrom(s, events[..|events| - 1]), events[|events| - 1])
  }

  lemma {:induction false} ReplayConcat(log: seq<Event>, more: seq<Event>)
    ensures Replay(log + more) == ReplayFrom(Replay(log), more)
  {
    hide On;
    if more == [] {
      assert log + more == log;
    } else {
      var k := |more| - 1;
      ReplayConcat(log, more[..k]);
      assert (log + more)[..|log| + k] == log + more[..k];
    }
  }

  lemma {:induction false} TransfersKeepAuctions(s: Store, events: seq<Event>)
    requires forall e <- events :: e.Transfer?
    ensures ReplayFrom(s, events).auctions == s.auctions
    ensures events != [] ==> events[|events| - 1].id in ReplayFrom(s, events).nouns
  {
    if events != [] {
      var k := |events| - 1;
      TransfersKeepAuctions(s, events[..k]);
      var e := events[k];
      TransferEffect(ReplayFrom(s, events[..k]), e.from, e.to, e.id);
      hide OnTransfer;
    }
  }

  lemma WinKept(log: seq<Event>, more: seq<Event>, id: nat, e: AuctionEntity)
    requires RecordedWin(log, id, e)
    ensures RecordedWin(log + more, id, e)
  {
    var k, winner: Address :| 0 <= k < |log| && log[k] == AuctionSettled(id, winner, e.amount)
         && e.bidder == if winner == ZERO then None else Some(winner);
    assert (log + more)[k] == AuctionSettled(id, winner, e.amount);
  }

  lemma {:induction false} NoneCreated(log: seq<Event>, more: seq<Event>)
    requires forall e <- more :: !e.AuctionCreated?
    ensures CreatedIds(log + more) == CreatedIds(log)
  {
    if more == [] {
      assert log + more == log;
    } else {
      var k := |more| - 1;
      NoneCreated(log, more[..k]);
      assert (log + more)[..|log| + k] == log + more[..k];
    }
  }

  // Events that change no auction.
  lemma MirrorsElsewhere(auctions: map<nat, AuctionEntity>, w: World, w': World, more: seq<Event>)
    requires Mirrors(auctions, w) && w'.house.auction == w.house.auction && w'.net.log == w.net.log + more
    requires forall e <- more :: !e.AuctionCreated?
    ensures Mirrors(auctions, w')
  {
    NoneCreated(w.net.log, more);
    hide RecordedWin, CreatedIds;
    forall id | id in auctions && RecordedWin(w.net.log, id, auctions[id])
      ensures RecordedWin(w'.net.log, id, auctions[id])
    {
      WinKept(w.net.log, more, id, auctions[id]);
    }
  }

  // Changing the running auction alone.
  lemma MirrorsCurrent(auctions: map<nat, AuctionEntity>, auctions': map<nat, AuctionEntity>, w: World, w': World, more: seq<Event>)
    requires Mirrors(auctions, w) && Running(w) && w'.net.log == w.net.log + more
    requires forall e <- more :: !e.AuctionCreated?
    requires var a, a' := w.house.auction, w'.house.auction;
             a'.nounId == a.nounId && a'.startTime == a.startTime && auctions' == auctions[a.nounId := EntityOf(a')]
    requires w'.house.auction.settled ==> RecordedWin(w'.net.log, w.house.auction.nounId, EntityOf(w'.house.auction))
    ensures Mirrors(auctions', w')
  {
    NoneCreated(w.net.log, more);
    hide RecordedWin, CreatedIds, EntityOf;
    forall id | id in auctions && RecordedWin(w.net.log, id, auctions[id])
      ensures RecordedWin(w'.net.log, id, auctions[id])
    {
      WinKept(w.net.log, more, id, auctions[id]);
    }
  }

  lemma BidEvents(w: World, sender: Address, nounId: nat, value: nat, accepts: bool)
    requires Bid(w, sender, nounId, value, accepts).Ok?
    ensures var a, w' := w.house.auction, Bid(w, sender, nounId, value, accepts).value;
            && w'.house.auction == a.(amount := value, bidder := sender, endTime := w'.house.auction.endTime)
            && a.nounId == nounId
            && ((w'.net.log == w.net.log + [AuctionBid(nounId, sender, value, false)] && w'.house.auction.endTime == a.endTime)
                || w'.net.log == w.net.log + [AuctionBid(nounId, sender, value, true), AuctionExtended(nounId, w'.house.auction.endTime)])
  {
    hide Times, MinimumBid;
    var endTime := Bid(w, sender, nounId, value, accepts).value.house.auction.endTime;
    var bid, extended := AuctionBid(nounId, sender, value, true), AuctionExtended(nounId, endTime);
    assert w.net.log + [bid] + [extended] == w.net.log + [bid, extended];
    assert w.net.log + [AuctionBid(nounId, sender, value, false)] + [] == w.net.log + [AuctionBid(nounId, sender, value, false)];
  }

  // What the indexer makes of a bid, with or without an extension.
  lemma BidIndexed(s: Store, a: Auction, sender: Address, value: nat, endTime: nat)
    requires a.nounId in s.auctions && s.auctions[a.nounId] == EntityOf(a) && sender != ZERO
    ensures On(s, AuctionBid(a.nounId, sender, value, false)).auctions
         == s.auctions[a.nounId := EntityOf(a.(amount := value, bidder := sender))]
    ensures On(On(s, AuctionBid(a.nounId, sender, value, true)), AuctionExtended(a.nounId, endTime)).auctions
         == s.auctions[a.nounId := EntityOf(a.(amount := value, bidder := sender, endTime := endTime))]
  {
  }

  lemma BidReplayed(log: seq<Event>, a: Auction, sender: Address, value: nat, endTime: nat)
    requires sender != ZERO && var s := Replay(log); a.nounId in s.auctions && s.auctions[a.nounId] == EntityOf(a)
    ensures Replay(log + [AuctionBid(a.nounId, sender, value, false)]).auctions
         == Replay(log).auctions[a.nounId := EntityOf(a.(amount := value, bidder := sender))]
    ensures Replay(log + [AuctionBid(a.nounId, sender, value, true), AuctionExtended(a.nounId, endTime)]).auctions
         == Replay(log).auctions[a.nounId := EntityOf(a.(amount := value, bidder := sender, endTime := endTime))]
  {
    hide Replay, On, EntityOf;
    var s := Replay(log);
    var quick, extended := AuctionBid(a.nounId, sender, value, false), AuctionBid(a.nounId, sender, value, true);
    var late := AuctionExtended(a.nounId, endTime);
    ReplayTwo(s, quick, late);
    ReplayTwo(s, extended, late);
    ReplayConcat(log, [quick]);
    ReplayConcat(log, [extended, late]);
    BidIndexed(s, a, sender, value, endTime);
  }

  lemma BidMirrored(w: World, sender: Address, nounId: nat, value: nat, accepts: bool)
    requires AuctionSane(w) && sender != ZERO && Bid(w, sender, nounId, value, accepts).Ok?
    requires Mirrors(Replay(w.net.log).auctions, w)
    ensures var w' := Bid(w, sender, nounId, value, accepts).value; Mirrors(Replay(w'.net.log).auctions, w')
  {
    BidFindsAuction(w, sender, nounId, value, accepts);
    BidEvents(w, sender, nounId, value, accepts);
    assert Running(w) && var a := w.house.auction; a.nounId in Replay(w.net.log).auctions && Replay(w.net.log).auctions[a.nounId] == EntityOf(a);
    hide Bid, Replay, Mirrors, EntityOf;
    var a, w' := w.house.auction, Bid(w, sender, nounId, value, accepts).value;
    BidReplayed(w.net.log, a, sender, value, w'.house.auction.endTime);
    var auctions' := Replay(w.net.log).auctions[nounId := EntityOf(w'.house.auction)];
    var more := w'.net.log[|w.net.log|..];
    assert w'.net.log == w.net.log + more;
    MirrorsCurrent(Replay(w.net.log).auctions, auctions', w, w', more);
  }

  lemma ReplayTwo(s: Store, first: Event, second: Event)
    ensures ReplayFrom(s, [first]) == On(s, first)
    ensures ReplayFrom(s, [first, second]) == On(On(s, first), second)
  {
    hide On;
    assert [first][..0] == [] && [first, second][..1] == [first];
    assert ReplayFrom(s, []) == s;
  }

  lemma SettleIndexed(s: Store, a: Auction)
    requires a.nounId in s.auctions && s.auctions[a.nounId] == EntityOf(a)
    ensures On(s, AuctionSettled(a.nounId, a.bidder, a.amount)).auctions == s.auctions[a.nounId := EntityOf(a.(settled := true))]
  {
  }

  lemma SettleReplayed(log: seq<Event>, a: Auction, moved: seq<Event>)
    requires forall e <- moved :: e.Transfer?
    requires var s := Replay(log); a.nounId in s.auctions && s.auctions[a.nounId] == EntityOf(a)
    ensures Replay(log + (moved + [AuctionSettled(a.nounId, a.bidder, a.amount)])).auctions
         == Replay(log).auctions[a.nounId := EntityOf(a.(settled := true))]
  {
    hide Replay, On, EntityOf;
    var s, done := Replay(log), AuctionSettled(a.nounId, a.bidder, a.amount);
    TransfersKeepAuctions(s, moved);
    ReplayConcat(log, moved + [done]);
    assert (moved + [done])[..|moved|] == moved;
    SettleIndexed(ReplayFrom(s, moved), a);
  }

  lemma SettleMirrored(w: World, accepts: bool)
    requires Settle(w, accepts).Ok? && Mirrors(Replay(w.net.log).auctions, w)
    ensures var w' := Settle(w, accepts).value; Mirrors(Replay(w'.net.log).auctions, w')
  {
    var w', a := Settle(w, accepts).value, w.house.auction;
    hide Exec, CreatedIds, Settle, Replay;
    SettleParts(w, accepts);
    var e := Exec(w.net.token, w.net.block, HOUSE, SettleCall(a)).value;
    var more := e.events + [AuctionSettled(a.nounId, a.bidder, a.amount)];
    SettleReplayed(w.net.log, a, e.events);
    SettleRecorded(w.net.log, more, w'.house.auction);
    hide Mirrors, EntityOf;
    MirrorsCurrent(Replay(w.net.log).auctions, Replay(w'.net.log).auctions, w, w', more);
  }

  lemma SettleRecorded(log: seq<Event>, more: seq<Event>, a: Auction)
    requires a.settled && more != [] && more[|more| - 1] == AuctionSettled(a.nounId, a.bidder, a.amount)
    ensures RecordedWin(log + more, a.nounId, EntityOf(a))
  {
    var all := log + more;
    assert all[|all| - 1] == AuctionSettled(a.nounId, a.bidder, a.amount);
  }

  lemma MintLastEvent(t: Token, block: nat, sender: Address, reward: Seeding, regular: Seeding)
    requires Exec(t, block, sender, Mint(reward, regular)).Ok?
    ensures var e := Exec(t, block, sender, Mint(reward, regular)).value;
            e.events != [] && e.events[|e.events| - 1] == Transfer(t.owner, t.minter, e.token.nextId - 1)
  {
    hide BeforeTransfer;
  }

  lemma CreateReplayed(log: seq<Event>, minted: seq<Event>, created: Event)
    requires OnlyTransfers(minted) && minted != [] && created.AuctionCreated? && minted[|minted| - 1].id == created.nounId
    ensures Replay(log + (minted + [created])).auctions
         == Replay(log).auctions[created.nounId := AuctionEntity(0, created.startTime, created.endTime, None, false)]
  {
    var s, more := Replay(log), minted + [created];
    TransfersKeepAuctions(s, minted);
    ReplayConcat(log, more);
    assert more[..|more| - 1] == minted;
    assert ReplayFrom(s, more) == On(ReplayFrom(s, minted), created);
    hide Replay, ReplayFrom;
  }

  lemma CreateMirrored(w: World, reward: Seeding, regular: Seeding)
    requires Create(w, reward, regular).Ok? && Mirrors(Replay(w.net.log).auctions, w)
    requires Sequenced(w) && w.time > 0 && (w.house.auction.startTime == 0 || w.house.auction.settled)
    requires Exec(w.net.token, w.net.block, HOUSE, Mint(reward, regular)).Ok? ==>
               Exec(w.net.token, w.net.block, HOUSE, Mint(reward, regular)).value.token.nextId > w.net.token.nextId
    ensures var w' := Create(w, reward, regular).value; Mirrors(Replay(w'.net.log).auctions, w')
  {
    hide Exec, Replay, Mirrors, Sequenced, Create;
    CreateParts(w, reward, regular);
    var w' := Create(w, reward, regular).value;
    if Exec(w.net.token, w.net.block, HOUSE, Mint(reward, regular)).Ok? {
      var e := Exec(w.net.token, w.net.block, HOUSE, Mint(reward, regular)).value;
      var created := AuctionCreated(e.token.nextId - 1, w.time, w.time + w.house.duration);
      MintLastEvent(w.net.token, w.net.block, HOUSE, reward, regular);
      CreateReplayed(w.net.log, e.events, created);
      CreateMirrors(Replay(w.net.log).auctions, w, w', e.events, created);
    } else {
      MirrorsElsewhere(Replay(w.net.log).auctions, w, w', []);
      assert w.net.log + [] == w.net.log;
    }
  }

  lemma NewIdUnknown(auctions: map<nat, AuctionEntity>, w: World, id: nat)
    requires Mirrors(auctions, w) && Sequenced(w) && id >= w.net.token.nextId
    ensures id !in auctions
  {
    hide RecordedWin, CreatedIds, EntityOf;
  }

  lemma CreatedIdsGrow(log: seq<Event>, minted: seq<Event>, created: Event)
    requires created.AuctionCreated? && forall e <- minted :: e.Transfer?
    ensures CreatedIds(log + (minted + [created])) == CreatedIds(log) + [created.nounId]
  {
    hide CreatedIds;
    NoneCreated(log, minted);
    IdsConcat(log + minted, [created]);
    OneId(created);
    assert log + minted + [created] == log + (minted + [created]);
  }

  lemma CreateMirrors(auctions: map<nat, AuctionEntity>, w: World, w': World, minted: seq<Event>, created: Event)
    requires Mirrors(auctions, w) && Sequenced(w) && (w.house.auction.startTime == 0 || w.house.auction.settled)
    requires (forall e <- minted :: e.Transfer?) && created.AuctionCreated? && created.startTime != 0 && w'.net.log == w.net.log + (minted + [created]) && created.nounId >= w.net.token.nextId
    requires w'.house.auction == Auction(created.nounId, 0, created.startTime, created.endTime, ZERO, false)
    ensures Mirrors(auctions[created.nounId := EntityOf(w'.house.auction)], w')
  {
    hide RecordedWin, CreatedIds, EntityOf, Sequenced;
    NewIdUnknown(auctions, w, created.nounId);
    CreatedIdsGrow(w.net.log, minted, created);
    var more := minted + [created];
    forall id | id in auctions
      ensures RecordedWin(w'.net.log, id, auctions[id])
    {
      WinKept(w.net.log, more, id, auctions[id]);
    }
  }

  ghost predicate Mirrored(w: World) {
    Mirrors(Replay(w.net.log).auctions, w)
  }

  lemma AdvanceMirrored(w: World, m: Move)
    requires Invariant(w) && Mirrored(w)
    ensures Mirrored(Advance(w, m))
  {
    hide Settle, Create, Exec, Mirrors, Accounted, Escrowed, Sequenced, TokenFine;
    var w' := Advance(w, m);
    assert w.net.log + [] == w.net.log;
    if Accepted(w, m) {
      match m.action {
        case CreateBid(nounId, value, accepts) => BidMirrored(w, m.sender, nounId, value, accepts);
        case SettleAuction(accepts) => SettleMirrored(w, accepts);
        case SettleCurrentAndCreateNewAuction(accepts, reward, regular) =>
          SettleMirrored(w, accepts);
          SettleFine(w, accepts);
          SettleSequenced(w, accepts);
          SettleSettles(w, accepts);
          SettleKeepsMoney(w, accepts);
          CreateFine(Settle(w, accepts).value, reward, regular);
          CreateMirrored(Settle(w, accepts).value, reward, regular);
        case Unpause(reward, regular) =>
          var open := w.(house := w.house.(paused := false));
          SequencedElsewhere(w, open, []);
          MirrorsElsewhere(Replay(w.net.log).auctions, w, open, []);
          FineElsewhere(w, open);
          if w.house.auction.startTime == 0 || w.house.auction.settled {
            CreateFine(open, reward, regular);
            CreateMirrored(open, reward, regular);
          }
        case OnToken(call) =>
          var e := Exec(w.net.token, w.net.block, m.sender, call).value;
          TokenEvents(w.net.token, w.net.block, m.sender, call);
          TransfersKeepAuctions(Replay(w.net.log), e.events);
          ReplayConcat(w.net.log, e.events);
          MirrorsElsewhere(Replay(w.net.log).auctions, w, w', e.events);
        case _ => MirrorsElsewhere(Replay(w.net.log).auctions, w, w', []);
      }
    } else {
      MirrorsElsewhere(Replay(w.net.log).auctions, w, w', []);
    }
  }

  // In every run, the replayed log mirrors the current auction and keeps every earlier one as settled.
  lemma {:induction false} AuctionsMirrored(w: World, moves: seq<Move>)
    requires Initial(w)
    ensures Mirrored(Play(w, moves))
  {
    if moves == [] {
      assert Replay([]).auctions == map[];
    } else {
      hide Mirrored, Invariant, Advance;
      var k := |moves| - 1;
      AuctionsMirrored(w, moves[..k]);
      InvariantHolds(w, moves[..k]);
      AdvanceMirrored(Play(w, moves[..k]), moves[k]);
    }
  }
}
