// When each call on the auction house goes through, and the state it leaves.
module HouseCalls {
  import opened Chain
  import opened Token
  import opened Market
  import opened MarketRuns
  import opened Custody
  import opened HouseSettings
  import opened TokenCalls
  import TokenRuns

  // Block numbers, ids and times short of their widths by what one call can add.
  ghost predicate Roomy(w: World) {
    w.net.block + 3 < U32 && w.net.token.nextId + 2 < U96 && w.time + w.house.duration < U256
  }

  // A new auction of the noun just minted: it begins now, lasts the duration, and nobody has bid.
  ghost predicate OpensAuction(w: World, w': World) {
    var id := MintedId(w.net.token);
    && w'.house == w.house.(auction := Auction(id, 0, w.time, w.time + w.house.duration, ZERO, false))
    && w'.time == w.time && w'.net.block == w.net.block
    && Holds(w'.net.token, id) && w'.net.token.nextId == id + 1
    && |w'.net.log| > |w.net.log| && w'.net.log[|w'.net.log| - 1] == AuctionCreated(id, w.time, w.time + w.house.duration)
  }

  // How the creation of an auction ends: with an auction when the house may mint and the seeder answers;
  // with the house paused instead when the mint is refused with a message; and undone when it panics.
  lemma CreateExact(w: World, reward: Seeding, regular: Seeding)
    requires TokenFine(w) && Roomy(w)
    ensures var r := Create(w, reward, regular);
            match MintStatus(w.net.token, HOUSE, reward, regular)
            case Succeeded => r.Ok? && OpensAuction(w, r.value)
            case Failed => r == if w.house.paused then Error else Ok(w.(house := w.house.(paused := true)))
            case Panicked => r == Panic
  {
    FineParts(w);
    NoDebtIn(w);
    MintStatusExact(w.net.token, w.net.block, HOUSE, reward, regular);
    hide Sound, HandsOff, FullyCounted, NoDebt, TokenFine, Exec, MintStatus;
    if MintStatus(w.net.token, HOUSE, reward, regular) == Succeeded {
      MintLeaves(w.net.token, w.net.block, HOUSE, reward, regular);
      MinterMints(w.net.token, reward, regular);
      CreateParts(w, reward, regular);
    }
  }

  lemma MinterMints(t: Token, reward: Seeding, regular: Seeding)
    requires MintStatus(t, HOUSE, reward, regular) == Succeeded
    ensures t.minter == HOUSE
  {
  }

  lemma NoDebtIn(w: World)
    requires TokenFine(w)
    ensures NoDebt(w.net.token)
  {
    hide Shortfall, Sound, HandsOff;
  }

  // ----- Settling

  // Whether a settlement would go through.
  ghost predicate CanSettleNow(w: World) {
    && Running(w) && w.house.auction.endTime <= w.time
    && (w.house.auction.bidder != ZERO || w.net.token.minter == HOUSE)
  }

  // The auction is settled, its noun with the winner or gone, its price paid out, and nothing else of
  // the house or of the roles, ids and nouns of the token is different.
  ghost predicate SettlesAuction(w: World, w': World) {
    var a := w.house.auction;
    && w'.house.auction == a.(settled := true) && w'.house.balance == 0
    && SameSettings(w, w') && w'.house.paused == w.house.paused && w'.time == w.time && w'.net.block == w.net.block
    && w'.net.token.ledger.owners == (if a.bidder == ZERO then w.net.token.ledger.owners - {a.nounId}
                                     else w.net.token.ledger.owners[a.nounId := a.bidder])
    && RolesOf(w'.net.token) == RolesOf(w.net.token) && w'.net.token.nextId == w.net.token.nextId
    && w'.net.log == w.net.log + [Transfer(HOUSE, a.bidder, a.nounId), AuctionSettled(a.nounId, a.bidder, a.amount)]
  }

  lemma SettleLeaves(w: World, accepts: bool)
    requires Invariant(w) && InCustody(w) && TokenRuns.WithinWidths(w.net.token, w.net.block)
    ensures Settle(w, accepts).Ok? <==> CanSettleNow(w)
    ensures Settle(w, accepts).Ok? ==> SettlesAuction(w, Settle(w, accepts).value)
  {
    SettlementExact(w, accepts);
    if Settle(w, accepts).Ok? {
      SettleParts(w, accepts);
      SettleKeepsSettings(w, accepts);
      SettlementDelivers(w, accepts);
      hide Settle, Money, Sequenced;
      SettleCallLeaves(w);
      var a, e := w.house.auction, Exec(w.net.token, w.net.block, HOUSE, SettleCall(w.house.auction)).value;
      assert [Transfer(HOUSE, a.bidder, a.nounId)] + [AuctionSettled(a.nounId, a.bidder, a.amount)]
          == [Transfer(HOUSE, a.bidder, a.nounId), AuctionSettled(a.nounId, a.bidder, a.amount)];
    }
    hide Exec, TokenFine, Money, Sequenced;
  }

  lemma SettleCallLeaves(w: World)
    requires TokenFine(w) && Running(w) && InCustody(w) && TokenRuns.WithinWidths(w.net.token, w.net.block)
    requires Exec(w.net.token, w.net.block, HOUSE, SettleCall(w.house.auction)).Ok?
    ensures var a, t := w.house.auction, w.net.token; var e := Exec(t, w.net.block, HOUSE, SettleCall(a)).value;
            && e.token.ledger.owners == (if a.bidder == ZERO then t.ledger.owners - {a.nounId} else t.ledger.owners[a.nounId := a.bidder])
            && RolesOf(e.token) == RolesOf(t) && e.token.nextId == t.nextId
            && e.events == [Transfer(HOUSE, a.bidder, a.nounId)]
  {
    var a := w.house.auction;
    FineParts(w);
    hide Exec, Sound, HandsOff, FullyCounted;
    if a.bidder == ZERO {
      BurnExact(w.net.token, w.net.block, HOUSE, a.nounId);
    } else {
      TransferLeaves(w.net.token, w.net.block, HOUSE, HOUSE, a.bidder, a.nounId);
    }
  }

  // ----- The calls

  // What holds in every reachable state in which the noun on auction has not been burned, widths apart.
  ghost predicate Steady(w: World) {
    Invariant(w) && InCustody(w) && Roomy(w)
  }

  // While paused anyone may settle what can be settled.
  lemma SettleAuctionExact(w: World, sender: Address, accepts: bool)
    requires Steady(w) && sender != ZERO && sender != HOUSE
    ensures var m := Do(sender, SettleAuction(accepts));
            && (Accepted(w, m) <==> w.house.paused && CanSettleNow(w))
            && (Accepted(w, m) ==> SettlesAuction(w, Advance(w, m)))
  {
    SettleLeaves(w, accepts);
    hide Settle, Invariant, InCustody, SettlesAuction, CanSettleNow;
  }

  // How the attempt to open the next auction ends, after a settlement or on unpausing.
  ghost predicate Reopens(w: World, w': World, reward: Seeding, regular: Seeding) {
    if MintStatus(w.net.token, HOUSE, reward, regular) == Succeeded then OpensAuction(w, w')
    else w' == w.(house := w.house.(paused := true))
  }

  lemma SettledThenCreated(w: World, accepts: bool, reward: Seeding, regular: Seeding)
    requires Steady(w) && !w.house.paused && Settle(w, accepts).Ok?
    ensures var r := SettleAndCreate(w, accepts, reward, regular);
            && (r.Ok? <==> MintStatus(w.net.token, HOUSE, reward, regular) != Panicked)
            && (r.Ok? ==> exists v :: SettlesAuction(w, v) && Reopens(v, r.value, reward, regular))
  {
    SettleLeaves(w, accepts);
    var v := Settle(w, accepts).value;
    SettleFine(w, accepts) by {
      hide Settle;
    }
    hide Settle, Create, InCustody, SettlesAuction, CanSettleNow, MintStatus, OpensAuction, Invariant;
    SameMint(w, v, reward, regular);
    RoomAfter(w, v);
    PausedAfter(w, v);
    CreateExact(v, reward, regular);
    hide Roomy, TokenFine;
    assert SettlesAuction(w, v);
  }

  // Otherwise anyone may settle and open the next auction, or have the house paused if the mint is
  // refused, in one call; if the mint panics neither happens.
  lemma SettleCurrentAndCreateExact(w: World, sender: Address, accepts: bool, reward: Seeding, regular: Seeding)
    requires Steady(w) && sender != ZERO && sender != HOUSE
    ensures var m := Do(sender, SettleCurrentAndCreateNewAuction(accepts, reward, regular));
            && (Accepted(w, m) <==>
                  && !w.house.paused && CanSettleNow(w)
                  && MintStatus(w.net.token, HOUSE, reward, regular) != Panicked)
            && (Accepted(w, m) ==> exists v :: SettlesAuction(w, v) && Reopens(v, Advance(w, m), reward, regular))
  {
    SettleLeaves(w, accepts);
    if !w.house.paused && Settle(w, accepts).Ok? {
      SettledThenCreated(w, accepts, reward, regular);
    }
    assert !Settle(w, accepts).Ok? ==> !SettleAndCreate(w, accepts, reward, regular).Ok?;
    hide SettleAndCreate, Settle, SettlesAuction, Reopens, CanSettleNow, MintStatus, Steady;
  }

  lemma PausedAfter(w: World, v: World)
    requires SettlesAuction(w, v)
    ensures v.house.paused == w.house.paused
  {
  }

  lemma RoomAfter(w: World, v: World)
    requires SettlesAuction(w, v) && Roomy(w)
    ensures Roomy(v)
  {
  }

  lemma SameMint(w: World, v: World, reward: Seeding, regular: Seeding)
    requires SettlesAuction(w, v)
    ensures MintStatus(v.net.token, HOUSE, reward, regular) == MintStatus(w.net.token, HOUSE, reward, regular)
  {
  }

  // Only the owner pauses, and only what is not paused; nothing else changes.
  lemma PauseExact(w: World, sender: Address)
    ensures var m := Do(sender, Pause);
            && (Accepted(w, m) <==> ByOwner(SettingsOf(w.house), m) && !w.house.paused)
            && (Accepted(w, m) ==> Advance(w, m) == w.(house := w.house.(paused := true)))
  {
  }

  // Only the owner unpauses, and only what is paused. With an auction running nothing else changes; with
  // none, the next is opened, or the house paused again when the mint is refused.
  lemma UnpauseExact(w: World, sender: Address, reward: Seeding, regular: Seeding)
    requires Steady(w)
    ensures var m, open := Do(sender, Unpause(reward, regular)), w.(house := w.house.(paused := false));
            && (Accepted(w, m) <==>
                  && ByOwner(SettingsOf(w.house), m) && w.house.paused
                  && (Running(w) || MintStatus(w.net.token, HOUSE, reward, regular) != Panicked))
            && (Accepted(w, m) ==>
                  if Running(w) then Advance(w, m) == open else Reopens(open, Advance(w, m), reward, regular))
  {
    var open := w.(house := w.house.(paused := false));
    FineElsewhere(w, open);
    CreateExact(open, reward, regular);
    hide Create, TokenFine, MintStatus, OpensAuction, Money, Sequenced;
  }

  // ----- How long auctions last

  lemma DurationConcat(log: seq<Event>, moved: seq<Event>, last: Event, duration: nat)
    requires OnlyTransfers(moved) && AllLast(log, duration)
    requires last.AuctionCreated? ==> last.endTime == last.startTime + duration
    ensures AllLast(log + (moved + [last]), duration) && AllLast(log + moved, duration)
  {
    var log' := log + (moved + [last]);
    assert forall e :: e in log' <==> e in log || e in moved || e == last;
    assert forall e :: e in log + moved <==> e in log || e in moved;
  }

  ghost predicate AllLast(log: seq<Event>, duration: nat) {
    forall e <- log :: e.AuctionCreated? ==> e.endTime == e.startTime + duration
  }

  lemma CreateDuration(w: World, reward: Seeding, regular: Seeding)
    requires Create(w, reward, regular).Ok? && AllLast(w.net.log, w.house.duration)
    ensures AllLast(Create(w, reward, regular).value.net.log, w.house.duration)
  {
    CreateParts(w, reward, regular);
    hide Create, Exec, OnlyTransfers, AllLast;
    var r, w' := Exec(w.net.token, w.net.block, HOUSE, Mint(reward, regular)), Create(w, reward, regular).value;
    if r.Ok? {
      var a := w'.house.auction;
      DurationConcat(w.net.log, r.value.events, AuctionCreated(a.nounId, a.startTime, a.endTime), w.house.duration);
    }
  }

  lemma SettleDuration(w: World, accepts: bool)
    requires Settle(w, accepts).Ok? && AllLast(w.net.log, w.house.duration)
    ensures AllLast(Settle(w, accepts).value.net.log, w.house.duration)
  {
    SettleParts(w, accepts);
    hide Settle, Exec, OnlyTransfers, AllLast;
    var a, e := w.house.auction, Exec(w.net.token, w.net.block, HOUSE, SettleCall(w.house.auction)).value;
    DurationConcat(w.net.log, e.events, AuctionSettled(a.nounId, a.bidder, a.amount), w.house.duration);
  }

  lemma BidDuration(w: World, sender: Address, nounId: nat, value: nat, accepts: bool)
    requires Bid(w, sender, nounId, value, accepts).Ok? && AllLast(w.net.log, w.house.duration)
    ensures AllLast(Bid(w, sender, nounId, value, accepts).value.net.log, w.house.duration)
  {
    hide Times, MinimumBid;
    var w' := Bid(w, sender, nounId, value, accepts).value;
    var news := w'.net.log[|w.net.log|..];
    assert w'.net.log == w.net.log + news;
    assert forall e :: e in w'.net.log <==> e in w.net.log || e in news;
  }

  lemma StepDuration(w: World, m: Move)
    requires AllLast(w.net.log, w.house.duration)
    ensures AllLast(Advance(w, m).net.log, w.house.duration)
  {
    hide Bid, Settle, Create, Exec, AllLast;
    if Accepted(w, m) {
      match m.action {
        case CreateBid(nounId, value, accepts) => BidDuration(w, m.sender, nounId, value, accepts);
        case SettleAuction(accepts) => SettleDuration(w, accepts);
        case SettleCurrentAndCreateNewAuction(accepts, reward, regular) =>
          SettleDuration(w, accepts);
          SettleKeepsSettings(w, accepts);
          CreateDuration(Settle(w, accepts).value, reward, regular);
        case Unpause(reward, regular) =>
          if w.house.auction.startTime == 0 || w.house.auction.settled {
            CreateDuration(w.(house := w.house.(paused := false)), reward, regular);
          }
        case OnToken(call) =>
          TokenEvents(w.net.token, w.net.block, m.sender, call);
          DurationConcat(w.net.log, Exec(w.net.token, w.net.block, m.sender, call).value.events, AuctionSettled(0, 0, 0), w.house.duration);
        case _ =>
      }
    }
  }

  // In any run every auction created was given the house's duration, which never changes.
  lemma {:induction false} DurationsExact(w: World, moves: seq<Move>)
    requires Initial(w)
    ensures AllLast(Play(w, moves).net.log, w.house.duration)
  {
    if moves != [] {
      hide Advance, AllLast, Initial;
      var k := |moves| - 1;
      DurationsExact(w, moves[..k]);
      SettingsExact(w, moves[..k]);
      StepDuration(Play(w, moves[..k]), moves[k]);
    }
  }
}
