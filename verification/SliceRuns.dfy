// The web application's auction against the auction house, over any run of the joint system.
module SliceRuns {
  import opened Wrappers
  import opened Chain
  import opened Token
  import opened Market
  import opened MarketRuns
  import opened Custody
  import opened AuctionSlice

  predicate BidOn(e: Event, nounId: nat) {
    e.AuctionBid? && e.nounId == nounId
  }

  // The log holds the leading bid of the auction, nothing above it, and no bid on a noun to come.
  ghost predicate BidsLogged(a: Auction, log: seq<Event>, nextId: nat) {
    && (forall e <- log :: e.AuctionBid? ==> e.nounId < nextId)
    && (forall e <- log :: a.startTime != 0 && BidOn(e, a.nounId) ==> a.bidder != ZERO && e.value <= a.amount)
    && (a.bidder != ZERO ==> exists e <- log :: BidOn(e, a.nounId) && e.sender == a.bidder && e.value == a.amount)
  }

  predicate GivesEnd(e: Event) {
    e.AuctionCreated? || e.AuctionExtended?
  }

  // The end given by the last creation or extension in the log.
  function LoggedEnd(log: seq<Event>): nat {
    if log == [] then 0
    else
      var e := log[|log| - 1];
      if GivesEnd(e) then e.endTime else LoggedEnd(log[..|log| - 1])
  }

  predicate Begins(e: Event, a: Auction) {
    e.AuctionCreated? && e.nounId == a.nounId && e.startTime == a.startTime
  }

  predicate ExtendsOn(e: Event, nounId: nat) {
    e.AuctionExtended? && e.nounId == nounId
  }

  // The end is that of a logged extension, or of the creation when nothing was extended.
  ghost predicate EndTold(a: Auction, log: seq<Event>) {
    || AuctionExtended(a.nounId, a.endTime) in log
    || forall e <- log :: GivesEnd(e) && e.nounId == a.nounId ==> e.AuctionCreated? && e.endTime == a.endTime
  }

  // No creation or extension names a noun to come, and none logged for the current one gives it a
  // later end than it has.
  ghost predicate EndsLogged(a: Auction, log: seq<Event>, nextId: nat) {
    && (forall e <- log :: GivesEnd(e) ==> e.nounId < nextId)
    && (forall e <- log :: a.startTime != 0 && GivesEnd(e) && e.nounId == a.nounId ==> e.endTime <= a.endTime)
    && (a.startTime != 0 ==> LoggedEnd(log) == a.endTime)
    && (a.startTime != 0 ==> exists e <- log :: Begins(e, a))
    && (a.startTime != 0 ==> EndTold(a, log))
  }

  // A settled auction's settlement is logged, and any logged for the current auction names its
  // winner and amount.
  ghost predicate SettlementLogged(a: Auction, log: seq<Event>, nextId: nat) {
    && (forall e <- log :: e.AuctionSettled? ==> e.nounId < nextId)
    && (a.startTime != 0 ==>
          ((exists e <- log :: e.AuctionSettled? && e.nounId == a.nounId) <==> a.settled))
    && (forall e <- log :: a.startTime != 0 && e.AuctionSettled? && e.nounId == a.nounId ==>
          e.winner == a.bidder && e.amount == a.amount)
  }

  ghost predicate Logged(w: World) {
    && BidsLogged(w.house.auction, w.net.log, w.net.token.nextId)
    && EndsLogged(w.house.auction, w.net.log, w.net.token.nextId)
    && SettlementLogged(w.house.auction, w.net.log, w.net.token.nextId)
  }

  predicate Quiet(e: Event) {
    !e.AuctionBid? && !e.AuctionExtended? && !e.AuctionCreated? && !e.AuctionSettled?
  }

  lemma {:induction false} LoggedEndKept(log: seq<Event>, more: seq<Event>)
    requires forall e <- more :: !GivesEnd(e)
    ensures LoggedEnd(log + more) == LoggedEnd(log)
  {
    if more == [] {
      assert log + more == log;
    } else {
      var k := |more| - 1;
      LoggedEndKept(log, more[..k]);
      assert (log + more)[..|log| + k] == log + more[..k];
    }
  }

  lemma LoggedEndSet(log: seq<Event>, e: Event)
    requires GivesEnd(e)
    ensures LoggedEnd(log + [e]) == e.endTime
  {
  }

  // Events that are no bids, extensions, creations or settlements.
  lemma QuietLogged(a: Auction, log: seq<Event>, quiet: seq<Event>, nextId: nat, nextId': nat)
    requires BidsLogged(a, log, nextId) && EndsLogged(a, log, nextId) && SettlementLogged(a, log, nextId)
    requires nextId' >= nextId && forall e <- quiet :: Quiet(e)
    ensures BidsLogged(a, log + quiet, nextId') && EndsLogged(a, log + quiet, nextId') && SettlementLogged(a, log + quiet, nextId')
  {
    LoggedEndKept(log, quiet);
    hide LoggedEnd;
    var all := log + quiet;
    assert forall e :: e in all <==> e in log || e in quiet;
  }

  lemma LoggedElsewhere(w: World, w': World, quiet: seq<Event>)
    requires Logged(w) && w'.net.log == w.net.log + quiet && w'.net.token.nextId >= w.net.token.nextId
    requires forall e <- quiet :: Quiet(e)
    requires w'.house.auction == w.house.auction
    ensures Logged(w')
  {
    hide BidsLogged, EndsLogged, SettlementLogged;
    QuietLogged(w.house.auction, w.net.log, quiet, w.net.token.nextId, w'.net.token.nextId);
  }

  // A bid and, when it extended the auction, the extension after it.
  function BidNews(a: Auction, extended: bool): seq<Event> {
    [AuctionBid(a.nounId, a.bidder, a.amount, extended)] + if extended then [AuctionExtended(a.nounId, a.endTime)] else []
  }

  lemma NewBidLogged(a: Auction, a': Auction, log: seq<Event>, nextId: nat, extended: bool)
    requires BidsLogged(a, log, nextId) && a.startTime != 0 && a.nounId < nextId
    requires a'.nounId == a.nounId && a'.bidder != ZERO && a'.amount >= a.amount
    ensures BidsLogged(a', log + BidNews(a', extended), nextId)
  {
    var news, all := BidNews(a', extended), log + BidNews(a', extended);
    assert news[0] in all && BidOn(news[0], a'.nounId);
    assert forall e :: e in all <==> e in log || e in news;
  }

  lemma NewEndLogged(a: Auction, a': Auction, log: seq<Event>, nextId: nat, extended: bool)
    requires EndsLogged(a, log, nextId) && a.startTime != 0 && a.nounId < nextId
    requires a'.nounId == a.nounId && a'.startTime == a.startTime
    requires if extended then a'.endTime >= a.endTime else a'.endTime == a.endTime
    ensures EndsLogged(a', log + BidNews(a', extended), nextId)
  {
    var bid := AuctionBid(a'.nounId, a'.bidder, a'.amount, extended);
    var late := AuctionExtended(a'.nounId, a'.endTime);
    LoggedEndKept(log, [bid]);
    LoggedEndSet(log + [bid], late);
    assert log + [bid] + [late] == log + ([bid] + [late]);
    assert log + ([bid] + []) == log + [bid];
    hide LoggedEnd;
    var news, all := BidNews(a', extended), log + BidNews(a', extended);
    assert forall e :: e in all <==> e in log || e in news;
  }

  lemma StillUnsettled(a: Auction, a': Auction, log: seq<Event>, nextId: nat, extended: bool)
    requires SettlementLogged(a, log, nextId) && a.startTime != 0 && !a.settled
    requires a'.nounId == a.nounId && a'.startTime == a.startTime && !a'.settled
    ensures SettlementLogged(a', log + BidNews(a', extended), nextId)
  {
    var news, all := BidNews(a', extended), log + BidNews(a', extended);
    assert forall e :: e in all <==> e in log || e in news;
  }

  lemma CurrentIdExists(w: World)
    requires Sequenced(w) && w.house.auction.startTime != 0
    ensures w.house.auction.nounId < w.net.token.nextId
  {
    var created := CreatedIds(w.net.log);
    assert created[|created| - 1] < w.net.token.nextId;
  }

  lemma BidNewsLogged(w: World, sender: Address, nounId: nat, value: nat, accepts: bool)
    requires Bid(w, sender, nounId, value, accepts).Ok?
    ensures var a, w' := w.house.auction, Bid(w, sender, nounId, value, accepts).value;
            var a' := w'.house.auction; var extended := a.endTime - w.time < w.house.timeBuffer;
            && a' == a.(amount := value, bidder := sender, endTime := a'.endTime)
            && value >= a.amount && w'.net.token == w.net.token
            && (if extended then a'.endTime >= a.endTime else a'.endTime == a.endTime)
            && w'.net.log == w.net.log + BidNews(a', extended)
  {
    hide Times;
    var a, a' := w.house.auction, Bid(w, sender, nounId, value, accepts).value.house.auction;
    var bid, late := AuctionBid(nounId, sender, value, true), AuctionExtended(nounId, a'.endTime);
    assert w.net.log + [bid] + [late] == w.net.log + ([bid] + [late]);
  }

  lemma BidLogged(w: World, sender: Address, nounId: nat, value: nat, accepts: bool)
    requires Logged(w) && Sequenced(w) && AuctionSane(w) && sender != ZERO && Bid(w, sender, nounId, value, accepts).Ok?
    ensures Logged(Bid(w, sender, nounId, value, accepts).value)
  {
    BidFindsAuction(w, sender, nounId, value, accepts);
    CurrentIdExists(w);
    BidNewsLogged(w, sender, nounId, value, accepts);
    hide Bid, BidsLogged, EndsLogged, SettlementLogged, Sequenced, BidNews, AuctionSane;
    var a, w' := w.house.auction, Bid(w, sender, nounId, value, accepts).value;
    var a' := w'.house.auction;
    var extended := a.endTime - w.time < w.house.timeBuffer;
    NewBidLogged(a, a', w.net.log, w.net.token.nextId, extended);
    NewEndLogged(a, a', w.net.log, w.net.token.nextId, extended);
    StillUnsettled(a, a', w.net.log, w.net.token.nextId, extended);
  }

  lemma NewAuctionLogged(a: Auction, a': Auction, log: seq<Event>, minted: seq<Event>, nextId: nat, nextId': nat)
    requires BidsLogged(a, log, nextId) && EndsLogged(a, log, nextId) && SettlementLogged(a, log, nextId)
    requires (forall e <- minted :: Quiet(e)) && a'.nounId >= nextId && nextId' > a'.nounId
    requires a' == Auction(a'.nounId, 0, a'.startTime, a'.endTime, ZERO, false)
    ensures var log' := log + (minted + [AuctionCreated(a'.nounId, a'.startTime, a'.endTime)]);
            BidsLogged(a', log', nextId') && EndsLogged(a', log', nextId') && SettlementLogged(a', log', nextId')
  {
    var created := AuctionCreated(a'.nounId, a'.startTime, a'.endTime);
    var all := log + (minted + [created]);
    assert all == log + minted + [created];
    LoggedEndSet(log + minted, created);
    hide LoggedEnd;
    assert forall e :: e in all <==> e in log || e in minted || e == created;
  }

  lemma FreshId(w: World, reward: Seeding, regular: Seeding)
    requires TokenFine(w) && Create(w, reward, regular).Ok?
    ensures var r := Exec(w.net.token, w.net.block, HOUSE, Mint(reward, regular)); r.Ok? ==> r.value.token.nextId > w.net.token.nextId
  {
    CreateFine(w, reward, regular);
    hide Create, Exec, TokenFine;
  }

  lemma CreateLogged(w: World, reward: Seeding, regular: Seeding)
    requires Logged(w) && Create(w, reward, regular).Ok?
    requires TokenFine(w)
    ensures Logged(Create(w, reward, regular).value)
  {
    hide Exec, TokenFine, BidsLogged, EndsLogged, SettlementLogged, Create;
    FreshId(w, reward, regular);
    CreateParts(w, reward, regular);
    var r, w' := Exec(w.net.token, w.net.block, HOUSE, Mint(reward, regular)), Create(w, reward, regular).value;
    if r.Ok? {
      NewAuctionLogged(w.house.auction, w'.house.auction, w.net.log, r.value.events, w.net.token.nextId, r.value.token.nextId);
    }
  }

  lemma DoneLogged(a: Auction, log: seq<Event>, moved: seq<Event>, nextId: nat)
    requires BidsLogged(a, log, nextId) && EndsLogged(a, log, nextId) && SettlementLogged(a, log, nextId)
    requires (forall e <- moved :: Quiet(e)) && a.startTime != 0 && !a.settled && a.nounId < nextId
    ensures var log' := log + moved + [AuctionSettled(a.nounId, a.bidder, a.amount)]; var a' := a.(settled := true);
            BidsLogged(a', log', nextId) && EndsLogged(a', log', nextId) && SettlementLogged(a', log', nextId)
  {
    var done := AuctionSettled(a.nounId, a.bidder, a.amount);
    QuietLogged(a, log, moved, nextId, nextId);
    var before := log + moved;
    var all := before + [done];
    LoggedEndKept(before, [done]);
    hide LoggedEnd, Quiet;
    assert done in all;
    assert forall e :: e in all <==> e in before || e == done;
  }

  lemma SettleLogged(w: World, accepts: bool)
    requires Logged(w) && TokenFine(w) && Sequenced(w) && Settle(w, accepts).Ok?
    ensures Logged(Settle(w, accepts).value)
  {
    hide Exec, Settle, TokenFine, BidsLogged, EndsLogged, SettlementLogged, Sequenced;
    SettleFine(w, accepts);
    SettleParts(w, accepts);
    CurrentIdExists(w);
    var a := w.house.auction;
    var e := Exec(w.net.token, w.net.block, HOUSE, SettleCall(a)).value;
    var done := AuctionSettled(a.nounId, a.bidder, a.amount);
    DoneLogged(a, w.net.log, e.events, w.net.token.nextId);
    assert w.net.log + e.events + [done] == w.net.log + (e.events + [done]);
  }

  lemma AdvanceLogged(w: World, m: Move)
    requires Invariant(w) && Logged(w)
    ensures Logged(Advance(w, m))
  {
    hide Settle, Create, Exec, Logged, Accounted, Escrowed, Sequenced, TokenFine;
    var w' := Advance(w, m);
    assert w.net.log + [] == w.net.log;
    if Accepted(w, m) {
      match m.action {
        case CreateBid(nounId, value, accepts) => BidLogged(w, m.sender, nounId, value, accepts);
        case SettleAuction(accepts) => SettleLogged(w, accepts);
        case SettleCurrentAndCreateNewAuction(accepts, reward, regular) =>
          SettleLogged(w, accepts);
          SettleFine(w, accepts);
          SettleSequenced(w, accepts);
          CreateLogged(Settle(w, accepts).value, reward, regular);
        case Unpause(reward, regular) =>
          var open := w.(house := w.house.(paused := false));
          SequencedElsewhere(w, open, []);
          LoggedElsewhere(w, open, []);
          FineElsewhere(w, open);
          if w.house.auction.startTime == 0 || w.house.auction.settled {
            CreateLogged(open, reward, regular);
          }
        case OnToken(call) =>
          var e := Exec(w.net.token, w.net.block, m.sender, call).value;
          TokenEvents(w.net.token, w.net.block, m.sender, call);
          OutsideFine(w, m.sender, call);
          LoggedElsewhere(w, w', e.events);
        case _ => LoggedElsewhere(w, w', []);
      }
    } else {
      LoggedElsewhere(w, w', []);
    }
  }

  lemma {:induction false} LoggedThroughout(w: World, moves: seq<Move>)
    requires Initial(w)
    ensures Logged(Play(w, moves))
  {
    if moves != [] {
      hide Logged, Invariant, Advance;
      var k := |moves| - 1;
      LoggedThroughout(w, moves[..k]);
      InvariantHolds(w, moves[..k]);
      AdvanceLogged(Play(w, moves[..k]), moves[k]);
    }
  }

  predicate Tells(b: BidEvent, e: Event) {
    e.AuctionBid? && e.nounId == b.nounId && e.sender == b.sender && e.value == b.value && e.extended == b.extended
  }

  // The feed has told of every logged bid on the noun, and of no other on it.
  ghost predicate Complete(feed: seq<BidEvent>, log: seq<Event>, nounId: nat) {
    && (forall e <- log :: BidOn(e, nounId) ==> exists b <- feed :: Tells(b, e))
    && (forall b <- feed :: b.nounId == nounId ==> exists e <- log :: Tells(b, e))
  }

  // Every highest bid on the auction is its leading bidder's.
  ghost predicate LeadsAlone(a: Auction, log: seq<Event>) {
    forall e <- log :: BidOn(e, a.nounId) && e.value == a.amount ==> e.sender == a.bidder
  }

  function Shown(a: Auction, endTime: nat, feed: seq<BidEvent>): Option<Auction> {
    Deliver(SetActive(a.nounId, a.startTime, endTime), feed).activeAuction
  }

  // Some highest bid on the auction is the first delivered under its hash. Bids made in one
  // transaction share a hash, and only the first of them to arrive is kept.
  ghost predicate KeepsHighest(a: Auction, feed: seq<BidEvent>) {
    a.bidder == ZERO || exists b <- Firsts(feed, a.nounId) :: b.value == a.amount
  }

  ghost predicate SentHighest(a: Auction, log: seq<Event>, bidder: Address) {
    if a.bidder == ZERO then bidder == ZERO
    else exists e <- log :: BidOn(e, a.nounId) && e.value == a.amount && e.sender == bidder
  }

  // A kept bid is a logged one, and something is kept when a bid is logged.
  lemma KeptLogged(a: Auction, log: seq<Event>, nextId: nat, feed: seq<BidEvent>)
    requires BidsLogged(a, log, nextId) && a.startTime != 0 && Complete(feed, log, a.nounId)
    ensures forall b <- BidSet(Firsts(feed, a.nounId), a.nounId) ::
              b.value <= a.amount && exists e <- log :: BidOn(e, a.nounId) && e.value == b.value && e.sender == b.sender
    ensures BidSet(Firsts(feed, a.nounId), a.nounId) == {} <==> a.bidder == ZERO
  {
    FirstsDistinct(feed, a.nounId);
    hide DistinctHashes, Firsts;
    var kept := Firsts(feed, a.nounId);
    forall b | b in BidSet(kept, a.nounId)
      ensures b.value <= a.amount && exists e <- log :: BidOn(e, a.nounId) && e.value == b.value && e.sender == b.sender
    {
      var e :| e in log && Tells(b, e);
    }
    if a.bidder != ZERO {
      var e :| e in log && BidOn(e, a.nounId) && e.sender == a.bidder && e.value == a.amount;
      var b :| b in feed && Tells(b, e);
      FirstsCover(feed, a.nounId, b);
      var i :| 0 <= i < |kept| && kept[i].transactionHash == b.transactionHash;
      assert kept[i] in BidSet(kept, a.nounId);
    }
  }

  // The amount shown is a logged bid's, and the house's exactly when a highest bid is kept.
  lemma ShownBid(a: Auction, log: seq<Event>, nextId: nat, feed: seq<BidEvent>, endTime: nat)
    requires BidsLogged(a, log, nextId) && a.startTime != 0 && (a.bidder == ZERO ==> a.amount == 0)
    requires Complete(feed, log, a.nounId)
    ensures var s := Shown(a, endTime, feed);
            && s.Some? && s.value.nounId == a.nounId && s.value.amount <= a.amount
            && (s.value.amount == a.amount <==> KeepsHighest(a, feed))
            && (KeepsHighest(a, feed) ==> SentHighest(a, log, s.value.bidder))
  {
    var start := Auction(a.nounId, 0, a.startTime, endTime, ZERO, false);
    DeliverExact(start, feed);
    KeptLogged(a, log, nextId, feed);
    FirstsDistinct(feed, a.nounId);
    FirstHighestIsHighest(Firsts(feed, a.nounId), a.nounId);
    hide Deliver, FirstHighest, MaxBid, DistinctHashes, Firsts, Complete, BidsLogged;
    var kept := Firsts(feed, a.nounId);
    if a.bidder != ZERO {
      assert FirstHighest(kept, a.nounId).value in kept;
      assert forall b <- kept :: b in BidSet(kept, a.nounId);
    }
  }

  // Where a hash stands for one bid a highest bid is kept.
  lemma HighestKept(a: Auction, log: seq<Event>, nextId: nat, feed: seq<BidEvent>)
    requires BidsLogged(a, log, nextId) && Complete(feed, log, a.nounId) && HashesIdentify(feed)
    ensures KeepsHighest(a, feed)
  {
    FirstsAreAll(feed, a.nounId);
    hide HashesIdentify, Firsts;
    if a.bidder != ZERO {
      var e :| e in log && BidOn(e, a.nounId) && e.sender == a.bidder && e.value == a.amount;
      var b :| b in feed && Tells(b, e);
      assert b in BidSet(feed, a.nounId);
      assert b in Firsts(feed, a.nounId);
    }
  }

  // A feed that tells a log: the position of a bid in the log serves as its hash.
  function FeedOf(log: seq<Event>): seq<BidEvent> {
    if log == [] then []
    else
      var k := |log| - 1;
      FeedOf(log[..k]) + if log[k].AuctionBid? then [BidEvent(log[k].nounId, log[k].sender, log[k].value, log[k].extended, k, 0)] else []
  }

  ghost predicate ToldBy(log: seq<Event>, b: BidEvent) {
    b.transactionHash < |log| && Tells(b, log[b.transactionHash]) && b.timestamp == 0
  }

  lemma {:induction false} FeedOfTells(log: seq<Event>)
    ensures forall b <- FeedOf(log) :: ToldBy(log, b)
    ensures forall k: nat :: k < |log| && log[k].AuctionBid? ==>
              BidEvent(log[k].nounId, log[k].sender, log[k].value, log[k].extended, k, 0) in FeedOf(log)
  {
    if log != [] {
      var k := |log| - 1;
      FeedOfTells(log[..k]);
      assert log == log[..k] + [log[k]];
      forall b | b in FeedOf(log)
        ensures ToldBy(log, b)
      {
        if b in FeedOf(log[..k]) {
          assert ToldBy(log[..k], b);
        }
      }
    }
  }

  lemma FeedOfComplete(log: seq<Event>, nounId: nat)
    ensures HashesIdentify(FeedOf(log)) && Complete(FeedOf(log), log, nounId)
  {
    FeedOfTells(log);
    var feed := FeedOf(log);
    forall i, j | 0 <= i < |feed| && 0 <= j < |feed| && feed[i].transactionHash == feed[j].transactionHash
      ensures feed[i] == feed[j]
    {
      assert ToldBy(log, feed[i]) && ToldBy(log, feed[j]);
    }
    forall e | e in log && BidOn(e, nounId)
      ensures exists b <- feed :: Tells(b, e)
    {
      var k: nat :| k < |log| && log[k] == e;
      assert BidEvent(e.nounId, e.sender, e.value, e.extended, k, 0) in feed;
    }
    forall b | b in feed
      ensures exists e <- log :: Tells(b, e)
    {
      assert ToldBy(log, b);
    }
  }

  // Some complete delivery shows the sender of any bid that nothing in the log exceeds.
  lemma AnyHighestShown(a: Auction, log: seq<Event>, endTime: nat, e: Event) returns (feed: seq<BidEvent>)
    requires e in log && BidOn(e, a.nounId) && forall f <- log :: BidOn(f, a.nounId) ==> f.value <= e.value
    ensures HashesIdentify(feed) && Complete(feed, log, a.nounId)
    ensures Shown(a, endTime, feed).Some? && Shown(a, endTime, feed).value.bidder == e.sender
  {
    var told := FeedOf(log);
    FeedOfComplete(log, a.nounId);
    var b :| b in told && Tells(b, e);
    assert forall x <- BidSet(told, a.nounId) :: x.value <= b.value;
    FrontShown(Auction(a.nounId, 0, a.startTime, endTime, ZERO, false), told, b);
    feed := [b] + told;
    assert forall x :: x in feed <==> x in told;
    hide Deliver, FeedOf, HashesIdentify, BidSet;
  }

  ghost predicate ShowsBidder(a: Auction, log: seq<Event>, endTime: nat, feed: seq<BidEvent>) {
    Complete(feed, log, a.nounId) && KeepsHighest(a, feed) ==>
      Shown(a, endTime, feed).Some? && Shown(a, endTime, feed).value.bidder == a.bidder
  }

  // Once every bid of the current auction has arrived, in any order and any number of times, the
  // web application shows no more than the house's amount, and just that amount exactly when a
  // highest bid is the first delivered under its hash, as it is when no two bids share a hash.
  lemma SliceMatchesHouse(w: World, moves: seq<Move>, feed: seq<BidEvent>, endTime: nat)
    requires Initial(w)
    requires var w' := Play(w, moves); w'.house.auction.startTime != 0 && Complete(feed, w'.net.log, w'.house.auction.nounId)
    ensures var a := Play(w, moves).house.auction; var s := Shown(a, endTime, feed);
            && s.Some? && s.value.nounId == a.nounId && s.value.amount <= a.amount
            && (s.value.amount == a.amount <==> KeepsHighest(a, feed))
            && (HashesIdentify(feed) ==> KeepsHighest(a, feed))
            && (KeepsHighest(a, feed) && LeadsAlone(a, Play(w, moves).net.log) ==> s.value.bidder == a.bidder)
  {
    LoggedThroughout(w, moves);
    InvariantHolds(w, moves);
    var w' := Play(w, moves);
    hide Play, Sequenced, TokenFine, Accounted, Escrowed, EndsLogged, SettlementLogged, KeepsHighest, HashesIdentify, Complete, Shown, BidsLogged;
    ShownBid(w'.house.auction, w'.net.log, w'.net.token.nextId, feed, endTime);
    if HashesIdentify(feed) {
      HighestKept(w'.house.auction, w'.net.log, w'.net.token.nextId, feed);
    }
  }

  // Such a feed is sure to show the house's bidder too exactly when every highest bid is by that
  // bidder; otherwise even one in which no two bids share a hash may fail to.
  lemma BidderShownExact(w: World, moves: seq<Move>, endTime: nat)
    requires Initial(w) && Play(w, moves).house.auction.startTime != 0
    ensures var w' := Play(w, moves); var a := w'.house.auction;
            && ((forall feed :: ShowsBidder(a, w'.net.log, endTime, feed)) <==> LeadsAlone(a, w'.net.log))
            && (LeadsAlone(a, w'.net.log) || exists feed :: HashesIdentify(feed) && !ShowsBidder(a, w'.net.log, endTime, feed))
  {
    LoggedThroughout(w, moves);
    var w' := Play(w, moves);
    var a, log := w'.house.auction, w'.net.log;
    assert BidsLogged(a, log, w'.net.token.nextId);
    hide Shown, Complete, HashesIdentify, Logged, KeepsHighest;
    if LeadsAlone(a, log) {
      forall feed
        ensures ShowsBidder(a, log, endTime, feed)
      {
        if Complete(feed, log, a.nounId) && KeepsHighest(a, feed) {
          SliceMatchesHouse(w, moves, feed, endTime);
        }
      }
    } else {
      hide Play;
      var e :| e in log && BidOn(e, a.nounId) && e.value == a.amount && e.sender != a.bidder;
      var feed := AnyHighestShown(a, log, endTime, e);
      HighestKept(a, log, w'.net.token.nextId, feed);
      assert HashesIdentify(feed) && !ShowsBidder(a, log, endTime, feed);
    }
  }

  // ----- Bids, extensions and settlements together

  // The feed has told every bid on the noun, and nothing of it that is not logged.
  ghost predicate MixedComplete(feed: seq<Message>, log: seq<Event>, nounId: nat) {
    && Complete(BidsOf(feed), log, nounId)
    && (forall m <- feed :: m.ExtensionArrived? && m.nounId == nounId ==> AuctionExtended(nounId, m.endTime) in log)
    && (forall m <- feed :: Closes(m, nounId) ==> AuctionSettled(nounId, m.winner, m.amount) in log)
  }

  lemma {:induction false} LastEndBounded(start: Auction, feed: seq<Message>, most: nat)
    requires start.endTime <= most
    requires forall m <- feed :: m.ExtensionArrived? && m.nounId == start.nounId ==> m.endTime <= most
    ensures LastEnd(start, feed) <= most
  {
    if feed != [] {
      LastEndBounded(start, feed[..|feed| - 1], most);
    }
  }

  lemma {:induction false} MixedPrice(a: Auction, log: seq<Event>, nextId: nat, feed: seq<Message>, start: Auction)
    requires BidsLogged(a, log, nextId) && SettlementLogged(a, log, nextId)
    requires a.startTime != 0 && (a.bidder == ZERO ==> a.amount == 0) && MixedComplete(feed, log, a.nounId)
    requires start == Auction(a.nounId, 0, a.startTime, start.endTime, ZERO, false)
    ensures var t := ReceiveAll(State(Some(start), []), feed).activeAuction;
            && t.Some? && t.value.amount <= a.amount
            && (t.value.amount == a.amount <==> Closing(feed, a.nounId).Some? || KeepsHighest(a, BidsOf(feed)))
            && (Closing(feed, a.nounId).Some? || (KeepsHighest(a, BidsOf(feed)) && LeadsAlone(a, log)) ==> t.value.bidder == a.bidder)
  {
    var s := ReceiveAll(State(Some(start), []), feed);
    ReceiveExact(start, feed);
    ClosingFound(feed, a.nounId);
    DeliverExact(start, BidsOf(feed));
    ShownBid(a, log, nextId, BidsOf(feed), start.endTime);
    hide Deliver, ReceiveAll, BidsOf, LastEnd, FirstHighest, MaxBid, DistinctHashes, HashesIdentify, Complete, BidSet, BidsLogged, KeepsHighest, Closing, Firsts;
    if Closing(feed, a.nounId).Some? {
      var m := Closing(feed, a.nounId).value;
      assert AuctionSettled(a.nounId, m.winner, m.amount) in log;
    } else {
      var shown := Shown(a, start.endTime, BidsOf(feed)).value;
      assert s.activeAuction.value.amount == shown.amount && s.activeAuction.value.bidder == shown.bidder;
    }
  }

  // Whatever the order of bids, extensions and settlements: with every bid delivered the price is
  // at most the house's, and the house's exactly when it comes from a settlement or a highest bid is
  // the first delivered under its hash; the end is never later than the house's, and equal exactly
  // when the last extension delivered gives the end the last logged one does; and the auction is
  // settled as in the house exactly when a settlement has come if there was one.
  lemma MixedFeedExact(w: World, moves: seq<Move>, feed: seq<Message>, endTime: nat)
    requires Initial(w)
    requires var w' := Play(w, moves); var a := w'.house.auction;
             && a.startTime != 0 && AuctionCreated(a.nounId, a.startTime, endTime) in w'.net.log
             && MixedComplete(feed, w'.net.log, a.nounId)
    ensures var w' := Play(w, moves); var a := w'.house.auction; var start := SetActive(a.nounId, a.startTime, endTime);
            var t := ReceiveAll(start, feed).activeAuction;
            && t.Some? && t.value.nounId == a.nounId && t.value.startTime == a.startTime
            && t.value.amount <= a.amount
            && (t.value.amount == a.amount <==> Closing(feed, a.nounId).Some? || KeepsHighest(a, BidsOf(feed)))
            && (Closing(feed, a.nounId).Some? || (KeepsHighest(a, BidsOf(feed)) && LeadsAlone(a, w'.net.log)) ==> t.value.bidder == a.bidder)
            && t.value.endTime <= a.endTime
            && (t.value.endTime == a.endTime <==> LastEnd(start.activeAuction.value, feed) == LoggedEnd(w'.net.log))
            && (t.value.settled == a.settled <==> (a.settled ==> SettledIn(feed, a.nounId)))
  {
    LoggedThroughout(w, moves);
    InvariantHolds(w, moves);
    var w' := Play(w, moves);
    var a, log, nextId := w'.house.auction, w'.net.log, w'.net.token.nextId;
    var start := Auction(a.nounId, 0, a.startTime, endTime, ZERO, false);
    hide Play, Sequenced, TokenFine, Accounted, Escrowed, BidsLogged, Closing, KeepsHighest;
    MixedPrice(a, log, nextId, feed, start);
    MixedSettled(a, log, nextId, feed);
    MixedEnds(a, log, nextId, feed, start);
    ReceiveExact(start, feed);
    hide ReceiveAll, BidsOf, Deliver, LastEnd, LoggedEnd, MixedComplete, SettledIn, Priced, LeadsAlone, EndsLogged, SettlementLogged;
  }

  lemma MixedSettled(a: Auction, log: seq<Event>, nextId: nat, feed: seq<Message>)
    requires SettlementLogged(a, log, nextId) && a.startTime != 0 && MixedComplete(feed, log, a.nounId)
    ensures SettledIn(feed, a.nounId) ==> a.settled
  {
    hide Complete, BidsOf;
  }

  lemma MixedEnds(a: Auction, log: seq<Event>, nextId: nat, feed: seq<Message>, start: Auction)
    requires EndsLogged(a, log, nextId) && a.startTime != 0 && MixedComplete(feed, log, a.nounId)
    requires start.nounId == a.nounId && AuctionCreated(a.nounId, a.startTime, start.endTime) in log
    ensures LastEnd(start, feed) <= a.endTime == LoggedEnd(log)
  {
    hide Complete, BidsOf, LoggedEnd;
    assert GivesEnd(AuctionCreated(a.nounId, a.startTime, start.endTime));
    forall m | m in feed && m.ExtensionArrived? && m.nounId == start.nounId
      ensures m.endTime <= a.endTime
    {
      assert GivesEnd(AuctionExtended(a.nounId, m.endTime));
    }
    LastEndBounded(start, feed, a.endTime);
  }

  // ----- When every extension is delivered too

  ghost predicate EndsDelivered(feed: seq<Message>, log: seq<Event>, nounId: nat) {
    forall e <- log :: ExtendsOn(e, nounId) ==> ExtensionArrived(nounId, e.endTime) in feed
  }

  // All extensions logged for the noun give one end.
  ghost predicate OneEnd(log: seq<Event>, nounId: nat) {
    forall e, f :: e in log && f in log && ExtendsOn(e, nounId) && ExtendsOn(f, nounId) ==> e.endTime == f.endTime
  }

  ghost predicate ShowsEnd(a: Auction, log: seq<Event>, start: Auction, feed: seq<Message>) {
    MixedComplete(feed, log, a.nounId) && EndsDelivered(feed, log, a.nounId) ==>
      var t := ReceiveAll(State(Some(start), []), feed).activeAuction;
      t.Some? && t.value.endTime == a.endTime
  }

  // The last end is the first one, or was delivered.
  lemma {:induction false} LastEndFrom(start: Auction, feed: seq<Message>)
    ensures || ExtensionArrived(start.nounId, LastEnd(start, feed)) in feed
            || (LastEnd(start, feed) == start.endTime && forall m <- feed :: !(m.ExtensionArrived? && m.nounId == start.nounId))
  {
    if feed != [] {
      var k := |feed| - 1;
      LastEndFrom(start, feed[..k]);
      assert feed == feed[..k] + [feed[k]];
    }
  }

  lemma OneEndShown(a: Auction, log: seq<Event>, nextId: nat, feed: seq<Message>, start: Auction)
    requires EndsLogged(a, log, nextId) && a.startTime != 0 && OneEnd(log, a.nounId)
    requires MixedComplete(feed, log, a.nounId) && EndsDelivered(feed, log, a.nounId)
    requires start.nounId == a.nounId && AuctionCreated(a.nounId, a.startTime, start.endTime) in log
    ensures LastEnd(start, feed) == a.endTime
  {
    LastEndFrom(start, feed);
    hide LastEnd, Complete, BidsOf, LoggedEnd;
    var told, created := AuctionExtended(a.nounId, a.endTime), AuctionCreated(a.nounId, a.startTime, start.endTime);
    var last := AuctionExtended(a.nounId, LastEnd(start, feed));
    assert GivesEnd(created);
    if told in log {
      assert ExtendsOn(told, a.nounId);
      assert ExtensionArrived(a.nounId, a.endTime) in feed;
      assert last in log && ExtendsOn(last, a.nounId);
    } else if last in log {
      assert GivesEnd(last);
    }
  }

  // A feed that tells every bid and every extension of a log.
  function MessagesOf(log: seq<Event>): seq<Message> {
    if log == [] then []
    else
      var k := |log| - 1;
      var e := log[k];
      MessagesOf(log[..k])
      + if e.AuctionBid? then [BidArrived(BidEvent(e.nounId, e.sender, e.value, e.extended, k, 0))]
        else if e.AuctionExtended? then [ExtensionArrived(e.nounId, e.endTime)]
        else []
  }

  lemma {:induction false} MessagesTell(log: seq<Event>)
    ensures BidsOf(MessagesOf(log)) == FeedOf(log)
    ensures forall m <- MessagesOf(log) :: !m.SettlementArrived? && (m.ExtensionArrived? ==> AuctionExtended(m.nounId, m.endTime) in log)
    ensures forall e <- log :: e.AuctionExtended? ==> ExtensionArrived(e.nounId, e.endTime) in MessagesOf(log)
  {
    if log == [] {
      assert BidsOf([]) == [];
    } else {
      var k := |log| - 1;
      MessagesTell(log[..k]);
      assert log == log[..k] + [log[k]];
      var before := MessagesOf(log[..k]);
      if log[k].AuctionBid? {
        var bid := BidEvent(log[k].nounId, log[k].sender, log[k].value, log[k].extended, k, 0);
        assert (before + [BidArrived(bid)])[..|before|] == before;
      } else if log[k].AuctionExtended? {
        assert (before + [ExtensionArrived(log[k].nounId, log[k].endTime)])[..|before|] == before;
      } else {
        assert before + [] == before;
      }
    }
  }

  // Some complete delivery ends with any extension logged for the noun.
  lemma AnyEndShown(a: Auction, log: seq<Event>, start: Auction, e: Event) returns (feed: seq<Message>)
    requires start.nounId == a.nounId && e in log && ExtendsOn(e, a.nounId)
    ensures MixedComplete(feed, log, a.nounId) && EndsDelivered(feed, log, a.nounId)
    ensures LastEnd(start, feed) == e.endTime
  {
    var told, late := MessagesOf(log), ExtensionArrived(a.nounId, e.endTime);
    MessagesTell(log);
    FeedOfComplete(log, a.nounId);
    FeedSnoc(start, told, late);
    feed := told + [late];
    assert BidsOf(told) + [] == BidsOf(told);
    assert forall m :: m in feed <==> m in told || m == late;
    hide MessagesOf, BidsOf, FeedOf, LastEnd, Complete, HashesIdentify;
  }

  lemma EndIsLast(start: Auction, feed: seq<Message>)
    ensures var t := ReceiveAll(State(Some(start), []), feed).activeAuction; t.Some? && t.value.endTime == LastEnd(start, feed)
  {
    ReceiveExact(start, feed);
    hide ReceiveAll, LastEnd, Closing, SettledIn, Deliver;
  }

  lemma ShowsEndExact(a: Auction, log: seq<Event>, nextId: nat, start: Auction)
    requires EndsLogged(a, log, nextId) && a.startTime != 0
    requires start.nounId == a.nounId && AuctionCreated(a.nounId, a.startTime, start.endTime) in log
    ensures (forall feed :: ShowsEnd(a, log, start, feed)) <==> OneEnd(log, a.nounId)
  {
    hide EndsLogged, MixedComplete, EndsDelivered, ReceiveAll, LastEnd, LoggedEnd;
    if OneEnd(log, a.nounId) {
      forall feed
        ensures ShowsEnd(a, log, start, feed)
      {
        EndIsLast(start, feed);
        if MixedComplete(feed, log, a.nounId) && EndsDelivered(feed, log, a.nounId) {
          OneEndShown(a, log, nextId, feed, start);
        }
      }
    }
    if forall feed :: ShowsEnd(a, log, start, feed) {
      forall e | e in log && ExtendsOn(e, a.nounId)
        ensures e.endTime == a.endTime
      {
        var feed := AnyEndShown(a, log, start, e);
        assert ShowsEnd(a, log, start, feed);
        EndIsLast(start, feed);
      }
    }
  }

  // Every feed that also delivers every extension logged ends with the house's end, whatever the
  // order, exactly when all extensions logged for the noun give one end.
  lemma EndShownExact(w: World, moves: seq<Move>, endTime: nat)
    requires Initial(w)
    requires var w' := Play(w, moves); var a := w'.house.auction;
             a.startTime != 0 && AuctionCreated(a.nounId, a.startTime, endTime) in w'.net.log
    ensures var w' := Play(w, moves); var a := w'.house.auction; var start := SetActive(a.nounId, a.startTime, endTime);
            (forall feed :: ShowsEnd(a, w'.net.log, start.activeAuction.value, feed)) <==> OneEnd(w'.net.log, a.nounId)
  {
    hide Play, ShowsEnd, OneEnd;
    LoggedThroughout(w, moves);
    var w' := Play(w, moves);
    var start := Auction(w'.house.auction.nounId, 0, w'.house.auction.startTime, endTime, ZERO, false);
    assert SetActive(w'.house.auction.nounId, w'.house.auction.startTime, endTime).activeAuction.value == start;
    ShowsEndExact(w'.house.auction, w'.net.log, w'.net.token.nextId, start);
  }
}
