// The web application's replica of the current auction, fed by a websocket that may repeat or
// reorder bid events: packages/nouns-webapp/src/state/slices/auction.ts.
module AuctionSlice {
  import opened Wrappers
  import opened Chain
  import opened Market

  datatype BidEvent = BidEvent(nounId: nat, sender: Address, value: nat, extended: bool, transactionHash: nat, timestamp: nat)

  // The newest bid comes first. A bidder of zero stands for the empty string of a new auction.
  datatype State = State(activeAuction: Option<Auction>, bids: seq<BidEvent>)

  // reduce: a later bid in the list replaces the one held unless the one held is greater.
  function MaxBid(bids: seq<BidEvent>): BidEvent
    requires bids != []
  {
    var k := |bids| - 1;
    if k == 0 then bids[0]
    else
      var prev := MaxBid(bids[..k]);
      if prev.value > bids[k].value then prev else bids[k]
  }

  predicate ContainsBid(bids: seq<BidEvent>, bid: BidEvent) {
    exists i :: 0 <= i < |bids| && bids[i].transactionHash == bid.transactionHash
  }

  predicate ForActive(s: State, nounId: nat) {
    s.activeAuction.Some? && s.activeAuction.value.nounId == nounId
  }

  function SetActive(nounId: nat, startTime: nat, endTime: nat): State {
    State(Some(Auction(nounId, 0, startTime, endTime, ZERO, false)), [])
  }

  function Append(s: State, bid: BidEvent): State {
    if !ForActive(s, bid.nounId) || ContainsBid(s.bids, bid) then s
    else
      var bids := [bid] + s.bids;
      State(Some(s.activeAuction.value.(amount := MaxBid(bids).value, bidder := MaxBid(bids).sender)), bids)
  }

  function Extend(s: State, nounId: nat, endTime: nat): State {
    if ForActive(s, nounId) then s.(activeAuction := Some(s.activeAuction.value.(endTime := endTime))) else s
  }

  function Close(s: State, nounId: nat, winner: Address, amount: nat): State {
    if ForActive(s, nounId)
    then s.(activeAuction := Some(s.activeAuction.value.(settled := true, bidder := winner, amount := amount)))
    else s
  }

  function Deliver(s: State, feed: seq<BidEvent>): State {
    if feed == [] then s else Append(Deliver(s, feed[..|feed| - 1]), feed[|feed| - 1])
  }

  // The reducers, assigning to the store's state.
  class Slice {
    var activeAuction: Option<Auction>
    var bids: seq<BidEvent>

    function View(): State
      reads this
    {
      State(activeAuction, bids)
    }

    constructor ()
      ensures View() == State(None, [])
    {
      activeAuction, bids := None, [];
    }

    method SetActiveAuction(nounId: nat, startTime: nat, endTime: nat)
      modifies this
      ensures View() == SetActive(nounId, startTime, endTime)
    {
      activeAuction := Some(Auction(nounId, 0, startTime, endTime, ZERO, false));
      bids := [];
    }

    method SetFullAuction(auction: Auction)
      modifies `activeAuction
      ensures View() == old(View()).(activeAuction := Some(auction))
    {
      activeAuction := Some(auction);
    }

    method AppendBid(bid: BidEvent)
      modifies this
      ensures View() == Append(old(View()), bid)
    {
      if activeAuction.None? || activeAuction.value.nounId != bid.nounId {
        return;
      }
      if ContainsBid(bids, bid) {
        return;
      }
      bids := [bid] + bids;
      var maxBid := MaxBid(bids);
      activeAuction := Some(activeAuction.value.(amount := maxBid.value));
      activeAuction := Some(activeAuction.value.(bidder := maxBid.sender));
    }

    method SetAuctionSettled(nounId: nat, winner: Address, amount: nat)
      modifies `activeAuction
      ensures View() == Close(old(View()), nounId, winner, amount)
    {
      if activeAuction.Some? && activeAuction.value.nounId == nounId {
        activeAuction := Some(activeAuction.value.(settled := true, bidder := winner, amount := amount));
      }
    }

    method SetAuctionExtended(nounId: nat, endTime: nat)
      modifies `activeAuction
      ensures View() == Extend(old(View()), nounId, endTime)
    {
      if activeAuction.Some? && activeAuction.value.nounId == nounId {
        activeAuction := Some(activeAuction.value.(endTime := endTime));
      }
    }
  }

  // ----- The state after any feed

  // Two events with one hash are one event.
  ghost predicate HashesIdentify(feed: seq<BidEvent>) {
    forall i, j :: 0 <= i < |feed| && 0 <= j < |feed| && feed[i].transactionHash == feed[j].transactionHash ==> feed[i] == feed[j]
  }

  ghost function BidSet(bids: seq<BidEvent>, nounId: nat): set<BidEvent> {
    set e | e in bids && e.nounId == nounId
  }

  ghost predicate DistinctHashes(bids: seq<BidEvent>) {
    forall i, j :: 0 <= i < j < |bids| ==> bids[i].transactionHash != bids[j].transactionHash
  }

  // The first bid on the noun in delivery order that no bid on the noun exceeds.
  function FirstHighest(feed: seq<BidEvent>, nounId: nat): Option<BidEvent> {
    if feed == [] then None
    else
      var k := |feed| - 1;
      var before := FirstHighest(feed[..k], nounId);
      if feed[k].nounId != nounId then before
      else if before.Some? && before.value.value >= feed[k].value then before
      else Some(feed[k])
  }

  lemma {:induction false} FirstHighestIsHighest(feed: seq<BidEvent>, nounId: nat)
    ensures FirstHighest(feed, nounId).Some? <==> BidSet(feed, nounId) != {}
    ensures FirstHighest(feed, nounId).Some? ==>
              FirstHighest(feed, nounId).value in BidSet(feed, nounId)
              && forall e <- BidSet(feed, nounId) :: e.value <= FirstHighest(feed, nounId).value.value
  {
    if feed != [] {
      var k := |feed| - 1;
      FirstHighestIsHighest(feed[..k], nounId);
      assert BidSet(feed, nounId) == BidSet(feed[..k], nounId) + if feed[k].nounId == nounId then {feed[k]} else {} by {
        assert feed == feed[..k] + [feed[k]];
      }
    }
  }

  // A new first bid takes over from the rest only when it is greater than all of them.
  lemma {:induction false} MaxBidCons(bid: BidEvent, bids: seq<BidEvent>)
    requires bids != []
    ensures MaxBid([bid] + bids) == if bid.value > MaxBid(bids).value then bid else MaxBid(bids)
  {
    var k := |bids| - 1;
    var all := [bid] + bids;
    assert all[..|all| - 1] == [bid] + bids[..k];
    if k == 0 {
      assert MaxBid([bid] + bids[..0]) == bid;
    } else {
      MaxBidCons(bid, bids[..k]);
    }
  }

  ghost predicate Replicates(s: State, start: Auction, feed: seq<BidEvent>) {
    && DistinctHashes(s.bids)
    && BidSet(feed, start.nounId) == (set e | e in s.bids)
    && (match FirstHighest(feed, start.nounId)
        case None => s == State(Some(start), [])
        case Some(e) => s.bids != [] && MaxBid(s.bids) == e
                        && s.activeAuction == Some(start.(amount := e.value, bidder := e.sender)))
  }

  lemma FeedGrows(feed: seq<BidEvent>, bid: BidEvent, nounId: nat)
    ensures BidSet(feed + [bid], nounId) == BidSet(feed, nounId) + if bid.nounId == nounId then {bid} else {}
    ensures FirstHighest(feed + [bid], nounId) ==
            var before := FirstHighest(feed, nounId);
            if bid.nounId != nounId || (before.Some? && before.value.value >= bid.value) then before else Some(bid)
  {
    assert (feed + [bid])[..|feed|] == feed;
  }

  lemma NewBidReplicates(s: State, start: Auction, feed: seq<BidEvent>, bid: BidEvent)
    requires Replicates(s, start, feed) && bid.nounId == start.nounId && !ContainsBid(s.bids, bid)
    ensures Replicates(Append(s, bid), start, feed + [bid])
  {
    FeedGrows(feed, bid, start.nounId);
    NewBid(s, bid);
    FirstOfOne(bid);
    assert s.bids == [] ==> [bid] + s.bids == [bid];
    hide FirstHighest, BidSet, ContainsBid, DistinctHashes, MaxBid;
  }

  lemma FirstOfOne(bid: BidEvent)
    ensures MaxBid([bid]) == bid
  {
  }

  lemma NewBid(s: State, bid: BidEvent)
    requires DistinctHashes(s.bids) && !ContainsBid(s.bids, bid)
    ensures DistinctHashes([bid] + s.bids)
    ensures (set e | e in [bid] + s.bids) == (set e | e in s.bids) + {bid}
    ensures s.bids != [] ==> MaxBid([bid] + s.bids) == if bid.value > MaxBid(s.bids).value then bid else MaxBid(s.bids)
  {
    if s.bids != [] {
      MaxBidCons(bid, s.bids);
    }
  }

  // The bids on the noun that are kept: of those with one hash, the first to arrive.
  function Firsts(feed: seq<BidEvent>, nounId: nat): seq<BidEvent> {
    if feed == [] then []
    else
      var k := |feed| - 1;
      var front := Firsts(feed[..k], nounId);
      if feed[k].nounId != nounId || ContainsBid(front, feed[k]) then front else front + [feed[k]]
  }

  lemma {:induction false} FirstsDistinct(feed: seq<BidEvent>, nounId: nat)
    ensures DistinctHashes(Firsts(feed, nounId))
    ensures forall b <- Firsts(feed, nounId) :: b in feed && b.nounId == nounId
  {
    if feed != [] {
      var k := |feed| - 1;
      FirstsDistinct(feed[..k], nounId);
      assert feed == feed[..k] + [feed[k]];
    }
  }

  // Every bid on the noun has its hash kept.
  lemma {:induction false} FirstsCover(feed: seq<BidEvent>, nounId: nat, b: BidEvent)
    requires b in feed && b.nounId == nounId
    ensures ContainsBid(Firsts(feed, nounId), b)
  {
    var k := |feed| - 1;
    var front := Firsts(feed[..k], nounId);
    if b != feed[k] {
      assert b in feed[..k];
      FirstsCover(feed[..k], nounId, b);
      var i :| 0 <= i < |front| && front[i].transactionHash == b.transactionHash;
      assert Firsts(feed, nounId)[i] == front[i];
    } else if !ContainsBid(front, b) {
      assert (front + [b])[|front|] == b;
    }
  }

  lemma DistinctIdentify(bids: seq<BidEvent>)
    requires DistinctHashes(bids)
    ensures HashesIdentify(bids)
  {
  }

  // Where a hash stands for one bid only, all bids are kept.
  lemma FirstsAreAll(feed: seq<BidEvent>, nounId: nat)
    requires HashesIdentify(feed)
    ensures BidSet(Firsts(feed, nounId), nounId) == BidSet(feed, nounId)
  {
    FirstsDistinct(feed, nounId);
    var kept := Firsts(feed, nounId);
    forall b | b in BidSet(feed, nounId)
      ensures b in kept
    {
      FirstsCover(feed, nounId, b);
      var i :| 0 <= i < |kept| && kept[i].transactionHash == b.transactionHash;
      var j :| 0 <= j < |feed| && feed[j] == kept[i];
      var k :| 0 <= k < |feed| && feed[k] == b;
    }
  }

  lemma SameHashes(a: seq<BidEvent>, b: seq<BidEvent>, bid: BidEvent)
    requires forall e :: e in a <==> e in b
    ensures ContainsBid(a, bid) <==> ContainsBid(b, bid)
  {
    if ContainsBid(a, bid) {
      var i :| 0 <= i < |a| && a[i].transactionHash == bid.transactionHash;
      assert a[i] in b;
    }
    if ContainsBid(b, bid) {
      var i :| 0 <= i < |b| && b[i].transactionHash == bid.transactionHash;
      assert b[i] in a;
    }
  }

  // The bids held are those kept.
  lemma HeldAreKept(s: State, start: Auction, kept: seq<BidEvent>, bid: BidEvent)
    requires Replicates(s, start, kept) && forall b <- kept :: b.nounId == start.nounId
    ensures ContainsBid(s.bids, bid) <==> ContainsBid(kept, bid)
    ensures ForActive(s, start.nounId)
  {
    var held := set e | e in s.bids;
    var all := BidSet(kept, start.nounId);
    forall e
      ensures e in s.bids <==> e in kept
    {
      assert e in s.bids <==> e in held;
      assert e in kept <==> e in all;
    }
    SameHashes(s.bids, kept, bid);
    hide MaxBid, FirstHighest, ContainsBid;
  }

  // Whatever a feed holds, in whatever order, what is shown is what the kept bids make of it: each
  // of them once, the highest amount among them, and the bidder who was first to be delivered with it.
  lemma {:induction false} DeliverExact(start: Auction, feed: seq<BidEvent>)
    ensures Replicates(Deliver(State(Some(start), []), feed), start, Firsts(feed, start.nounId))
  {
    if feed != [] {
      var k := |feed| - 1;
      var s, kept, bid := Deliver(State(Some(start), []), feed[..k]), Firsts(feed[..k], start.nounId), feed[k];
      DeliverExact(start, feed[..k]);
      FirstsDistinct(feed[..k], start.nounId);
      HeldAreKept(s, start, kept, bid);
      hide Replicates, ContainsBid;
      if bid.nounId == start.nounId && !ContainsBid(s.bids, bid) {
        NewBidReplicates(s, start, kept, bid);
      }
    }
  }

  ghost predicate HighestFrom(feed: seq<BidEvent>, nounId: nat, sender: Address) {
    exists e :: e in BidSet(feed, nounId) && e.sender == sender && forall f <- BidSet(feed, nounId) :: f.value <= e.value
  }

  // All the highest bids on the noun came from one account.
  ghost predicate OneLeader(feed: seq<BidEvent>, nounId: nat) {
    forall a, b :: HighestFrom(feed, nounId, a) && HighestFrom(feed, nounId, b) ==> a == b
  }

  // Two feeds keep the same bids. Where every hash stands for one bid this is to say that they hold
  // the same bids.
  ghost predicate SameKept(feed: seq<BidEvent>, other: seq<BidEvent>, nounId: nat) {
    BidSet(Firsts(feed, nounId), nounId) == BidSet(Firsts(other, nounId), nounId)
  }

  // Two feeds of the same kept bids lead to the same bids and amount, and to the same bidder when the
  // highest bids have one sender.
  lemma Confluence(start: Auction, feed: seq<BidEvent>, other: seq<BidEvent>)
    requires SameKept(feed, other, start.nounId)
    ensures var s, t := Deliver(State(Some(start), []), feed), Deliver(State(Some(start), []), other);
            && s.activeAuction.Some? && t.activeAuction.Some?
            && multiset(s.bids) == multiset(t.bids)
            && s.activeAuction.value.(bidder := ZERO) == t.activeAuction.value.(bidder := ZERO)
            && (OneLeader(Firsts(feed, start.nounId), start.nounId) ==> s.activeAuction == t.activeAuction)
  {
    var n := start.nounId;
    var kept, kept' := Firsts(feed, n), Firsts(other, n);
    DeliverExact(start, feed);
    DeliverExact(start, other);
    FirstHighestIsHighest(kept, n);
    FirstHighestIsHighest(kept', n);
    hide Deliver, FirstHighest, MaxBid, Firsts;
    var s, t := Deliver(State(Some(start), []), feed), Deliver(State(Some(start), []), other);
    SameElements(s.bids, t.bids);
    if BidSet(kept, n) != {} {
      var e, f := FirstHighest(kept, n).value, FirstHighest(kept', n).value;
      assert HighestFrom(kept, n, e.sender);
      assert HighestFrom(kept, n, f.sender);
    }
  }

  // A bid that no other exceeds, delivered before the rest, is the one shown.
  lemma {:induction false} FrontHighest(x: BidEvent, feed: seq<BidEvent>)
    requires forall e <- BidSet(feed, x.nounId) :: e.value <= x.value
    ensures FirstHighest([x] + feed, x.nounId) == Some(x)
  {
    var all := [x] + feed;
    if feed == [] {
      assert all[..0] == [];
    } else {
      var k := |feed| - 1;
      assert all[..|all| - 1] == [x] + feed[..k];
      assert feed[k].nounId == x.nounId ==> feed[k] in BidSet(feed, x.nounId);
      FrontHighest(x, feed[..k]);
    }
  }

  lemma FrontKeepsSet(x: BidEvent, feed: seq<BidEvent>)
    requires x in feed && HashesIdentify(feed)
    ensures HashesIdentify([x] + feed)
    ensures forall nounId :: BidSet([x] + feed, nounId) == BidSet(feed, nounId)
  {
    var k :| 0 <= k < |feed| && feed[k] == x;
    var all := [x] + feed;
    forall i, j | 0 <= i < |all| && 0 <= j < |all| && all[i].transactionHash == all[j].transactionHash
      ensures all[i] == all[j]
    {
      assert all[i] == feed[if i == 0 then k else i - 1] && all[j] == feed[if j == 0 then k else j - 1];
    }
  }

  ghost predicate SameOutcome(start: Auction, feed: seq<BidEvent>, other: seq<BidEvent>) {
    SameKept(feed, other, start.nounId) ==>
      Deliver(State(Some(start), []), other).activeAuction == Deliver(State(Some(start), []), feed).activeAuction
  }

  // A delivery that puts one of the highest bids first shows its sender.
  lemma FrontShown(start: Auction, feed: seq<BidEvent>, x: BidEvent)
    requires HashesIdentify(feed) && x in BidSet(feed, start.nounId) && forall e <- BidSet(feed, start.nounId) :: e.value <= x.value
    ensures HashesIdentify([x] + feed) && BidSet([x] + feed, start.nounId) == BidSet(feed, start.nounId)
    ensures Deliver(State(Some(start), []), [x] + feed).activeAuction == Some(start.(amount := x.value, bidder := x.sender))
  {
    FrontKeepsSet(x, feed);
    FirstsAreAll([x] + feed, start.nounId);
    FrontKept(x, feed);
    var kept := Firsts([x] + feed, start.nounId);
    assert kept == [x] + kept[1..];
    assert forall e <- BidSet(kept[1..], start.nounId) :: e in BidSet(kept, start.nounId);
    FrontHighest(x, kept[1..]);
    DeliverExact(start, [x] + feed);
    hide Deliver, HashesIdentify, BidSet, DistinctHashes, FirstHighest, Firsts;
  }

  lemma {:induction false} FrontKept(x: BidEvent, feed: seq<BidEvent>)
    ensures var kept := Firsts([x] + feed, x.nounId); kept != [] && kept[0] == x
  {
    var all := [x] + feed;
    if feed == [] {
      assert all[..0] == [];
    } else {
      assert all[..|all| - 1] == [x] + feed[..|feed| - 1];
      FrontKept(x, feed[..|feed| - 1]);
    }
  }

  // A delivery of the kept bids alone that puts one of the highest first.
  lemma FrontFeed(start: Auction, feed: seq<BidEvent>, x: BidEvent) returns (other: seq<BidEvent>)
    requires var kept := BidSet(Firsts(feed, start.nounId), start.nounId); x in kept && forall f <- kept :: f.value <= x.value
    ensures SameKept(feed, other, start.nounId)
    ensures Deliver(State(Some(start), []), other).activeAuction == Some(start.(amount := x.value, bidder := x.sender))
  {
    var n, kept := start.nounId, Firsts(feed, start.nounId);
    FirstsDistinct(feed, n);
    DistinctIdentify(kept);
    hide Deliver, HashesIdentify, DistinctHashes, BidSet, Firsts;
    FrontShown(start, kept, x);
    other := [x] + kept;
    FirstsAreAll(other, n);
  }

  lemma FrontOutcome(start: Auction, feed: seq<BidEvent>, x: BidEvent)
    requires forall other :: SameOutcome(start, feed, other)
    requires var kept := BidSet(Firsts(feed, start.nounId), start.nounId); x in kept && forall f <- kept :: f.value <= x.value
    ensures Deliver(State(Some(start), []), feed).activeAuction == Some(start.(amount := x.value, bidder := x.sender))
  {
    var other := FrontFeed(start, feed, x);
    assert SameOutcome(start, feed, other);
    hide Deliver, BidSet, Firsts;
  }

  // All feeds that keep the same bids lead to the same auction exactly when the highest of them have
  // one sender.
  lemma ConfluenceExact(start: Auction, feed: seq<BidEvent>)
    ensures (forall other :: SameOutcome(start, feed, other)) <==> OneLeader(Firsts(feed, start.nounId), start.nounId)
  {
    var n, kept := start.nounId, Firsts(feed, start.nounId);
    hide Deliver, BidSet, Firsts;
    if OneLeader(kept, n) {
      forall other
        ensures SameOutcome(start, feed, other)
      {
        if SameKept(feed, other, n) {
          Confluence(start, feed, other);
        }
      }
    }
    if forall other :: SameOutcome(start, feed, other) {
      forall a, b | HighestFrom(kept, n, a) && HighestFrom(kept, n, b)
        ensures a == b
      {
        var x :| x in BidSet(kept, n) && x.sender == a && forall f <- BidSet(kept, n) :: f.value <= x.value;
        var y :| y in BidSet(kept, n) && y.sender == b && forall f <- BidSet(kept, n) :: f.value <= y.value;
        FrontOutcome(start, feed, x);
        FrontOutcome(start, feed, y);
      }
    }
  }

  lemma {:induction false} SameElements(a: seq<BidEvent>, b: seq<BidEvent>)
    requires DistinctHashes(a) && DistinctHashes(b)
    requires (set e | e in a) == (set e | e in b)
    ensures multiset(a) == multiset(b)
  {
    var elements := set e | e in a;
    forall e
      ensures multiset(a)[e] == multiset(b)[e]
    {
      OnceEach(a, e);
      OnceEach(b, e);
      assert e in a <==> e in elements;
      assert e in b <==> e in elements;
    }
  }

  lemma {:induction false} OnceEach(a: seq<BidEvent>, e: BidEvent)
    requires DistinctHashes(a)
    ensures multiset(a)[e] == if e in a then 1 else 0
  {
    if a != [] {
      var k := |a| - 1;
      OnceEach(a[..k], e);
      assert a == a[..k] + [a[k]];
    }
  }

  // ----- Bids, extensions and settlements in one feed

  datatype Message =
    | BidArrived(bid: BidEvent)
    | ExtensionArrived(nounId: nat, endTime: nat)
    | SettlementArrived(nounId: nat, winner: Address, amount: nat)

  function Receive(s: State, m: Message): State {
    match m
    case BidArrived(bid) => Append(s, bid)
    case ExtensionArrived(nounId, endTime) => Extend(s, nounId, endTime)
    case SettlementArrived(nounId, winner, amount) => Close(s, nounId, winner, amount)
  }

  function ReceiveAll(s: State, feed: seq<Message>): State {
    if feed == [] then s else Receive(ReceiveAll(s, feed[..|feed| - 1]), feed[|feed| - 1])
  }

  function BidsOf(feed: seq<Message>): seq<BidEvent> {
    if feed == [] then []
    else
      var m := feed[|feed| - 1];
      BidsOf(feed[..|feed| - 1]) + if m.BidArrived? then [m.bid] else []
  }

  // The end that the last extension delivered for the auction gives.
  function LastEnd(start: Auction, feed: seq<Message>): nat {
    if feed == [] then start.endTime
    else
      var m := feed[|feed| - 1];
      if m.ExtensionArrived? && m.nounId == start.nounId then m.endTime else LastEnd(start, feed[..|feed| - 1])
  }

  predicate Closes(m: Message, nounId: nat) {
    m.SettlementArrived? && m.nounId == nounId
  }

  ghost predicate SettledIn(feed: seq<Message>, nounId: nat) {
    exists m <- feed :: Closes(m, nounId)
  }

  // The settlement that the price shown comes from: none of the bids kept has arrived after it.
  function Closing(feed: seq<Message>, nounId: nat): Option<Message> {
    if feed == [] then None
    else
      var k := |feed| - 1;
      var m := feed[k];
      if Closes(m, nounId) then Some(m)
      else if m.BidArrived? && m.bid.nounId == nounId && !ContainsBid(Firsts(BidsOf(feed[..k]), nounId), m.bid) then None
      else Closing(feed[..k], nounId)
  }

  lemma {:induction false} ClosingFound(feed: seq<Message>, nounId: nat)
    ensures Closing(feed, nounId).Some? ==> Closing(feed, nounId).value in feed && Closes(Closing(feed, nounId).value, nounId)
  {
    if feed != [] {
      ClosingFound(feed[..|feed| - 1], nounId);
      hide ContainsBid, Firsts, BidsOf, Closes;
    }
  }

  lemma SettledSnoc(feed: seq<Message>, m: Message, nounId: nat)
    ensures SettledIn(feed + [m], nounId) <==> SettledIn(feed, nounId) || Closes(m, nounId)
  {
    hide Closes;
    assert forall x :: x in feed + [m] <==> x in feed || x == m;
  }

  // Price and bidder are a settlement's unless a bid was kept after it, else the highest bid's, and
  // the first ones while nothing has arrived.
  ghost predicate Priced(s: State, start: Auction, feed: seq<Message>) {
    && s.activeAuction.Some?
    && var a, closing := s.activeAuction.value, Closing(feed, start.nounId);
       if closing.Some? && closing.value.SettlementArrived? then a.amount == closing.value.amount && a.bidder == closing.value.winner
       else if s.bids != [] then a.amount == MaxBid(s.bids).value && a.bidder == MaxBid(s.bids).sender
       else a.amount == start.amount && a.bidder == start.bidder
  }

  ghost predicate Followed(s: State, start: Auction, feed: seq<Message>) {
    && Priced(s, start, feed)
    && var a := s.activeAuction.value;
       && s.bids == Deliver(State(Some(start), []), BidsOf(feed)).bids
       && a.nounId == start.nounId && a.startTime == start.startTime
       && a.endTime == LastEnd(start, feed)
       && (a.settled <==> start.settled || SettledIn(feed, start.nounId))
  }

  lemma {:induction false} DeliverKeepsNoun(s: State, feed: seq<BidEvent>)
    requires s.activeAuction.Some?
    ensures Deliver(s, feed).activeAuction.Some? && Deliver(s, feed).activeAuction.value.nounId == s.activeAuction.value.nounId
  {
    if feed != [] {
      DeliverKeepsNoun(s, feed[..|feed| - 1]);
      hide MaxBid, ContainsBid;
    }
  }

  lemma FeedSnoc(start: Auction, feed: seq<Message>, m: Message)
    ensures BidsOf(feed + [m]) == BidsOf(feed) + if m.BidArrived? then [m.bid] else []
    ensures LastEnd(start, feed + [m]) == if m.ExtensionArrived? && m.nounId == start.nounId then m.endTime else LastEnd(start, feed)
    ensures Closing(feed + [m], start.nounId) ==
            if Closes(m, start.nounId) then Some(m)
            else if m.BidArrived? && m.bid.nounId == start.nounId && !ContainsBid(Firsts(BidsOf(feed), start.nounId), m.bid) then None
            else Closing(feed, start.nounId)
  {
    assert (feed + [m])[..|feed|] == feed;
    hide ContainsBid, Firsts;
  }

  // The bids held after a feed are new to the same bids as the kept ones are.
  lemma KnownExact(start: Auction, feed: seq<BidEvent>, bid: BidEvent)
    ensures ContainsBid(Deliver(State(Some(start), []), feed).bids, bid) <==> ContainsBid(Firsts(feed, start.nounId), bid)
  {
    DeliverExact(start, feed);
    FirstsDistinct(feed, start.nounId);
    HeldAreKept(Deliver(State(Some(start), []), feed), start, Firsts(feed, start.nounId), bid);
  }

  lemma BidFollowed(s: State, start: Auction, feed: seq<Message>, bid: BidEvent)
    requires Followed(s, start, feed)
    ensures Followed(Append(s, bid), start, feed + [BidArrived(bid)])
  {
    var m, begun := BidArrived(bid), State(Some(start), []);
    var before := Deliver(begun, BidsOf(feed));
    FeedSnoc(start, feed, m);
    SettledSnoc(feed, m, start.nounId);
    KnownExact(start, BidsOf(feed), bid);
    DeliverKeepsNoun(begun, BidsOf(feed));
    assert (BidsOf(feed) + [bid])[..|BidsOf(feed)|] == BidsOf(feed);
    assert Deliver(begun, BidsOf(feed) + [bid]) == Append(before, bid);
    hide Deliver, MaxBid, ContainsBid, BidsOf, LastEnd, SettledIn, Closing, Firsts;
  }

  lemma ReceiveFollowed(s: State, start: Auction, feed: seq<Message>, m: Message)
    requires Followed(s, start, feed)
    ensures Followed(Receive(s, m), start, feed + [m])
  {
    hide Deliver, MaxBid, ContainsBid, BidsOf, LastEnd, SettledIn, Closing, Append, Firsts;
    if m.BidArrived? {
      hide Followed;
      BidFollowed(s, start, feed, m.bid);
    } else {
      FeedSnoc(start, feed, m);
      SettledSnoc(feed, m, start.nounId);
      assert BidsOf(feed) + [] == BidsOf(feed);
    }
  }

  // Whatever arrives, in whatever order, the bids held are those of the bids alone; the end is the
  // last extension's; the auction is settled once a settlement has come.
  lemma {:induction false} ReceiveExact(start: Auction, feed: seq<Message>)
    ensures Followed(ReceiveAll(State(Some(start), []), feed), start, feed)
  {
    if feed == [] {
      assert BidsOf(feed) == [];
    } else {
      hide Followed, Receive;
      var k := |feed| - 1;
      ReceiveExact(start, feed[..k]);
      ReceiveFollowed(ReceiveAll(State(Some(start), []), feed[..k]), start, feed[..k], feed[k]);
      assert feed == feed[..k] + [feed[k]];
    }
  }
}
