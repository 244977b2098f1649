// Inputs on which the code does not do what one would expect of it; the exact conditions are
// elsewhere: RoundTripExact, SeedOrderExact, SeedExact, VotesExact, OwnerRefusedExact, CustodyExact,
// SettleableExact, TieExact, RunIndexExact, HolderCountExact, SliceMatchesHouse, BidderShownExact,
// MixedFeedExact, EndShownExact.
module Counterexamples {
  import opened Wrappers
  import opened Chain
  import opened Ledger
  import opened Votes
  import opened Token
  import TokenRuns
  import opened Market
  import Custody
  import Settling
  import ImageFormat
  import RoundTrip
  import opened Palette
  import Encoder
  import Seeder
  import AuctionSlice
  import SliceRuns
  import Subgraph
  import Ownership
  import IndexRuns

  // A pixel in row 0 is lost when rows below it are used: top 0 doubles as unset.
  lemma TopRowLost(palette: seq<string>)
    ensures !RoundTrip.RoundTrips([[0, 1, 0], [0, 1, 0], [0, 0, 0]], 3, palette)
  {
    var plane: ImageFormat.Plane := [[0, 1, 0], [0, 1, 0], [0, 0, 0]];
    assert plane[0][1] != 0 && plane[1][1] != 0;
    RoundTrip.RoundTripExact(plane, 3, palette);
  }

  // A palette of one colour gives that colour the index of the transparent one.
  lemma LoneColourClashes()
    ensures var c := Encoder.Seeded(["aa"]);
            !Ordered(c) && c == Colors(["", "aa"], map["" := 0, "aa" := 0])
  {
    Encoder.SeedOrderExact(["aa"]);
    Encoder.SeededOne(["aa"]);
    assert Encoder.Seeded(["aa"]) == Colors(["", "aa"], map["" := 0, "aa" := 0]);
    assert ["aa"][0] != Encoder.TRANSPARENT;
    hide Encoder.Seeded, Ordered;
  }

  // A hash of zero has a seed, but its text is too short to read.
  lemma ShortHashHasNoText(c: Seeder.Counts)
    requires c.background > 0 && c.body > 0 && c.accessory > 0 && c.head > 0 && c.glasses > 0
    ensures Seeder.GenerateSeed(0, c).Some? && Seeder.SeedFromText(0, c) == None
  {
    Seeder.SeedExact(0, c);
    hide Seeder.Pow, Seeder.GenerateSeed, Seeder.SeedFromText;
  }

  // Of two bids with one hash the first is kept.
  lemma KeptOfTwo(x: AuctionSlice.BidEvent, y: AuctionSlice.BidEvent)
    requires x.nounId == y.nounId
    ensures AuctionSlice.Firsts([x, y], x.nounId) == if x.transactionHash == y.transactionHash then [x] else [x, y]
  {
    assert [x, y][..1] == [x] && [x][..0] == [];
    assert AuctionSlice.Firsts([], x.nounId) == [];
    assert AuctionSlice.Firsts([x], x.nounId) == [x];
  }

  lemma FirstOfTied(start: Auction, x: AuctionSlice.BidEvent, y: AuctionSlice.BidEvent)
    requires x.nounId == y.nounId == start.nounId && x.value == y.value && x.transactionHash != y.transactionHash
    ensures AuctionSlice.Deliver(AuctionSlice.State(Some(start), []), [x, y]).activeAuction
         == Some(start.(amount := x.value, bidder := x.sender))
  {
    var feed := [x, y];
    AuctionSlice.DeliverExact(start, feed);
    KeptOfTwo(x, y);
    assert feed[..1] == [x] && feed[..1][..0] == [];
    assert AuctionSlice.FirstHighest([], start.nounId) == None;
    assert AuctionSlice.FirstHighest([x], start.nounId) == Some(x) by { assert [x][..0] == []; }
    assert AuctionSlice.FirstHighest(feed, start.nounId) == Some(x);
    hide AuctionSlice.Deliver, AuctionSlice.Firsts;
  }

  // ----- Votes signed over to nobody

  function TwoMinted(): Net {
    Run(Net(TokenRuns.Deployed(7, 8, 9, map[]), 0, []), [By(7, Mint(Seeded, Seeded))])
  }

  lemma MintedState()
    ensures var t := TwoMinted().token;
            && t.ledger.owners == map[0 := 8, 1 := 7]
            && TwoMinted().block == 0
            && Balance(t.ledger, 7) == 1
            && t.votes.delegates == map[]
            && History(t.votes, 7) == [Checkpoint(0, 1)]
  {
    var n := Net(TokenRuns.Deployed(7, 8, 9, map[]), 0, []);
    var steps := [By(7, Mint(Seeded, Seeded))];
    assert steps[..0] == [];
    assert Run(n, steps) == Next(n, steps[0]);
  }

  lemma SignedAwayVotes(v: Votes)
    requires v.delegates == map[] && History(v, 7) == [Checkpoint(0, 1)]
    ensures var r := SetDelegate(v, 0, 7, ZERO, 1);
            && r.Ok?
            && r.value.delegates == map[7 := ZERO]
            && History(r.value, 7) == [Checkpoint(0, 0)]
  {
    var before := v.(delegates := map[7 := ZERO]);
    assert History(before, 7) == [Checkpoint(0, 1)];
    assert [Checkpoint(0, 1)][0 := Checkpoint(0, 0)] == [Checkpoint(0, 0)];
    assert Write(History(before, 7), 0, 0) == Ok([Checkpoint(0, 0)]);
    assert TakeVotes(before, 0, 7, 1) == Ok(before.(checkpoints := before.checkpoints[7 := [Checkpoint(0, 0)]]));
  }

  // The minter signs its votes over to the zero address: it still counts as its own delegate, but
  // with no votes left its token can no longer be moved.
  lemma SignedAwayTokenIsStuck(to: Address)
    requires to != 7
    ensures var n := Next(TwoMinted(), By(7, DelegateBySig(7, ZERO)));
            && n.token.votes != TwoMinted().token.votes
            && n.token.ledger.owners == map[0 := 8, 1 := 7]
            && !TokenRuns.VotesMatchTokens(n.token)
            && !Exec(n.token, n.block, 7, TransferFrom(7, to, 1)).Ok?
  {
    MintedState();
    var n := TwoMinted();
    hide TwoMinted;
    SignedAwayVotes(n.token.votes);
    hide SetDelegate;
    var n' := Next(n, By(7, DelegateBySig(7, ZERO)));
    assert 1 in DelegatedTo(n'.token.votes, n'.token.ledger.owners, 7);
    assert CurrentVotes(n'.token.votes, 7) == 0;
  }

  // ----- A minter other than the house burns the noun under auction

  lemma FirstMint(t: Token, block: nat)
    requires t == TokenRuns.Deployed(HOUSE, 8, 9, map[]) && block == 0
    ensures var r := Exec(t, block, HOUSE, Mint(Seeded, Seeded));
            && r.Ok?
            && r.value.token.ledger.owners == map[0 := 8, 1 := HOUSE]
            && Balance(r.value.token.ledger, HOUSE) == 1 && Balance(r.value.token.ledger, 8) == 1
            && r.value.token.nextId == 2 && r.value.token.owner == 9 && r.value.token.minter == HOUSE && !r.value.token.minterLocked
            && r.value.token.votes.delegates == map[]
            && History(r.value.token.votes, HOUSE) == [Checkpoint(0, 1)]
  {
  }

  lemma BurnOfOne(t: Token, block: nat)
    requires t.ledger.owners == map[0 := 8, 1 := HOUSE] && Balance(t.ledger, HOUSE) == 1 && block <= 1
    requires t.votes.delegates == map[] && History(t.votes, HOUSE) == [Checkpoint(0, 1)]
    ensures var r := Exec(t, block, t.minter, Burn(1));
            && r.Ok? && r.value.token.ledger.owners == map[0 := 8] && r.value.token.nextId == t.nextId
            && r.value.events == [Transfer(HOUSE, ZERO, 1)]
  {
    assert BeforeTransfer(t.votes, block, HOUSE, ZERO).Ok?;
    hide BeforeTransfer;
    assert map[0 := 8, 1 := HOUSE] - {1} == map[0 := 8];
  }

  function FirstWorld(): World {
    World(Net(TokenRuns.Deployed(HOUSE, 8, 9, map[]), 0, []),
          House(NO_AUCTION, true, 300, 1, 2, 86400, 6, 0, []), 1000)
  }

  lemma PlayTwo(w: World, a: Move, b: Move)
    ensures Play(w, [a, b]) == Advance(Advance(w, a), b)
  {
    hide Advance;
    assert [a, b][..1] == [a] && [a][..0] == [];
    assert Play(w, [a]) == Advance(Play(w, []), a);
  }

  lemma PlayThree(w: World, a: Move, b: Move, c: Move)
    ensures Play(w, [a, b, c]) == Advance(Advance(Advance(w, a), b), c)
  {
    hide Advance;
    assert [a, b, c][..2] == [a, b] && [a, b][..1] == [a] && [a][..0] == [];
    assert Play(w, [a]) == Advance(Play(w, []), a);
    assert Play(w, [a, b]) == Advance(Play(w, [a]), b);
  }

  // ----- Two equal bids, a self-transfer, extensions out of order: runs from the first world

  const OPEN: Move := Do(6, Unpause(Seeded, Seeded))

  lemma Opened()
    ensures var w := Advance(FirstWorld(), OPEN);
            && Initial(FirstWorld()) && Accepted(FirstWorld(), OPEN)
            && w.house == FirstWorld().house.(auction := Auction(1, 0, 1000, 87400, ZERO, false), paused := false)
            && w.time == 1000
            && w.net.token.ledger.owners == map[0 := 8, 1 := HOUSE]
            && Balance(w.net.token.ledger, 8) == 1 && Balance(w.net.token.ledger, HOUSE) == 1
            && w.net.block == 0 && w.net.token.nextId == 2
            && w.net.token.owner == 9 && w.net.token.minter == HOUSE && !w.net.token.minterLocked
            && w.net.token.votes.delegates == map[] && History(w.net.token.votes, HOUSE) == [Checkpoint(0, 1)]
            && w.net.log == [Transfer(ZERO, 9, 0), Transfer(9, 8, 0), Transfer(ZERO, 9, 1), Transfer(9, HOUSE, 1), AuctionCreated(1, 1000, 87400)]
  {
    var w := FirstWorld();
    FirstMint(w.net.token, 0);
    TokenRuns.MintEvents(w.net.token, 0, Seeded, Seeded);
    hide MintBoth;
  }

  // A call on the token that goes through.
  lemma CallOf(w: World, sender: Address, call: Call)
    requires Possible(sender, OnToken(call)) && Exec(w.net.token, w.net.block, sender, call).Ok?
    ensures var e := Exec(w.net.token, w.net.block, sender, call).value;
            && Accepted(w, Do(sender, OnToken(call)))
            && Advance(w, Do(sender, OnToken(call))) == w.(net := w.net.(token := e.token, log := w.net.log + e.events))
  {
    hide Exec, Possible;
  }

  const FOREIGN_BURN: seq<Move> := [OPEN, Do(9, OnToken(SetMinter(5))), Do(5, OnToken(Burn(1)))]

  // Three calls, each allowed to its caller, leave an auction that can never be settled.
  lemma ForeignBurnStrands()
    ensures Initial(FirstWorld())
    ensures Custody.Stranded(Play(FirstWorld(), FOREIGN_BURN), 1)
  {
    Opened();
    var w0, w1 := FirstWorld(), Advance(FirstWorld(), OPEN);
    PlayThree(w0, OPEN, Do(9, OnToken(SetMinter(5))), Do(5, OnToken(Burn(1))));
    hide Advance, FirstWorld, Play;
    CallOf(w1, 9, SetMinter(5));
    var w2 := Advance(w1, Do(9, OnToken(SetMinter(5))));
    BurnOfOne(w2.net.token, 0);
    hide Exec;
    CallOf(w2, 5, Burn(1));
  }

  lemma PlayFour(w: World, a: Move, b: Move, c: Move, d: Move)
    ensures Play(w, [a, b, c, d]) == Advance(Advance(Advance(Advance(w, a), b), c), d)
  {
    hide Advance;
    PlayThree(w, a, b, c);
    assert [a, b, c, d][..3] == [a, b, c];
  }

  lemma WaitOf(w: World, seconds: nat, blocks: nat)
    ensures Advance(w, Wait(seconds, blocks)) == w.(time := w.time + seconds, net := w.net.(block := w.net.block + blocks))
  {
  }

  const LOCKED_OUT: seq<Move> := [OPEN, Do(9, OnToken(SetMinter(5))), Do(9, OnToken(LockMinter)), Wait(86400, 1)]

  // The minter is moved away and locked while nobody has bid: the house keeps the noun, but no
  // continuation settles the auction.
  lemma LockedOut()
    ensures Initial(FirstWorld())
    ensures var w := Play(FirstWorld(), LOCKED_OUT);
            && Custody.Running(w) && w.house.auction.endTime <= w.time && w.net.token.ledger.owners == map[0 := 8, 1 := HOUSE]
            && forall moves :: Settling.OpenAfter(w, moves)
  {
    Opened();
    var w0, w1 := FirstWorld(), Advance(FirstWorld(), OPEN);
    PlayFour(w0, OPEN, LOCKED_OUT[1], LOCKED_OUT[2], LOCKED_OUT[3]);
    hide Advance, FirstWorld, Play;
    CallOf(w1, 9, SetMinter(5));
    var w2 := Advance(w1, LOCKED_OUT[1]);
    CallOf(w2, 9, LockMinter);
    var w3 := Advance(w2, LOCKED_OUT[2]);
    hide Exec;
    WaitOf(w3, 86400, 1);
    hide Settling.SettledBy, Settling.OpenAfter;
    Settling.SettleableExact(w0, LOCKED_OUT);
  }

  const UNSOLD: seq<Move> := [OPEN, Wait(86400, 1), Do(6, Pause), Do(2, SettleAuction(true))]

  lemma UnsoldSettled(w: World)
    requires w.house.paused && w.house.auction == Auction(1, 0, 1000, 87400, ZERO, false) && w.time == 87400 && w.net.block == 1
    requires w.net.token.ledger.owners == map[0 := 8, 1 := HOUSE] && Balance(w.net.token.ledger, HOUSE) == 1 && w.net.token.minter == HOUSE
    requires w.net.token.votes.delegates == map[] && History(w.net.token.votes, HOUSE) == [Checkpoint(0, 1)]
    ensures var w' := Advance(w, Do(2, SettleAuction(true)));
            && w'.net.token.ledger.owners == map[0 := 8]
            && w'.net.log == w.net.log + [Transfer(HOUSE, ZERO, 1), AuctionSettled(1, ZERO, 0)]
  {
    BurnOfOne(w.net.token, 1);
    hide Exec;
    assert w.net.log + [Transfer(HOUSE, ZERO, 1)] + [AuctionSettled(1, ZERO, 0)] == w.net.log + [Transfer(HOUSE, ZERO, 1), AuctionSettled(1, ZERO, 0)];
  }

  lemma UnsoldState()
    ensures Initial(FirstWorld())
    ensures var w := Play(FirstWorld(), UNSOLD);
            && w.net.token.ledger.owners == map[0 := 8]
            && w.net.log == [Transfer(ZERO, 9, 0), Transfer(9, 8, 0), Transfer(ZERO, 9, 1), Transfer(9, HOUSE, 1),
                             AuctionCreated(1, 1000, 87400), Transfer(HOUSE, ZERO, 1), AuctionSettled(1, ZERO, 0)]
  {
    Opened();
    var w0 := FirstWorld();
    PlayFour(w0, OPEN, UNSOLD[1], UNSOLD[2], UNSOLD[3]);
    var w1 := Advance(w0, OPEN);
    var w3 := Advance(Advance(w1, UNSOLD[1]), UNSOLD[2]);
    assert w3 == w1.(time := 87400, net := w1.net.(block := 1), house := w1.house.(paused := true));
    hide Advance, FirstWorld, Play;
    UnsoldSettled(w3);
  }

  // An auction without a bid ends in a burn, and the subgraph then counts a holder too many: the
  // zero address.
  lemma UnsoldRun()
    ensures Initial(FirstWorld())
    ensures var w := Play(FirstWorld(), UNSOLD);
            && IndexRuns.NoSelfTransfer(w.net.log) && IndexRuns.GoesToZero(w.net.log)
            && IndexRuns.Holders(w.net.token.ledger) == {8}
            && Subgraph.GovernanceOf(Subgraph.Replay(w.net.log)).currentTokenHolders == 2
  {
    hide Play, FirstWorld, Subgraph.Replay, Subgraph.GovernanceOf;
    UnsoldState();
    var w := Play(FirstWorld(), UNSOLD);
    assert w.net.log[5] == Transfer(HOUSE, ZERO, 1);
    assert IndexRuns.Holders(w.net.token.ledger) == {8} by {
      assert w.net.token.ledger.owners[0] == 8;
    }
    IndexRuns.IndexMatchesContract(FirstWorld(), UNSOLD);
  }

  lemma BidOf(w: World, sender: Address, value: nat)
    requires sender > HOUSE && w.house.auction.nounId == 1 && w.time < w.house.auction.endTime
    requires w.house.auction.endTime - w.time >= w.house.timeBuffer
    requires w.house.reservePrice <= value && w.house.auction.amount <= 5 <= value && w.house.minBidIncrementPercentage == 2
    requires w.house.auction.bidder != ZERO ==> w.house.balance >= w.house.auction.amount
    ensures var m := Do(sender, CreateBid(1, value, true)); var w' := Advance(w, m);
            && Accepted(w, m)
            && w'.house.auction == w.house.auction.(amount := value, bidder := sender)
            && w'.house.balance + (if w.house.auction.bidder != ZERO then w.house.auction.amount else 0) == w.house.balance + value
            && w'.house.timeBuffer == w.house.timeBuffer && w'.house.reservePrice == w.house.reservePrice
            && w'.house.minBidIncrementPercentage == 2 && w'.time == w.time
            && w'.net.log == w.net.log + [AuctionBid(1, sender, value, false)]
  {
    assert w.net.log + [AuctionBid(1, sender, value, false)] + [] == w.net.log + [AuctionBid(1, sender, value, false)];
  }

  function TwoBids(sender: Address, value: nat): seq<Move> {
    [OPEN, Do(4, CreateBid(1, 5, true)), Do(sender, CreateBid(1, value, true))]
  }

  lemma TwoBidsRun(sender: Address, value: nat)
    requires sender > HOUSE && value >= 5
    ensures var w := Play(FirstWorld(), TwoBids(sender, value));
            && w.house.auction == Auction(1, value, 1000, 87400, sender, false)
            && |w.net.log| == 7 && (forall k :: 0 <= k < 5 ==> !w.net.log[k].AuctionBid?)
            && w.net.log[5] == AuctionBid(1, 4, 5, false) && w.net.log[6] == AuctionBid(1, sender, value, false)
  {
    var w0, first, second := FirstWorld(), Do(4, CreateBid(1, 5, true)), Do(sender, CreateBid(1, value, true));
    Opened();
    PlayThree(w0, OPEN, first, second);
    hide Advance, Play, Accepted, FirstWorld;
    BidOf(Advance(w0, OPEN), 4, 5);
    BidOf(Advance(Advance(w0, OPEN), first), sender, value);
  }

  const TIED: seq<Move> := TwoBids(5, 5)

  // The increment of two percent on a price of 5 rounds to nothing, so the house takes the same
  // bid twice.
  lemma TiedRun()
    ensures var w := Play(FirstWorld(), TIED);
            && w.house.auction == Auction(1, 5, 1000, 87400, 5, false)
            && |w.net.log| == 7 && (forall k :: 0 <= k < 5 ==> !w.net.log[k].AuctionBid?)
            && w.net.log[5] == AuctionBid(1, 4, 5, false) && w.net.log[6] == AuctionBid(1, 5, 5, false)
  {
    hide Play, FirstWorld;
    TwoBidsRun(5, 5);
  }

  const ONE_TRANSACTION: seq<AuctionSlice.BidEvent> :=
    [AuctionSlice.BidEvent(1, 4, 5, false, 1, 0), AuctionSlice.BidEvent(1, 4, 6, false, 1, 0)]

  lemma SharedHashTold(log: seq<Event>)
    requires |log| == 7 && log[5] == AuctionBid(1, 4, 5, false) && log[6] == AuctionBid(1, 4, 6, false)
    requires forall k :: 0 <= k < 5 ==> !log[k].AuctionBid?
    ensures SliceRuns.Complete(ONE_TRANSACTION, log, 1)
  {
    var first, second := ONE_TRANSACTION[0], ONE_TRANSACTION[1];
    assert SliceRuns.Tells(first, log[5]) && SliceRuns.Tells(second, log[6]);
    assert forall b <- ONE_TRANSACTION :: b == first || b == second;
  }

  lemma SharedHashShown()
    ensures AuctionSlice.Firsts(ONE_TRANSACTION, 1) == [ONE_TRANSACTION[0]]
    ensures AuctionSlice.Deliver(AuctionSlice.SetActive(1, 1000, 87400), ONE_TRANSACTION).activeAuction
         == Some(Auction(1, 5, 1000, 87400, 4, false))
  {
    KeptOfTwo(ONE_TRANSACTION[0], ONE_TRANSACTION[1]);
    hide AuctionSlice.Firsts, AuctionSlice.Deliver;
    FirstOfOne(Auction(1, 0, 1000, 87400, ZERO, false), ONE_TRANSACTION, ONE_TRANSACTION[0]);
  }

  // A contract bids 5 and then 6 in one transaction. Told of both bids in order, the replica drops
  // the second for its hash and shows 5.
  lemma SharedHashRun()
    ensures Initial(FirstWorld())
    ensures var w := Play(FirstWorld(), TwoBids(4, 6)); var a := w.house.auction;
            && a.amount == 6 && SliceRuns.Complete(ONE_TRANSACTION, w.net.log, 1)
            && !SliceRuns.KeepsHighest(a, ONE_TRANSACTION)
            && var shown := SliceRuns.Shown(a, 87400, ONE_TRANSACTION); shown.Some? && shown.value.amount == 5
  {
    Opened();
    hide Play, FirstWorld, Advance, AuctionSlice.Firsts, AuctionSlice.Deliver, SliceRuns.Complete;
    TwoBidsRun(4, 6);
    SharedHashTold(Play(FirstWorld(), TwoBids(4, 6)).net.log);
    SharedHashShown();
  }

  lemma FirstOfOne(start: Auction, feed: seq<AuctionSlice.BidEvent>, x: AuctionSlice.BidEvent)
    requires AuctionSlice.Firsts(feed, start.nounId) == [x] && x.nounId == start.nounId
    ensures AuctionSlice.Deliver(AuctionSlice.State(Some(start), []), feed).activeAuction
         == Some(start.(amount := x.value, bidder := x.sender))
  {
    AuctionSlice.DeliverExact(start, feed);
    assert [x][..0] == [];
    assert AuctionSlice.FirstHighest([], start.nounId) == None;
    assert AuctionSlice.FirstHighest([x], start.nounId) == Some(x);
    hide AuctionSlice.Deliver, AuctionSlice.Firsts;
  }

  // So some delivery of all bids does not show the house's bidder.
  lemma TiedNotAlone()
    ensures var w := Play(FirstWorld(), TIED);
            && !SliceRuns.LeadsAlone(w.house.auction, w.net.log)
            && exists feed :: !SliceRuns.ShowsBidder(w.house.auction, w.net.log, 87400, feed)
  {
    TiedRun();
    Opened();
    hide Advance, Play, FirstWorld, SliceRuns.ShowsBidder;
    var w := Play(FirstWorld(), TIED);
    assert w.net.log[5] in w.net.log && SliceRuns.BidOn(w.net.log[5], 1);
    SliceRuns.BidderShownExact(FirstWorld(), TIED, 87400);
  }

  const FIRST_BID: AuctionSlice.BidEvent := AuctionSlice.BidEvent(1, 4, 5, false, 1, 0)
  const SECOND_BID: AuctionSlice.BidEvent := AuctionSlice.BidEvent(1, 5, 5, false, 2, 0)

  // Told of those two bids in either order, the replica shows whichever comes first; told of them
  // in the house's own order, it shows the wrong one.
  lemma TiedBidsDisagree()
    ensures var w := Play(FirstWorld(), TIED); var a := w.house.auction;
            && SliceRuns.Complete([FIRST_BID, SECOND_BID], w.net.log, 1) && SliceRuns.Complete([SECOND_BID, FIRST_BID], w.net.log, 1)
            && var shown, other := SliceRuns.Shown(a, 87400, [FIRST_BID, SECOND_BID]), SliceRuns.Shown(a, 87400, [SECOND_BID, FIRST_BID]);
               shown.Some? && other.Some? && shown.value.bidder == 4 && other.value.bidder == 5 == a.bidder
  {
    TiedRun();
    hide Play, FirstWorld;
    var start := Auction(1, 0, 1000, 87400, ZERO, false);
    FirstOfTied(start, FIRST_BID, SECOND_BID);
    FirstOfTied(start, SECOND_BID, FIRST_BID);
    TiedComplete(Play(FirstWorld(), TIED).net.log, [FIRST_BID, SECOND_BID]);
    TiedComplete(Play(FirstWorld(), TIED).net.log, [SECOND_BID, FIRST_BID]);
    hide AuctionSlice.Deliver, SliceRuns.Complete;
  }

  lemma TiedComplete(log: seq<Event>, feed: seq<AuctionSlice.BidEvent>)
    requires |log| == 7 && log[5] == AuctionBid(1, 4, 5, false) && log[6] == AuctionBid(1, 5, 5, false)
    requires forall k :: 0 <= k < 5 ==> !log[k].AuctionBid?
    requires |feed| == 2 && FIRST_BID in feed && SECOND_BID in feed
    ensures SliceRuns.Complete(feed, log, 1)
  {
    assert SliceRuns.Tells(FIRST_BID, log[5]) && SliceRuns.Tells(SECOND_BID, log[6]);
    assert forall b <- feed :: b == FIRST_BID || b == SECOND_BID;
  }

  lemma OwnTransfer(t: Token, block: nat)
    requires t.ledger.owners == map[0 := 8, 1 := HOUSE] && Balance(t.ledger, 8) == 1
    ensures var r := Exec(t, block, 8, TransferFrom(8, 8, 0)); r.Ok? && r.value.events == [Transfer(8, 8, 0)]
  {
  }

  const SELF_TRANSFER: seq<Move> := [OPEN, Do(8, OnToken(TransferFrom(8, 8, 0)))]

  // An account may transfer a token to itself, and the subgraph then disagrees with the contract.
  lemma SelfTransferRun()
    ensures var log := Play(FirstWorld(), SELF_TRANSFER).net.log;
            Transfer(8, 8, 0) in log && !IndexRuns.NoSelfTransfer(log) && !IndexRuns.AgreesThroughout(log)
  {
    var w0, own := FirstWorld(), Do(8, OnToken(TransferFrom(8, 8, 0)));
    Opened();
    PlayTwo(w0, OPEN, own);
    var w1 := Advance(w0, OPEN);
    hide Advance, FirstWorld, Play, IndexRuns.AgreesThroughout;
    OwnTransfer(w1.net.token, w1.net.block);
    hide Exec;
    CallOf(w1, 8, TransferFrom(8, 8, 0));
    var w2 := Advance(w1, own);
    var last := |w2.net.log| - 1;
    assert w2.net.log[last] == Transfer(8, 8, 0);
    assert Ownership.SelfTransfer(w2.net.log[last]);
    IndexRuns.RunIndexExact(w0, SELF_TRANSFER);
  }

  lemma LateBidOf(w: World, sender: Address, value: nat)
    requires sender > HOUSE && w.house.auction.nounId == 1 && w.time < w.house.auction.endTime
    requires w.house.timeBuffer == 300 && w.house.auction.endTime - w.time < 300 && w.time < 100000
    requires w.house.reservePrice == 1 && w.house.auction.amount <= 5 && w.house.auction.amount < value && w.house.minBidIncrementPercentage == 2
    requires w.house.auction.bidder != ZERO ==> w.house.balance >= w.house.auction.amount
    ensures var m := Do(sender, CreateBid(1, value, true)); var w' := Advance(w, m);
            && Accepted(w, m)
            && w'.house.auction == w.house.auction.(amount := value, bidder := sender, endTime := w.time + 300)
            && w'.house.balance + (if w.house.auction.bidder != ZERO then w.house.auction.amount else 0) == w.house.balance + value
            && w'.house.timeBuffer == 300 && w'.house.reservePrice == 1
            && w'.house.minBidIncrementPercentage == 2 && w'.time == w.time
            && w'.net.log == w.net.log + [AuctionBid(1, sender, value, true), AuctionExtended(1, w.time + 300)]
  {
    var bid, late := AuctionBid(1, sender, value, true), AuctionExtended(1, w.time + 300);
    assert w.net.log + [bid] + [late] == w.net.log + [bid, late];
  }

  const EXTENDED: seq<Move> := [OPEN, Wait(86300, 1), Do(4, CreateBid(1, 5, true)), Wait(200, 1), Do(5, CreateBid(1, 6, true))]

  lemma ExtendedRun()
    ensures var w := Play(FirstWorld(), EXTENDED);
            && w.house.auction == Auction(1, 6, 1000, 87800, 5, false)
            && w.net.log == [Transfer(ZERO, 9, 0), Transfer(9, 8, 0), Transfer(ZERO, 9, 1), Transfer(9, HOUSE, 1),
                             AuctionCreated(1, 1000, 87400),
                             AuctionBid(1, 4, 5, true), AuctionExtended(1, 87600),
                             AuctionBid(1, 5, 6, true), AuctionExtended(1, 87800)]
  {
    var w0 := FirstWorld();
    Opened();
    var w1 := Advance(w0, OPEN);
    var w2 := Advance(w1, Wait(86300, 1));
    LateBidOf(w2, 4, 5);
    var w3 := Advance(w2, Do(4, CreateBid(1, 5, true)));
    var w4 := Advance(w3, Wait(200, 1));
    LateBidOf(w4, 5, 6);
    hide Advance, FirstWorld;
    PlayThree(w0, EXTENDED[0], EXTENDED[1], EXTENDED[2]);
    assert EXTENDED[..3] == [EXTENDED[0], EXTENDED[1], EXTENDED[2]];
    assert EXTENDED[..4][..3] == EXTENDED[..3] && EXTENDED[..5] == EXTENDED;
    assert Play(w0, EXTENDED[..4]) == w4;
  }

  const SWAPPED: seq<AuctionSlice.Message> :=
    [AuctionSlice.BidArrived(AuctionSlice.BidEvent(1, 4, 5, true, 1, 0)),
     AuctionSlice.BidArrived(AuctionSlice.BidEvent(1, 5, 6, true, 2, 0)),
     AuctionSlice.ExtensionArrived(1, 87800),
     AuctionSlice.ExtensionArrived(1, 87600)]

  // Two extensions delivered the wrong way round leave the earlier end, though nothing is missing.
  lemma SwappedExtensions()
    ensures var w := Play(FirstWorld(), EXTENDED);
            && SliceRuns.MixedComplete(SWAPPED, w.net.log, 1) && SliceRuns.EndsDelivered(SWAPPED, w.net.log, 1)
            && !SliceRuns.OneEnd(w.net.log, 1)
            && var t := AuctionSlice.ReceiveAll(AuctionSlice.SetActive(1, 1000, 87400), SWAPPED).activeAuction;
               t.Some? && t.value.endTime == 87600 < w.house.auction.endTime
  {
    ExtendedRun();
    hide Play;
    var start := Auction(1, 0, 1000, 87400, ZERO, false);
    AuctionSlice.ReceiveExact(start, SWAPPED);
    assert AuctionSlice.LastEnd(start, SWAPPED) == 87600;
    SwappedComplete(Play(FirstWorld(), EXTENDED).net.log);
    hide AuctionSlice.ReceiveAll, SliceRuns.MixedComplete, SliceRuns.EndsDelivered, SliceRuns.OneEnd;
  }

  lemma SwappedBids()
    ensures AuctionSlice.BidsOf(SWAPPED) == [AuctionSlice.BidEvent(1, 4, 5, true, 1, 0), AuctionSlice.BidEvent(1, 5, 6, true, 2, 0)]
  {
    assert SWAPPED[..3][..2] == SWAPPED[..2] && SWAPPED[..2][..1] == SWAPPED[..1] && SWAPPED[..1][..0] == [];
    assert AuctionSlice.BidsOf(SWAPPED[..0]) == [];
    assert AuctionSlice.BidsOf(SWAPPED[..1]) == [SWAPPED[0].bid];
    assert AuctionSlice.BidsOf(SWAPPED[..2]) == [SWAPPED[0].bid, SWAPPED[1].bid];
    assert AuctionSlice.BidsOf(SWAPPED[..3]) == [SWAPPED[0].bid, SWAPPED[1].bid];
  }

  lemma SwappedComplete(log: seq<Event>)
    requires |log| == 9 && log[5..] == [AuctionBid(1, 4, 5, true), AuctionExtended(1, 87600), AuctionBid(1, 5, 6, true), AuctionExtended(1, 87800)]
    requires forall k :: 0 <= k < 5 ==> !log[k].AuctionBid?
    requires forall k :: 0 <= k < 5 ==> !log[k].AuctionExtended?
    ensures SliceRuns.MixedComplete(SWAPPED, log, 1) && SliceRuns.EndsDelivered(SWAPPED, log, 1) && !SliceRuns.OneEnd(log, 1)
  {
    SwappedBids();
    hide AuctionSlice.BidsOf;
    var bids := AuctionSlice.BidsOf(SWAPPED);
    assert log[5] == log[5..][0] && log[6] == log[5..][1] && log[7] == log[5..][2] && log[8] == log[5..][3];
    assert SliceRuns.Tells(bids[0], log[5]) && SliceRuns.Tells(bids[1], log[7]);
    assert SliceRuns.Complete(bids, log, 1);
    assert SliceRuns.ExtendsOn(log[6], 1) && SliceRuns.ExtendsOn(log[8], 1);
    assert SWAPPED[2] in SWAPPED && SWAPPED[3] in SWAPPED;
  }
}
