// Whether an auction can still be settled, from any reachable state and by any continuation.
module Settling {
  import opened Chain
  import opened Ledger
  import opened Votes
  import opened Token
  import opened Market
  import opened MarketRuns
  import opened Custody
  import Bidding
  import TokenRuns

  // Nobody can call as the zero address or as the house.
  predicate CanCall(a: Address) {
    a != ZERO && a != HOUSE
  }

  // A bid can still come: there is time left, and the end it would be extended to is below 2^256 or
  // the owner can shorten the time buffer first.
  predicate OpenToBids(w: World) {
    && w.time < w.house.auction.endTime
    && (w.house.auction.endTime - w.time >= w.house.timeBuffer || w.time + w.house.timeBuffer < U256 || CanCall(w.house.owner))
  }

  // The house may burn, or can be given back the right to.
  predicate BurnsInReach(t: Token) {
    t.minter == HOUSE || (!t.minterLocked && CanCall(t.owner))
  }

  ghost predicate Settleable(w: World) {
    && Holds(w.net.token, w.house.auction.nounId)
    && (w.house.auction.bidder != ZERO || BurnsInReach(w.net.token) || OpenToBids(w))
  }

  ghost predicate SettledBy(w: World, moves: seq<Move>) {
    var a, a' := w.house.auction, Play(w, moves).house.auction;
    a'.nounId == a.nounId && a'.settled
  }

  // The auction is still the same one and still open.
  ghost predicate OpenAfter(w: World, moves: seq<Move>) {
    var w' := Play(w, moves);
    Running(w') && w'.house.auction.nounId == w.house.auction.nounId
  }

  // ----- A running auction's noun is held or gone

  lemma GoneByBurn(w: World, m: Move)
    requires Invariant(w) && Running(w) && BurnsAuctioned(w, m)
    ensures Stranded(Advance(w, m), w.house.auction.nounId)
  {
    var created := CreatedIds(w.net.log);
    assert created[|created| - 1] < w.net.token.nextId;
    hide BeforeTransfer, Debit, Money, TokenFine;
  }

  lemma {:induction false} HeldOrStranded(w: World, moves: seq<Move>)
    requires Initial(w)
    ensures var w' := Play(w, moves); InCustody(w') || Stranded(w', w'.house.auction.nounId)
  {
    if moves != [] {
      var k := |moves| - 1;
      var v := Play(w, moves[..k]);
      HeldOrStranded(w, moves[..k]);
      InvariantHolds(w, moves[..k]);
      hide Advance, Invariant, InCustody;
      if InCustody(v) {
        CustodyExact(v, moves[k]);
        if BurnsAuctioned(v, moves[k]) {
          GoneByBurn(v, moves[k]);
        }
      } else {
        StrandedStep(v, moves[k], v.house.auction.nounId);
      }
    }
  }

  // ----- An auction locked for good: no bid, none to come, and no burn in reach

  ghost predicate Locked(w: World, id: nat) {
    && Running(w) && w.house.auction.nounId == id && w.house.auction.bidder == ZERO
    && !BurnsInReach(w.net.token) && !OpenToBids(w)
  }

  lemma LockedRefuses(w: World, id: nat, sender: Address, nounId: nat, value: nat, accepts: bool)
    requires Locked(w, id)
    ensures !Settle(w, accepts).Ok? && !Bid(w, sender, nounId, value, accepts).Ok?
  {
    hide BurnToken, Send, MinimumBid, Times;
  }

  lemma LockedCall(t: Token, block: nat, sender: Address, call: Call)
    requires !BurnsInReach(t) && CanCall(sender) && Exec(t, block, sender, call).Ok?
    ensures !BurnsInReach(Exec(t, block, sender, call).value.token)
  {
    hide BeforeTransfer, SetDelegate, Debit, Credit, MayMove;
  }

  lemma LockedStep(w: World, m: Move, id: nat)
    requires Locked(w, id)
    ensures Locked(Advance(w, m), id)
  {
    hide Exec, Create, Settle, Bid, BurnsInReach;
    if Accepted(w, m) {
      match m.action {
        case CreateBid(nounId, value, accepts) => LockedRefuses(w, id, m.sender, nounId, value, accepts);
        case SettleAuction(accepts) => LockedRefuses(w, id, m.sender, id, 0, accepts);
        case SettleCurrentAndCreateNewAuction(accepts, _, _) => LockedRefuses(w, id, m.sender, id, 0, accepts);
        case OnToken(call) => LockedCall(w.net.token, w.net.block, m.sender, call);
        case _ =>
      }
    }
  }

  // Neither comes back from: the auction stays open whatever happens.
  lemma {:induction false} OpenForever(w: World, moves: seq<Move>)
    requires Invariant(w)
    requires Stranded(w, w.house.auction.nounId) || Locked(w, w.house.auction.nounId)
    ensures OpenAfter(w, moves)
    ensures var id, w' := w.house.auction.nounId, Play(w, moves); Stranded(w', id) || Locked(w', id)
  {
    if moves != [] {
      var k, id := |moves| - 1, w.house.auction.nounId;
      var v := Play(w, moves[..k]);
      OpenForever(w, moves[..k]);
      Bidding.InvariantKept(w, moves[..k]);
      hide Advance, Invariant, BurnsInReach, OpenToBids;
      if Stranded(v, id) {
        StrandedStep(v, moves[k], id);
      } else {
        LockedStep(v, moves[k], id);
      }
    }
  }

  // ----- The moves that settle it

  ghost predicate Ready(w: World) {
    && Invariant(w) && Running(w) && InCustody(w) && TokenRuns.WithinWidths(w.net.token, w.net.block)
  }

  lemma CallSettles(w: World)
    requires Settle(w, true).Ok? && TokenRuns.WithinWidths(Settle(w, true).value.net.token, w.net.block)
    ensures var m := if w.house.paused then SettleAuction(true) else SettleCurrentAndCreateNewAuction(true, SeederError, SeederError);
            Advance(w, Do(2, m)).house.auction == Settle(w, true).value.house.auction
  {
    SettleParts(w, true);
    SettleKeepsPause(w, true);
    MintRefused(Settle(w, true).value.net.token, w.net.block);
    hide Exec, Settle, TokenRuns.WithinWidths;
  }

  lemma MintRefused(t: Token, block: nat)
    requires TokenRuns.WithinWidths(t, block)
    ensures Exec(t, block, HOUSE, Mint(SeederError, SeederError)) == Error
  {
  }

  lemma SettleKeepsPause(w: World, accepts: bool)
    requires Settle(w, accepts).Ok?
    ensures Settle(w, accepts).value.house.paused == w.house.paused
  {
    hide Exec;
  }

  // Once it is over, one call settles it; with no next noun to be had the house then pauses.
  lemma OneCall(w: World) returns (m: Move)
    requires Ready(w) && w.house.auction.endTime <= w.time
    requires w.house.auction.bidder != ZERO || w.net.token.minter == HOUSE
    ensures Advance(w, m).house.auction == w.house.auction.(settled := true)
  {
    SettlementExact(w, true);
    SettleParts(w, true);
    SettleFine(w, true) by {
      hide Settle;
    }
    hide Exec, Settle, Invariant, Advance;
    CallSettles(w);
    m := Do(2, if w.house.paused then SettleAuction(true) else SettleCurrentAndCreateNewAuction(true, SeederError, SeederError));
  }

  lemma {:induction false} PlayFirst(w: World, m: Move, rest: seq<Move>)
    ensures Play(w, [m] + rest) == Play(Advance(w, m), rest)
  {
    hide Advance;
    var all := [m] + rest;
    if rest == [] {
      assert all == [m] && all[..0] == [];
      assert Play(w, []) == w;
    } else {
      assert all[..|all| - 1] == [m] + rest[..|rest| - 1];
      PlayFirst(w, m, rest[..|rest| - 1]);
    }
  }

  lemma AfterFirst(w: World, m: Move, rest: seq<Move>)
    requires SettledBy(Advance(w, m), rest) && Advance(w, m).house.auction.nounId == w.house.auction.nounId
    ensures SettledBy(w, [m] + rest)
  {
    hide Advance, Play;
    PlayFirst(w, m, rest);
  }

  lemma InvariantStep(w: World, m: Move)
    requires Invariant(w)
    ensures Invariant(Advance(w, m))
  {
    Bidding.InvariantKept(w, [m]);
    PlayFirst(w, m, []);
    assert [m] + [] == [m];
    hide Invariant, Advance;
  }

  lemma WaitAndSettle(w: World) returns (moves: seq<Move>)
    requires Ready(w) && (w.house.auction.bidder != ZERO || w.net.token.minter == HOUSE)
    ensures SettledBy(w, moves)
  {
    hide Invariant;
    var wait := Wait(if w.time < w.house.auction.endTime then w.house.auction.endTime - w.time else 0, 0);
    var w' := Advance(w, wait);
    InvariantStep(w, wait);
    var m := OneCall(w');
    PlayFirst(w', m, []);
    assert [m] + [] == [m];
    AfterFirst(w, wait, [m]);
    moves := [wait] + [m];
    hide Advance;
  }

  lemma MinterSet(w: World)
    requires Ready(w) && !w.net.token.minterLocked && CanCall(w.net.token.owner)
    ensures var w' := Advance(w, Do(w.net.token.owner, OnToken(SetMinter(HOUSE))));
            w' == w.(net := w.net.(token := w.net.token.(minter := HOUSE)))
  {
    hide Invariant;
    assert w.net.log + [] == w.net.log;
  }

  // Without a bid the token's owner first makes the house the minter again.
  lemma MinterBack(w: World) returns (moves: seq<Move>)
    requires Ready(w) && BurnsInReach(w.net.token)
    ensures SettledBy(w, moves)
  {
    if w.net.token.minter == HOUSE {
      moves := WaitAndSettle(w);
    } else {
      var m := Do(w.net.token.owner, OnToken(SetMinter(HOUSE)));
      InvariantStep(w, m);
      MinterSet(w);
      hide Invariant, Advance, SettledBy;
      var rest := WaitAndSettle(Advance(w, m));
      AfterFirst(w, m, rest);
      moves := [m] + rest;
    }
  }

  // Or somebody bids.
  lemma BidAndSettle(w: World) returns (moves: seq<Move>)
    requires Ready(w) && w.house.auction.bidder == ZERO && w.time < w.house.auction.endTime
    requires w.house.auction.endTime - w.time >= w.house.timeBuffer || w.time + w.house.timeBuffer < U256
    ensures SettledBy(w, moves)
  {
    var m := Do(2, CreateBid(w.house.auction.nounId, w.house.reservePrice, true));
    BidTaken(w);
    InvariantStep(w, m);
    hide Invariant, Advance;
    var rest := WaitAndSettle(Advance(w, m));
    AfterFirst(w, m, rest);
    moves := [m] + rest;
  }

  lemma BidTaken(w: World)
    requires Ready(w) && w.house.auction.bidder == ZERO && w.time < w.house.auction.endTime
    requires w.house.auction.endTime - w.time >= w.house.timeBuffer || w.time + w.house.timeBuffer < U256
    ensures var m := Do(2, CreateBid(w.house.auction.nounId, w.house.reservePrice, true)); var w' := Advance(w, m);
            && w'.net.token == w.net.token && w'.net.block == w.net.block && Running(w')
            && w'.house.auction.nounId == w.house.auction.nounId && w'.house.auction.bidder == 2
  {
    assert w.house.auction.amount == 0;
    hide TokenFine, Sequenced;
  }

  lemma BufferSet(w: World)
    requires CanCall(w.house.owner)
    ensures Advance(w, Do(w.house.owner, SetTimeBuffer(0))) == w.(house := w.house.(timeBuffer := 0))
  {
  }

  lemma BufferThenBid(w: World) returns (moves: seq<Move>)
    requires Ready(w) && w.house.auction.bidder == ZERO && OpenToBids(w)
    ensures SettledBy(w, moves)
  {
    if w.house.auction.endTime - w.time >= w.house.timeBuffer || w.time + w.house.timeBuffer < U256 {
      moves := BidAndSettle(w);
    } else {
      var m := Do(w.house.owner, SetTimeBuffer(0));
      InvariantStep(w, m);
      BufferSet(w);
      hide Invariant, Advance, SettledBy;
      var rest := BidAndSettle(Advance(w, m));
      AfterFirst(w, m, rest);
      moves := [m] + rest;
    }
  }

  // From any state that a run reaches, a running auction can still be settled exactly when the house
  // holds its noun and somebody has bid, or the house may burn or be let burn, or a bid can still
  // come. Where it cannot, it stays open whatever anyone does.
  lemma SettleableExact(w: World, before: seq<Move>)
    requires Initial(w)
    requires var v := Play(w, before); Running(v) && TokenRuns.WithinWidths(v.net.token, v.net.block)
    ensures var v := Play(w, before);
            && (Settleable(v) <==> exists moves :: SettledBy(v, moves))
            && (Settleable(v) || forall moves :: OpenAfter(v, moves))
  {
    var v := Play(w, before);
    HeldOrStranded(w, before);
    InvariantHolds(w, before);
    hide Play, Invariant, SettledBy, BurnsInReach, OpenToBids;
    if Settleable(v) {
      var moves;
      if v.house.auction.bidder != ZERO {
        moves := WaitAndSettle(v);
      } else if BurnsInReach(v.net.token) {
        moves := MinterBack(v);
      } else {
        moves := BufferThenBid(v);
      }
    } else {
      forall moves
        ensures OpenAfter(v, moves) && !SettledBy(v, moves)
      {
        OpenForever(v, moves);
        NotBoth(v, moves);
      }
    }
  }

  lemma NotBoth(w: World, moves: seq<Move>)
    requires OpenAfter(w, moves)
    ensures !SettledBy(w, moves)
  {
  }
}
