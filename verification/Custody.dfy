// Custody of the noun under auction, settlement, and what bidding does to price and end time,
// over any run of the joint system.
module Custody {
  import opened Chain
  import opened Ledger
  import opened Votes
  import opened Token
  import opened Market
  import opened MarketRuns
  import TokenRuns

  // ----- The invariant of every reachable state

  ghost predicate FullyCounted(t: Token) {
    && Shortfall(t, HOUSE) == 0
    && (forall d :: d != ZERO ==> Shortfall(t, d) >= 0)
  }

  ghost predicate TokenFine(w: World) {
    && Sound(w.net.token, w.net.block)
    && HandsOff(w.net.token)
    && FullyCounted(w.net.token)
  }

  ghost predicate Invariant(w: World) {
    Money(w) && Sequenced(w) && TokenFine(w)
  }

  lemma CallKeepsFine(t: Token, block: nat, sender: Address, call: Call)
    requires Sound(t, block) && FullyCounted(t) && sender != ZERO && Exec(t, block, sender, call).Ok?
    requires call.DelegateBySig? ==> call.signatory != HOUSE
    ensures var t' := Exec(t, block, sender, call).value.token; Sound(t', block) && FullyCounted(t')
  {
    ExecKeeps(t, block, sender, call);
    hide Exec, Shortfall, Sound, Dated;
    assert forall d :: SignedAway(t, call, d) >= 0;
    assert SignedAway(t, call, HOUSE) == 0;
  }

  lemma SettleFine(w: World, accepts: bool)
    requires TokenFine(w) && Settle(w, accepts).Ok?
    ensures TokenFine(Settle(w, accepts).value)
    ensures var w', a := Settle(w, accepts).value, w.house.auction;
            Owner(w'.net.token.ledger, a.nounId) == a.bidder && w'.net.token.nextId == w.net.token.nextId
  {
    var a, t, block := w.house.auction, w.net.token, w.net.block;
    var call := SettleCall(a);
    CallKeepsFine(t, block, HOUSE, call);
    if a.bidder == ZERO {
      BurnHandsOff(t, block, a.nounId, a.nounId);
    } else {
      MoveHandsOff(t, block, HOUSE, a.bidder, a.nounId, a.nounId);
    }
    hide Sound, HandsOff, FullyCounted, BurnToken, MoveToken;
  }

  lemma CreateFine(w: World, reward: Seeding, regular: Seeding)
    requires TokenFine(w) && Create(w, reward, regular).Ok?
    ensures var w' := Create(w, reward, regular).value;
            && TokenFine(w')
            && w'.net.token.nextId >= w.net.token.nextId
            && (w'.house.auction != w.house.auction ==>
                  w'.net.token.nextId > w.net.token.nextId && Holds(w'.net.token, w'.house.auction.nounId))
    ensures Exec(w.net.token, w.net.block, HOUSE, Mint(reward, regular)).Ok? ==>
              Exec(w.net.token, w.net.block, HOUSE, Mint(reward, regular)).value.token.nextId > w.net.token.nextId
  {
    hide HandsOff, FullyCounted, MintBoth, Dated, Counted;
    var t, block := w.net.token, w.net.block;
    if Exec(t, block, HOUSE, Mint(reward, regular)).Ok? {
      CallKeepsFine(t, block, HOUSE, Mint(reward, regular));
      MintBothHandsOff(t, block, reward, regular, 0);
    }
    hide Sound;
  }

  lemma OutsideFine(w: World, sender: Address, call: Call)
    requires TokenFine(w) && Possible(sender, OnToken(call)) && Act(w, sender, OnToken(call)).Ok?
    ensures var w' := Act(w, sender, OnToken(call)).value;
            TokenFine(w') && w'.net.token.nextId >= w.net.token.nextId
  {
    CallKeepsFine(w.net.token, w.net.block, sender, call);
    OutsideCallHandsOff(w.net.token, w.net.block, sender, call, 0);
    hide Sound, HandsOff, FullyCounted, Exec;
  }

  lemma FineElsewhere(w: World, w': World)
    requires TokenFine(w) && w'.net.token == w.net.token && w'.net.block >= w.net.block
    ensures TokenFine(w')
  {
    hide Shortfall, HandsOff, Counted;
    forall a
      ensures Chronological(History(w'.net.token.votes, a), w'.net.block)
    {
      assert Chronological(History(w.net.token.votes, a), w.net.block);
    }
  }

  lemma AdvanceFine(w: World, m: Move)
    requires TokenFine(w)
    ensures TokenFine(Advance(w, m))
  {
    hide TokenFine, Settle, Create, Exec;
    if m.Wait? {
      FineElsewhere(w, Advance(w, m));
    } else if Accepted(w, m) {
      match m.action {
        case SettleAuction(accepts) => SettleFine(w, accepts);
        case SettleCurrentAndCreateNewAuction(accepts, reward, regular) =>
          SettleFine(w, accepts);
          CreateFine(Settle(w, accepts).value, reward, regular);
        case Unpause(reward, regular) =>
          var open := w.(house := w.house.(paused := false));
          FineElsewhere(w, open);
          if w.house.auction.startTime == 0 || w.house.auction.settled {
            CreateFine(open, reward, regular);
          }
        case OnToken(call) => OutsideFine(w, m.sender, call);
        case _ => FineElsewhere(w, Advance(w, m));
      }
    }
  }

  lemma BidSequenced(w: World, sender: Address, nounId: nat, value: nat, accepts: bool)
    requires Sequenced(w) && Bid(w, sender, nounId, value, accepts).Ok?
    ensures Sequenced(Bid(w, sender, nounId, value, accepts).value)
  {
    hide Sequenced, Times, MinimumBid;
    var w' := Bid(w, sender, nounId, value, accepts).value;
    SequencedElsewhere(w, w', w'.net.log[|w.net.log|..]);
  }

  lemma CreateFineSequenced(w: World, reward: Seeding, regular: Seeding)
    requires Sequenced(w) && TokenFine(w) && w.time > 0 && Create(w, reward, regular).Ok?
    requires w.house.auction.startTime == 0 || w.house.auction.settled
    ensures Sequenced(Create(w, reward, regular).value)
  {
    hide Create, Exec, TokenFine, Sequenced;
    CreateFine(w, reward, regular);
    CreateSequenced(w, reward, regular);
  }

  lemma SettleFineSequenced(w: World, accepts: bool)
    requires Sequenced(w) && TokenFine(w) && Settle(w, accepts).Ok?
    ensures Sequenced(Settle(w, accepts).value) && TokenFine(Settle(w, accepts).value)
    ensures Settle(w, accepts).value.time == w.time && Settle(w, accepts).value.house.auction.settled
  {
    SettleParts(w, accepts);
    hide Settle, Exec, TokenFine, Sequenced;
    SettleFine(w, accepts);
    SettleSequenced(w, accepts);
  }

  lemma CallSequenced(w: World, sender: Address, call: Call)
    requires Sequenced(w) && TokenFine(w) && Possible(sender, OnToken(call)) && Act(w, sender, OnToken(call)).Ok?
    ensures Sequenced(Act(w, sender, OnToken(call)).value)
  {
    hide TokenFine, Sequenced, Exec;
    OutsideFine(w, sender, call);
    TokenEvents(w.net.token, w.net.block, sender, call);
    SequencedElsewhere(w, Act(w, sender, OnToken(call)).value, Exec(w.net.token, w.net.block, sender, call).value.events);
  }

  lemma ActSequenced(w: World, sender: Address, action: Action)
    requires Sequenced(w) && TokenFine(w) && w.time > 0 && Possible(sender, action) && Act(w, sender, action).Ok?
    ensures Sequenced(Act(w, sender, action).value)
  {
    hide Sequenced, Settle, Create, Bid, Exec, TokenFine;
    match action {
      case CreateBid(nounId, value, accepts) => BidSequenced(w, sender, nounId, value, accepts);
      case SettleAuction(accepts) => SettleFineSequenced(w, accepts);
      case SettleCurrentAndCreateNewAuction(accepts, reward, regular) =>
        SettleFineSequenced(w, accepts);
        CreateFineSequenced(Settle(w, accepts).value, reward, regular);
      case Unpause(reward, regular) => UnpauseSequenced(w, reward, regular);
      case OnToken(call) => CallSequenced(w, sender, call);
      case _ => SequencedElsewhere(w, Act(w, sender, action).value, []);
    }
  }

  lemma UnpauseSequenced(w: World, reward: Seeding, regular: Seeding)
    requires Sequenced(w) && TokenFine(w) && w.time > 0
    ensures var open := w.(house := w.house.(paused := false));
            && Sequenced(open)
            && ((w.house.auction.startTime == 0 || w.house.auction.settled) && Create(open, reward, regular).Ok? ==>
                  Sequenced(Create(open, reward, regular).value))
  {
    hide Sequenced, Create, TokenFine;
    var open := w.(house := w.house.(paused := false));
    SequencedElsewhere(w, open, []);
    FineElsewhere(w, open);
    if (w.house.auction.startTime == 0 || w.house.auction.settled) && Create(open, reward, regular).Ok? {
      CreateFineSequenced(open, reward, regular);
    }
  }

  lemma AdvanceSequenced(w: World, m: Move)
    requires Invariant(w)
    ensures Sequenced(Advance(w, m))
  {
    hide Sequenced, Act, TokenFine, Accounted, Escrowed;
    if m.Wait? {
      SequencedElsewhere(w, Advance(w, m), []);
    } else if Accepted(w, m) {
      ActSequenced(w, m.sender, m.action);
    }
  }

  lemma {:induction false} InvariantHolds(w: World, moves: seq<Move>)
    requires Initial(w)
    ensures Invariant(Play(w, moves))
  {
    MoneyConserved(w, moves);
    if moves == [] {
      TokenRuns.DeployedSound(w.net.token, w.net.block);
    } else {
      hide Money, Sequenced, TokenFine, Advance;
      var k := |moves| - 1;
      InvariantHolds(w, moves[..k]);
      AdvanceFine(Play(w, moves[..k]), moves[k]);
      AdvanceSequenced(Play(w, moves[..k]), moves[k]);
    }
  }

  // ----- Custody

  predicate Running(w: World) {
    w.house.auction.startTime != 0 && !w.house.auction.settled
  }

  // While an auction runs, its noun is the house's.
  ghost predicate InCustody(w: World) {
    Running(w) ==> Holds(w.net.token, w.house.auction.nounId)
  }

  // The minter, not being the house, burns the very noun under auction.
  ghost predicate BurnsAuctioned(w: World, m: Move) {
    Running(w) && Accepted(w, m) && m.action == OnToken(Burn(w.house.auction.nounId))
  }

  lemma SettleEndsAuction(w: World, accepts: bool)
    requires Settle(w, accepts).Ok?
    ensures Settle(w, accepts).value.house.auction.settled
  {
    SettleParts(w, accepts);
    hide Settle, Exec;
  }

  lemma ActCustody(w: World, sender: Address, action: Action)
    requires TokenFine(w) && InCustody(w) && Possible(sender, action) && Act(w, sender, action).Ok?
    ensures InCustody(Act(w, sender, action).value) <==>
              !(Running(w) && action == OnToken(Burn(w.house.auction.nounId)))
  {
    hide Settle, Create, Exec, TokenFine, Bid, Holds;
    match action {
      case CreateBid(nounId, value, accepts) => BidCustody(w, sender, nounId, value, accepts);
      case SettleAuction(accepts) => SettleEndsAuction(w, accepts);
      case SettleCurrentAndCreateNewAuction(accepts, reward, regular) =>
        SettleEndsAuction(w, accepts);
        SettleFine(w, accepts);
        CreateFine(Settle(w, accepts).value, reward, regular);
      case Unpause(reward, regular) =>
        var open := w.(house := w.house.(paused := false));
        if w.house.auction.startTime == 0 || w.house.auction.settled {
          FineElsewhere(w, open);
          CreateFine(open, reward, regular);
        }
      case OnToken(call) =>
        FineParts(w);
        hide Sound, HandsOff, FullyCounted;
        CallCustody(w, sender, call, w.house.auction.nounId);
      case _ =>
    }
  }

  lemma BidCustody(w: World, sender: Address, nounId: nat, value: nat, accepts: bool)
    requires Bid(w, sender, nounId, value, accepts).Ok?
    ensures var w' := Bid(w, sender, nounId, value, accepts).value;
            w'.net.token == w.net.token && Running(w') == Running(w) && w'.house.auction.nounId == w.house.auction.nounId
  {
    hide Times, MinimumBid;
  }

  lemma CallCustody(w: World, sender: Address, call: Call, id: nat)
    requires Sound(w.net.token, w.net.block) && HandsOff(w.net.token)
    requires Possible(sender, OnToken(call)) && Act(w, sender, OnToken(call)).Ok?
    ensures var w' := Act(w, sender, OnToken(call)).value;
            && w'.house == w.house
            && (Holds(w.net.token, id) ==> (Holds(w'.net.token, id) <==> call != Burn(id)))
  {
    hide Exec, HandsOff, Holds;
    OutsideCallHandsOff(w.net.token, w.net.block, sender, call, id);
  }

  // One step loses custody exactly when it is such a burn.
  lemma CustodyExact(w: World, m: Move)
    requires Invariant(w) && InCustody(w)
    ensures InCustody(Advance(w, m)) <==> !BurnsAuctioned(w, m)
  {
    hide Act, Money, Sequenced, TokenFine, Possible;
    if Accepted(w, m) {
      ActCustody(w, m.sender, m.action);
    }
  }

  lemma FineParts(w: World)
    requires TokenFine(w)
    ensures Sound(w.net.token, w.net.block) && HandsOff(w.net.token) && FullyCounted(w.net.token)
  {
  }

  ghost predicate NoForeignBurn(w: World, moves: seq<Move>) {
    forall i :: 0 <= i < |moves| ==> !BurnsAuctioned(Play(w, moves[..i]), moves[i])
  }

  // In any run without such a burn the house holds the noun of every running auction.
  lemma {:induction false} CustodyKept(w: World, moves: seq<Move>)
    requires Initial(w) && NoForeignBurn(w, moves)
    ensures InCustody(Play(w, moves))
  {
    if moves != [] {
      hide Advance, InCustody, Invariant, BurnsAuctioned;
      var k := |moves| - 1;
      forall i | 0 <= i < k
        ensures !BurnsAuctioned(Play(w, moves[..k][..i]), moves[..k][i])
      {
        assert moves[..k][..i] == moves[..i];
      }
      CustodyKept(w, moves[..k]);
      InvariantHolds(w, moves[..k]);
      CustodyExact(Play(w, moves[..k]), moves[k]);
    }
  }

  // ----- Settlement

  // A settlement hands the noun to the winner, or destroys it when there is none.
  lemma SettlementDelivers(w: World, accepts: bool)
    requires Invariant(w) && InCustody(w) && Settle(w, accepts).Ok?
    ensures var a, w' := w.house.auction, Settle(w, accepts).value;
            && w'.house.auction == a.(settled := true)
            && Owner(w.net.token.ledger, a.nounId) == HOUSE
            && Owner(w'.net.token.ledger, a.nounId) == a.bidder
            && (a.nounId in w'.net.token.ledger.owners <==> a.bidder != ZERO)
            && w'.house.balance == 0
  {
    SettleFine(w, accepts);
    SettleKeepsMoney(w, accepts);
    SettleSettles(w, accepts);
    hide Settle, HandsOff, Dated, Accounted;
  }

  // When a settlement goes through: the auction is over, and, if nobody bid, the house may still burn.
  lemma SettlementExact(w: World, accepts: bool)
    requires Invariant(w) && InCustody(w) && TokenRuns.WithinWidths(w.net.token, w.net.block)
    ensures Settle(w, accepts).Ok? <==>
              Running(w) && w.house.auction.endTime <= w.time
              && (w.house.auction.bidder != ZERO || w.net.token.minter == HOUSE)
  {
    var a, t, block := w.house.auction, w.net.token, w.net.block;
    if Running(w) {
      FineParts(w);
      hide HandsOff;
      TokenRuns.HookExact(t, block, HOUSE, a.bidder, a.nounId);
      TokenRuns.DelegateHasVotes(t, a.nounId);
      DebitCounted(t.ledger, HOUSE, a.nounId);
      hide BeforeTransfer, Debit, Sound, Money;
      assert w.house.balance == a.amount by { assert Money(w); EscrowOf(w); }
    }
  }

  lemma EscrowOf(w: World)
    requires Money(w)
    ensures Escrowed(w)
  {
  }

  // ----- An auction whose noun is gone

  ghost predicate Stranded(w: World, id: nat) {
    && Running(w) && w.house.auction.nounId == id
    && id !in w.net.token.ledger.owners && id < w.net.token.nextId
  }

  lemma GoneStaysGone(t: Token, block: nat, sender: Address, call: Call, id: nat)
    requires id !in t.ledger.owners && id < t.nextId && Exec(t, block, sender, call).Ok?
    ensures var t' := Exec(t, block, sender, call).value.token; id !in t'.ledger.owners && id < t'.nextId
  {
    hide BeforeTransfer, SetDelegate, Credit;
    match call {
      case Mint(reward, regular) => hide MintTo; MintsOthers(t, block, reward, regular, id);
      case _ => ExecMovesExisting(t, block, sender, call, id);
    }
  }

  lemma MintsOthers(t: Token, block: nat, reward: Seeding, regular: Seeding, id: nat)
    requires id !in t.ledger.owners && id < t.nextId && MintBoth(t, block, reward, regular).Ok?
    ensures var t' := MintBoth(t, block, reward, regular).value.token; id !in t'.ledger.owners && id < t'.nextId
  {
    hide BeforeTransfer;
  }

  lemma ExecMovesExisting(t: Token, block: nat, sender: Address, call: Call, id: nat)
    requires id !in t.ledger.owners && id < t.nextId && !call.Mint? && Exec(t, block, sender, call).Ok?
    ensures var t' := Exec(t, block, sender, call).value.token; id !in t'.ledger.owners && id < t'.nextId
  {
    hide BeforeTransfer, SetDelegate;
  }

  lemma StrandedStep(w: World, m: Move, id: nat)
    requires Invariant(w) && Stranded(w, id)
    ensures Stranded(Advance(w, m), id)
  {
    hide Exec, Invariant, Create;
    if Accepted(w, m) {
      CannotSettle(w, true, id);
      CannotSettle(w, false, id);
      match m.action {
        case OnToken(call) => GoneStaysGone(w.net.token, w.net.block, m.sender, call, id);
        case CreateBid(nounId, value, accepts) => hide Times, MinimumBid;
        case _ =>
      }
    }
  }

  lemma CannotSettle(w: World, accepts: bool, id: nat)
    requires Stranded(w, id)
    ensures !Settle(w, accepts).Ok?
  {
    hide Send, MoveToken, BeforeTransfer, Debit;
    assert !Exec(w.net.token, w.net.block, HOUSE, SettleCall(w.house.auction)).Ok? by { hide MayMove; }
  }

  // Once the noun of a running auction is burned, no continuation of the run ever settles the
  // auction or starts another, and the house keeps the leading bid.
  lemma {:induction false} StrandedForever(w: World, before: seq<Move>, after: seq<Move>, id: nat)
    requires Initial(w) && Stranded(Play(w, before), id)
    ensures Stranded(Play(w, before + after), id)
    ensures var h := Play(w, before + after).house; h.balance == h.auction.amount
  {
    hide Stranded, Invariant, Advance;
    if after == [] {
      assert before + after == before;
    } else {
      var k := |after| - 1;
      StrandedForever(w, before, after[..k], id);
      assert (before + after)[..|before| + k] == before + after[..k];
      InvariantHolds(w, before + after[..k]);
      StrandedStep(Play(w, before + after[..k]), after[k], id);
    }
    InvariantHolds(w, before + after);
    StrandedEscrow(Play(w, before + after), id);
  }

  lemma StrandedEscrow(w: World, id: nat)
    requires Invariant(w) && Stranded(w, id)
    ensures w.house.balance == w.house.auction.amount
  {
    assert Money(w);
    EscrowOf(w);
  }
}
