// The indexer over whole runs of the auction house and the token: replaying the log they emit.
module IndexRuns {
  import opened Chain
  import opened Ledger
  import opened Votes
  import opened Token
  import opened Market
  import opened MarketRuns
  import opened Custody
  import opened Subgraph
  import opened Ownership

  // ----- The index follows any truthful log

  lemma QuietEventAgrees(s: Store, owners: map<nat, Address>, e: Event)
    requires Agrees(s, owners) && !e.Transfer?
    ensures Agrees(On(s, e), owners)
  {
    if e.AuctionBid? {
      WithAccountAgrees(s, owners, e.sender);
      AgreesSame(WithAccount(s, e.sender), On(s, e), owners);
    } else {
      AgreesSame(s, On(s, e), owners);
    }
  }

  lemma AgreesSame(s: Store, s': Store, owners: map<nat, Address>)
    requires Agrees(s, owners)
    requires s'.accounts == s.accounts && s'.nouns == s.nouns && s'.governance == s.governance
    ensures Agrees(s', owners)
  {
    hide ListsExactly, HeldIn;
    assert PositiveAccounts(s') == PositiveAccounts(s);
    forall a | a != ZERO
      ensures AccountAgrees(s', owners, a)
    {
      assert AccountAgrees(s, owners, a);
    }
  }

  lemma NothingAgrees()
    ensures Agrees(EMPTY, map[])
  {
    assert PositiveAccounts(EMPTY) == {};
    forall a
      ensures HeldIn(map[], a) == {}
    {
    }
  }

  ghost predicate AgreesThroughout(log: seq<Event>) {
    forall i :: 0 <= i <= |log| ==> Agrees(Replay(log[..i]), OwnersOf(log[..i]))
  }

  ghost predicate NoSelfTransfer(log: seq<Event>) {
    forall i :: 0 <= i < |log| ==> !SelfTransfer(log[i])
  }

  lemma PrefixReplay(log: seq<Event>, i: nat)
    requires i < |log|
    ensures Replay(log[..i + 1]) == On(Replay(log[..i]), log[i])
    ensures OwnersOf(log[..i + 1]) == After(OwnersOf(log[..i]), log[i])
  {
    assert log[..i + 1][..i] == log[..i];
  }

  lemma {:induction false} AgreesUpTo(log: seq<Event>, n: nat)
    requires TruthfulLog(log) && NoSelfTransfer(log) && n <= |log|
    ensures Agrees(Replay(log[..n]), OwnersOf(log[..n]))
  {
    hide Agrees, On, After;
    if n == 0 {
      NothingAgrees();
    } else {
      AgreesUpTo(log, n - 1);
      PrefixReplay(log, n - 1);
      EventAgrees(Replay(log[..n - 1]), OwnersOf(log[..n - 1]), log[n - 1]);
    }
  }

  lemma EventAgrees(s: Store, owners: map<nat, Address>, e: Event)
    requires Agrees(s, owners) && Truthful(owners, e)
    ensures Agrees(On(s, e), After(owners, e)) <==> !SelfTransfer(e)
  {
    hide Agrees, On;
    if e.Transfer? {
      TransferAgreesExact(s, owners, e);
    } else {
      QuietEventAgrees(s, owners, e);
    }
  }

  // Over a truthful log the index agrees after every event exactly when no event is a self-transfer.
  lemma IndexExact(log: seq<Event>)
    requires TruthfulLog(log)
    ensures AgreesThroughout(log) <==> NoSelfTransfer(log)
  {
    hide Agrees, On, After, SelfTransfer, Replay, OwnersOf;
    if NoSelfTransfer(log) {
      forall n | 0 <= n <= |log|
        ensures Agrees(Replay(log[..n]), OwnersOf(log[..n]))
      {
        AgreesUpTo(log, n);
      }
    }
    if AgreesThroughout(log) {
      forall i | 0 <= i < |log|
        ensures !SelfTransfer(log[i])
      {
        PrefixReplay(log, i);
        EventAgrees(Replay(log[..i]), OwnersOf(log[..i]), log[i]);
      }
    }
  }

  // ----- The contracts emit truthful logs

  ghost predicate LogTells(log: seq<Event>, owners: map<nat, Address>) {
    && TruthfulLog(log)
    && OwnersOf(log) == owners
    && forall id :: id in owners ==> owners[id] != ZERO
  }

  lemma LogSnoc(log: seq<Event>, owners: map<nat, Address>, e: Event)
    requires LogTells(log, owners) && Truthful(owners, e)
    ensures LogTells(log + [e], After(owners, e))
  {
    hide After;
    var longer := log + [e];
    assert longer[..|log|] == log;
    forall i | 0 <= i < |longer|
      ensures Truthful(OwnersOf(longer[..i]), longer[i])
    {
      assert i < |log| ==> longer[..i] == log[..i];
    }
    assert OwnersOf(longer) == After(owners, e);
    AfterNonZero(owners, e);
  }

  lemma AfterNonZero(owners: map<nat, Address>, e: Event)
    requires forall id :: id in owners ==> owners[id] != ZERO
    ensures forall id :: id in After(owners, e) ==> After(owners, e)[id] != ZERO
  {
  }

  lemma MintToTold(t: Token, block: nat, to: Address, id: nat, seeding: Seeding, log: seq<Event>)
    requires LogTells(log, t.ledger.owners) && MintTo(t, block, to, id, seeding).Ok?
    ensures var e := MintTo(t, block, to, id, seeding).value; LogTells(log + e.events, e.token.ledger.owners)
  {
    hide LogTells, BeforeTransfer;
    var owners := t.ledger.owners;
    var first, second := Transfer(ZERO, t.owner, id), Transfer(t.owner, to, id);
    MintedOwners(owners, t.owner, to, id);
    LogSnoc(log, owners, first);
    LogSnoc(log + [first], After(owners, first), second);
    assert log + [first, second] == log + [first] + [second];
  }

  lemma MintedOwners(owners: map<nat, Address>, creator: Address, to: Address, id: nat)
    requires id !in owners && to != ZERO
    ensures var first, second := Transfer(ZERO, creator, id), Transfer(creator, to, id);
            && Truthful(owners, first) && Truthful(After(owners, first), second)
            && After(After(owners, first), second) == owners[id := to]
  {
  }

  lemma MintNextTold(t: Token, block: nat, to: Address, seeding: Seeding, log: seq<Event>)
    requires LogTells(log, t.ledger.owners) && MintNext(t, block, to, seeding).Ok?
    ensures var e := MintNext(t, block, to, seeding).value; LogTells(log + e.events, e.token.ledger.owners)
  {
    hide LogTells, MintTo;
    MintToTold(t.(nextId := t.nextId + 1), block, to, t.nextId, seeding, log);
  }

  lemma MintBothTold(t: Token, block: nat, reward: Seeding, regular: Seeding, log: seq<Event>)
    requires LogTells(log, t.ledger.owners) && MintBoth(t, block, reward, regular).Ok?
    ensures var e := MintBoth(t, block, reward, regular).value; LogTells(log + e.events, e.token.ledger.owners)
  {
    hide LogTells, MintNext;
    if t.nextId <= LAST_REWARD && t.nextId % 10 == 0 {
      MintNextTold(t, block, t.noundersDAO, reward, log);
      var first := MintNext(t, block, t.noundersDAO, reward).value;
      MintNextTold(first.token, block, first.token.minter, regular, log + first.events);
      var second := MintNext(first.token, block, first.token.minter, regular).value;
      assert log + first.events + second.events == log + (first.events + second.events);
    } else {
      MintNextTold(t, block, t.minter, regular, log);
    }
  }

  lemma BurnTold(t: Token, block: nat, id: nat, log: seq<Event>)
    requires LogTells(log, t.ledger.owners) && BurnToken(t, block, id).Ok?
    ensures var e := BurnToken(t, block, id).value; LogTells(log + e.events, e.token.ledger.owners)
  {
    LogSnoc(log, t.ledger.owners, Transfer(t.ledger.owners[id], ZERO, id));
    hide LogTells, BeforeTransfer;
  }

  lemma MoveTold(t: Token, block: nat, from: Address, to: Address, id: nat, log: seq<Event>)
    requires LogTells(log, t.ledger.owners) && MoveToken(t, block, from, to, id).Ok?
    ensures var e := MoveToken(t, block, from, to, id).value; LogTells(log + e.events, e.token.ledger.owners)
  {
    LogSnoc(log, t.ledger.owners, Transfer(from, to, id));
    hide LogTells, BeforeTransfer;
  }

  lemma CallTold(t: Token, block: nat, sender: Address, call: Call, log: seq<Event>)
    requires LogTells(log, t.ledger.owners) && Exec(t, block, sender, call).Ok?
    ensures var e := Exec(t, block, sender, call).value; LogTells(log + e.events, e.token.ledger.owners)
  {
    hide LogTells, MintBoth, BurnToken, MoveToken, SetDelegate;
    match call {
      case TransferFrom(from, to, id) => MoveTold(t, block, from, to, id, log);
      case Mint(reward, regular) => MintBothTold(t, block, reward, regular, log);
      case Burn(id) => BurnTold(t, block, id, log);
      case _ => assert log + [] == log;
    }
  }

  // ----- The joint system

  ghost predicate Told(w: World) {
    LogTells(w.net.log, w.net.token.ledger.owners)
  }

  lemma QuietTold(log: seq<Event>, owners: map<nat, Address>, quiet: seq<Event>)
    requires LogTells(log, owners) && |quiet| <= 2
    requires forall e <- quiet :: !e.Transfer?
    ensures LogTells(log + quiet, owners)
  {
    if |quiet| == 0 {
      assert log + quiet == log;
    } else {
      LogSnoc(log, owners, quiet[0]);
      if |quiet| == 2 {
        LogSnoc(log + [quiet[0]], owners, quiet[1]);
        assert log + quiet == log + [quiet[0]] + [quiet[1]];
      } else {
        assert quiet == [quiet[0]];
      }
    }
    hide LogTells;
  }

  lemma SettleTold(w: World, accepts: bool)
    requires Told(w) && Settle(w, accepts).Ok?
    ensures Told(Settle(w, accepts).value)
  {
    hide Exec, LogTells;
    var call := SettleCall(w.house.auction);
    var e := Exec(w.net.token, w.net.block, HOUSE, call).value;
    CallTold(w.net.token, w.net.block, HOUSE, call, w.net.log);
    QuietTold(w.net.log + e.events, e.token.ledger.owners,
              [AuctionSettled(w.house.auction.nounId, w.house.auction.bidder, w.house.auction.amount)]);
  }

  lemma CreateTold(w: World, reward: Seeding, regular: Seeding)
    requires Told(w) && Create(w, reward, regular).Ok?
    ensures Told(Create(w, reward, regular).value)
  {
    hide Exec, LogTells;
    if Exec(w.net.token, w.net.block, HOUSE, Mint(reward, regular)).Ok? {
      var e := Exec(w.net.token, w.net.block, HOUSE, Mint(reward, regular)).value;
      CallTold(w.net.token, w.net.block, HOUSE, Mint(reward, regular), w.net.log);
      QuietTold(w.net.log + e.events, e.token.ledger.owners,
                [AuctionCreated(e.token.nextId - 1, w.time, w.time + w.house.duration)]);
    }
  }

  lemma AdvanceTold(w: World, m: Move)
    requires Told(w)
    ensures Told(Advance(w, m))
  {
    hide Settle, Create, Exec, LogTells;
    if Accepted(w, m) {
      match m.action {
        case CreateBid(nounId, value, accepts) =>
          var quiet := Advance(w, m).net.log[|w.net.log|..];
          assert Advance(w, m).net.log == w.net.log + quiet;
          QuietTold(w.net.log, w.net.token.ledger.owners, quiet);
        case SettleAuction(accepts) => SettleTold(w, accepts);
        case SettleCurrentAndCreateNewAuction(accepts, reward, regular) =>
          SettleTold(w, accepts);
          CreateTold(Settle(w, accepts).value, reward, regular);
        case Unpause(reward, regular) =>
          if w.house.auction.startTime == 0 || w.house.auction.settled {
            CreateTold(w.(house := w.house.(paused := false)), reward, regular);
          }
        case OnToken(call) => CallTold(w.net.token, w.net.block, m.sender, call, w.net.log);
        case _ =>
      }
    }
  }

  lemma {:induction false} AlwaysTold(w: World, moves: seq<Move>)
    requires Initial(w)
    ensures Told(Play(w, moves))
  {
    if moves != [] {
      hide Told, Advance;
      var k := |moves| - 1;
      AlwaysTold(w, moves[..k]);
      AdvanceTold(Play(w, moves[..k]), moves[k]);
    }
  }

  // ----- Who the subgraph takes for a holder

  ghost predicate GoesToZero(log: seq<Event>) {
    exists e <- log :: e.Transfer? && e.to == ZERO
  }

  function ZeroTransfers(log: seq<Event>): nat {
    if log == [] then 0
    else
      var e := log[|log| - 1];
      ZeroTransfers(log[..|log| - 1]) + if e.Transfer? && e.to == ZERO then 1 else 0
  }

  lemma {:induction false} SomeZeroTransfer(log: seq<Event>)
    ensures ZeroTransfers(log) > 0 <==> GoesToZero(log)
  {
    if log != [] {
      var k := |log| - 1;
      SomeZeroTransfer(log[..k]);
      assert log == log[..k] + [log[k]];
    }
  }

  // What leaves the zero address is never taken off its balance.
  lemma ZeroStep(s: Store, e: Event)
    ensures AccountOf(On(s, e), ZERO).tokenBalance == AccountOf(s, ZERO).tokenBalance + if e.Transfer? && e.to == ZERO then 1 else 0
  {
    if e.Transfer? {
      TransferEffect(s, e.from, e.to, e.id);
      hide OnTransfer;
    }
  }

  lemma {:induction false} ZeroBalance(log: seq<Event>)
    ensures AccountOf(Replay(log), ZERO).tokenBalance == ZeroTransfers(log)
  {
    if log != [] {
      hide On, AccountOf;
      var k := |log| - 1;
      ZeroBalance(log[..k]);
      ZeroStep(Replay(log[..k]), log[k]);
    } else {
      assert AccountOf(EMPTY, ZERO) == NEW_ACCOUNT;
      hide AccountOf;
    }
  }

  // The accounts that hold tokens in the contract.
  ghost function Holders(l: Ledger): set<Address> {
    set id | id in l.owners :: l.owners[id]
  }

  lemma HolderIff(l: Ledger, a: Address)
    ensures a in Holders(l) <==> HeldIn(l.owners, a) != {}
  {
    if a in Holders(l) {
      var id :| id in l.owners && l.owners[id] == a;
      assert id in HeldIn(l.owners, a);
    }
    if HeldIn(l.owners, a) != {} {
      var id :| id in HeldIn(l.owners, a);
      assert l.owners[id] in Holders(l);
    }
  }

  // With a positive balance are exactly the holders, and the zero address once anything went to it.
  lemma PositiveAreHolders(s: Store, l: Ledger, gone: bool)
    requires Agrees(s, l.owners)
    requires AccountOf(s, ZERO).tokenBalance > 0 <==> gone
    ensures PositiveAccounts(s) == Holders(l) + if gone then {ZERO} else {}
    ensures ZERO !in Holders(l)
  {
    forall a
      ensures a in PositiveAccounts(s) <==> AccountOf(s, a).tokenBalance > 0
      ensures a != ZERO ==> (a in Holders(l) <==> AccountOf(s, a).tokenBalance > 0)
    {
      HolderIff(l, a);
      if a != ZERO {
        assert AccountAgrees(s, l.owners, a);
      }
    }
    hide HeldIn, AccountOf, PositiveAccounts, AccountAgrees, ListsExactly;
  }

  // In any run without self-transfers the replayed log gives the contract's owners and balances. The
  // counter of live tokens is right; that of holders is one too high from the first transfer to the
  // zero address on.
  lemma IndexMatchesContract(w: World, moves: seq<Move>)
    requires Initial(w) && NoSelfTransfer(Play(w, moves).net.log)
    ensures var v := Play(w, moves); var s, l := Replay(v.net.log), v.net.token.ledger;
            && (forall id :: id in l.owners ==> id in s.nouns && s.nouns[id] == l.owners[id])
            && (forall a :: a != ZERO ==> AccountOf(s, a).tokenBalance == Balance(l, a))
            && (forall a :: a != ZERO ==> ListsExactly(AccountOf(s, a).nouns, Held(l, a)))
            && GovernanceOf(s).totalTokenHolders == |l.owners|
            && GovernanceOf(s).currentTokenHolders == |Holders(l)| + if GoesToZero(v.net.log) then 1 else 0
  {
    var v := Play(w, moves);
    var log, l := v.net.log, v.net.token.ledger;
    AlwaysTold(w, moves);
    InvariantHolds(w, moves);
    AgreesUpTo(log, |log|);
    assert log[..|log|] == log;
    hide Play, Replay, Money, Sequenced, HandsOff, FullyCounted, ListsExactly, TruthfulLog, OwnersOf;
    assert Counted(l);
    var s := Replay(log);
    forall a | a != ZERO
      ensures AccountOf(s, a).tokenBalance == Balance(l, a) && ListsExactly(AccountOf(s, a).nouns, Held(l, a))
    {
      assert AccountAgrees(s, l.owners, a);
      assert HeldIn(l.owners, a) == Held(l, a);
    }
    ZeroBalance(log);
    SomeZeroTransfer(log);
    hide GoesToZero, Holders, PositiveAccounts, AccountOf, ZeroTransfers;
    PositiveAreHolders(s, l, GoesToZero(log));
  }

  // The subgraph counts the contract's holders exactly as long as nothing has gone to the zero address.
  lemma HolderCountExact(w: World, moves: seq<Move>)
    requires Initial(w) && NoSelfTransfer(Play(w, moves).net.log)
    ensures var v := Play(w, moves);
            GovernanceOf(Replay(v.net.log)).currentTokenHolders == |Holders(v.net.token.ledger)| <==> !GoesToZero(v.net.log)
  {
    hide Play, Replay, GoesToZero, Holders, NoSelfTransfer;
    IndexMatchesContract(w, moves);
  }

  // The same run by run: the index agrees after every event exactly when the run makes no self-transfer.
  lemma RunIndexExact(w: World, moves: seq<Move>)
    requires Initial(w)
    ensures AgreesThroughout(Play(w, moves).net.log) <==> NoSelfTransfer(Play(w, moves).net.log)
    ensures OwnersOf(Play(w, moves).net.log) == Play(w, moves).net.token.ledger.owners
  {
    AlwaysTold(w, moves);
    IndexExact(Play(w, moves).net.log);
  }
}
