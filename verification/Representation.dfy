// Whom the subgraph takes to represent whom, as far as transfers alone decide it.
module Representation {
  import opened Wrappers
  import opened Chain
  import opened Subgraph
  import opened Ownership
  import opened IndexRuns

  // The nouns an account represents as a delegate.
  function RepresentedBy(s: Store, a: Address): seq<nat> {
    if a in s.delegates then s.delegates[a] else []
  }

  // An account with tokens is its own delegate, and represents just the nouns it holds.
  ghost predicate SelfRepresented(s: Store, a: Address) {
    var account := AccountOf(s, a);
    && account.delegate == (if account.tokenBalance > 0 then Some(a) else None)
    && (account.tokenBalance > 0 ==> a in s.delegates)
    && RepresentedBy(s, a) == account.nouns
  }

  // Everybody is; and no delegate has ever been counted.
  ghost predicate AllSelfRepresented(s: Store) {
    && (forall a :: a != ZERO ==> SelfRepresented(s, a))
    && GovernanceOf(s).totalDelegates == 0
  }

  // ----- One transfer

  lemma FromDelegates(s: Store, from: Address, holder: Account, g: Governance, id: nat)
    requires holder.delegate == Some(from) && from in s.delegates && holder.tokenBalance >= 1
    requires g.totalDelegates == 0 && GovernanceOf(s).totalDelegates == 0
    ensures var (s', g') := FromSide(s, from, holder, g, id);
            && s'.delegates == s.delegates[from := Without(s.delegates[from], id)]
            && from in s'.accounts && s'.accounts == s.accounts[from := s'.accounts[from]]
            && s'.accounts[from].tokenBalance == holder.tokenBalance - 1
            && s'.accounts[from].nouns == Without(holder.nouns, id)
            && s'.accounts[from].delegate == (if holder.tokenBalance > 1 then Some(from) else None)
            && g'.totalDelegates == 0 && GovernanceOf(s').totalDelegates == 0
  {
    hide Without;
  }

  lemma ToDelegates(s: Store, to: Address, holder: Account, g: Governance, id: nat)
    requires g.totalDelegates == 0 && GovernanceOf(s).totalDelegates == 0 && holder.tokenBalance >= 0
    requires to != ZERO && holder.tokenBalance > 0 ==> to in s.delegates
    ensures var s' := ToSide(s, to, holder, g, id);
            && s'.delegates == s.delegates[to := RepresentedBy(s, to) + [id]]
            && to in s'.accounts && s'.accounts == s.accounts[to := s'.accounts[to]]
            && s'.accounts[to].tokenBalance == holder.tokenBalance + 1
            && s'.accounts[to].nouns == holder.nouns + [id]
            && s'.accounts[to].delegate == (if holder.tokenBalance == 0 then Some(to) else holder.delegate)
            && GovernanceOf(s').totalDelegates == 0
  {
  }

  lemma LoadedRepresents(s: Store, from: Address, to: Address)
    ensures var loaded := WithAccount(WithAccount(s, from), to);
            && from in loaded.accounts && to in loaded.accounts
            && loaded.accounts[from] == AccountOf(s, from) && loaded.accounts[to] == AccountOf(s, to)
            && (forall a :: AccountOf(loaded, a) == AccountOf(s, a))
            && loaded.delegates == s.delegates && loaded.governance == s.governance
  {
    var loaded := WithAccount(WithAccount(s, from), to);
    LoadedSame(s, from, to);
    hide WithAccount;
    assert loaded.accounts[from] == AccountOf(loaded, from) && loaded.accounts[to] == AccountOf(loaded, to);
    LoadedDelegates(s, from, to);
    hide AccountOf;
  }

  lemma LoadedDelegates(s: Store, from: Address, to: Address)
    ensures WithAccount(WithAccount(s, from), to).delegates == s.delegates
  {
  }

  // What a transfer leaves of accounts and delegates.
  ghost predicate Hands(s: Store, s': Store, from: Address, to: Address, id: nat) {
    && (forall a :: a != from && a != to ==> AccountOf(s', a) == AccountOf(s, a) && RepresentedBy(s', a) == RepresentedBy(s, a))
    && (forall a :: a in s.delegates ==> a in s'.delegates)
    && (from != ZERO ==>
          && AccountOf(s', from).tokenBalance == AccountOf(s, from).tokenBalance - 1
          && AccountOf(s', from).nouns == Without(AccountOf(s, from).nouns, id)
          && RepresentedBy(s', from) == Without(RepresentedBy(s, from), id)
          && AccountOf(s', from).delegate == (if AccountOf(s, from).tokenBalance > 1 then Some(from) else None))
    && (to != ZERO ==>
          && AccountOf(s', to).tokenBalance == AccountOf(s, to).tokenBalance + 1
          && AccountOf(s', to).nouns == AccountOf(s, to).nouns + [id]
          && RepresentedBy(s', to) == RepresentedBy(s, to) + [id] && to in s'.delegates
          && AccountOf(s', to).delegate == (if AccountOf(s, to).tokenBalance == 0 then Some(to) else AccountOf(s, to).delegate))
    && GovernanceOf(s').totalDelegates == 0
  }

  // What a store holds once the sender's half is done.
  ghost predicate HandedOff(s: Store, s1: Store, from: Address, to: Address, id: nat) {
    && (forall a :: a != from && a != to ==> AccountOf(s1, a) == AccountOf(s, a))
    && if from == ZERO then s1.delegates == s.delegates
       else
         && from in s.delegates
         && s1.delegates == s.delegates[from := Without(s.delegates[from], id)]
         && AccountOf(s1, from).tokenBalance == AccountOf(s, from).tokenBalance - 1
         && AccountOf(s1, from).nouns == Without(AccountOf(s, from).nouns, id)
         && AccountOf(s1, from).delegate == (if AccountOf(s, from).tokenBalance > 1 then Some(from) else None)
  }

  lemma TakenUp(s: Store, s1: Store, s': Store, from: Address, to: Address, id: nat)
    requires HandedOff(s, s1, from, to, id) && (from != to || from == ZERO)
    requires s'.delegates == s1.delegates[to := RepresentedBy(s1, to) + [id]]
    requires to in s'.accounts && s'.accounts == s1.accounts[to := s'.accounts[to]]
    requires s'.accounts[to].tokenBalance == AccountOf(s, to).tokenBalance + 1
    requires s'.accounts[to].nouns == AccountOf(s, to).nouns + [id]
    requires s'.accounts[to].delegate == (if AccountOf(s, to).tokenBalance == 0 then Some(to) else AccountOf(s, to).delegate)
    requires GovernanceOf(s').totalDelegates == 0
    ensures Hands(s, s', from, to, id)
  {
    hide Without, GovernanceOf;
    OthersKept(s1, s', to);
  }

  lemma MintHands(s: Store, to: Address, id: nat)
    requires AllSelfRepresented(s) && AccountOf(s, to).tokenBalance >= 0
    ensures Hands(s, On(s, Transfer(ZERO, to, id)), ZERO, to, id)
  {
    LoadedRepresents(s, ZERO, to);
    assert to != ZERO ==> SelfRepresented(s, to);
    var loaded := WithAccount(WithAccount(s, ZERO), to);
    var g := GovernanceOf(loaded);
    var g1 := g.(totalTokenHolders := g.totalTokenHolders + 1);
    var s1 := loaded.(governance := Some(g1));
    assert forall a :: AccountOf(s1, a) == AccountOf(loaded, a);
    assert On(s, Transfer(ZERO, to, id)) == ToSide(s1, to, loaded.accounts[to], g1, id);
    hide ToSide, On, WithAccount, AllSelfRepresented, Hands, AccountOf;
    ToDelegates(s1, to, loaded.accounts[to], g1, id);
    TakenUp(s, s1, ToSide(s1, to, loaded.accounts[to], g1, id), ZERO, to, id);
  }

  lemma MoveHands(s: Store, from: Address, to: Address, id: nat)
    requires AllSelfRepresented(s) && from != ZERO && from != to
    requires AccountOf(s, from).tokenBalance >= 1 && AccountOf(s, to).tokenBalance >= 0
    ensures Hands(s, On(s, Transfer(from, to, id)), from, to, id)
  {
    LoadedRepresents(s, from, to);
    assert SelfRepresented(s, from);
    assert to != ZERO ==> SelfRepresented(s, to);
    var loaded := WithAccount(WithAccount(s, from), to);
    var g := GovernanceOf(loaded);
    FromDelegates(loaded, from, loaded.accounts[from], g, id);
    var sent := FromSide(loaded, from, loaded.accounts[from], g, id);
    assert On(s, Transfer(from, to, id)) == ToSide(sent.0, to, loaded.accounts[to], sent.1, id);
    hide FromSide, ToSide, On, WithAccount, Without, AllSelfRepresented, Hands;
    OthersKept(loaded, sent.0, from);
    hide AccountOf;
    ToDelegates(sent.0, to, loaded.accounts[to], sent.1, id);
    TakenUp(s, sent.0, ToSide(sent.0, to, loaded.accounts[to], sent.1, id), from, to, id);
  }

  lemma HandsRepresent(s: Store, s': Store, from: Address, to: Address, id: nat)
    requires AllSelfRepresented(s) && Hands(s, s', from, to, id)
    requires from != to || from == ZERO
    requires forall a :: a != ZERO ==> AccountOf(s, a).tokenBalance >= 0
    requires from != ZERO ==> AccountOf(s, from).tokenBalance >= 1
    ensures AllSelfRepresented(s')
  {
    hide Without;
    forall a | a != ZERO
      ensures SelfRepresented(s', a)
    {
      assert SelfRepresented(s, a);
    }
  }

  lemma QuietRepresents(s: Store, e: Event)
    requires AllSelfRepresented(s) && !e.Transfer?
    ensures AllSelfRepresented(On(s, e))
  {
    var s' := On(s, e);
    assert s'.delegates == s.delegates && s'.governance == s.governance;
    forall a | a != ZERO
      ensures SelfRepresented(s', a)
    {
      assert SelfRepresented(s, a);
      assert AccountOf(s', a) == AccountOf(s, a);
    }
  }

  lemma BalancesCount(s: Store, owners: map<nat, Address>, e: Event)
    requires Agrees(s, owners) && Truthful(owners, e) && e.Transfer?
    ensures forall a :: AccountOf(s, a).tokenBalance >= 0
    ensures e.from != ZERO ==> AccountOf(s, e.from).tokenBalance >= 1
  {
    hide ListsExactly;
    HolderBalance(s, owners, e.from, e.to, e.id);
    forall a
      ensures AccountOf(s, a).tokenBalance >= 0
    {
      assert a != ZERO ==> AccountAgrees(s, owners, a);
    }
  }

  lemma EventRepresents(s: Store, owners: map<nat, Address>, e: Event)
    requires AllSelfRepresented(s) && Agrees(s, owners) && Truthful(owners, e) && !SelfTransfer(e)
    ensures AllSelfRepresented(On(s, e))
  {
    hide Agrees, Hands, AllSelfRepresented, On;
    if e.Transfer? {
      BalancesCount(s, owners, e);
      if e.from == ZERO {
        MintHands(s, e.to, e.id);
      } else {
        MoveHands(s, e.from, e.to, e.id);
      }
      HandsRepresent(s, On(s, e), e.from, e.to, e.id);
    } else {
      QuietRepresents(s, e);
    }
  }

  // As long as transfers alone are indexed, and no account transfers to itself, every account with
  // tokens is its own delegate and represents exactly the nouns listed for it. The counter of delegates
  // never moves: each new one is counted, and the count then overwritten with an older copy.
  lemma {:induction false} RepresentationExact(log: seq<Event>)
    requires TruthfulLog(log) && NoSelfTransfer(log)
    ensures AllSelfRepresented(Replay(log))
  {
    if log == [] {
      forall a
        ensures SelfRepresented(EMPTY, a)
      {
      }
    } else {
      hide AllSelfRepresented, On, Agrees, Truthful, SelfTransfer;
      var k := |log| - 1;
      FrontTruthful(log);
      RepresentationExact(log[..k]);
      AgreesUpTo(log, k);
      EventRepresents(Replay(log[..k]), OwnersOf(log[..k]), log[k]);
    }
  }

  lemma FrontTruthful(log: seq<Event>)
    requires TruthfulLog(log) && NoSelfTransfer(log) && log != []
    ensures var k := |log| - 1; TruthfulLog(log[..k]) && NoSelfTransfer(log[..k])
  {
    hide OwnersOf, Truthful;
    var k := |log| - 1;
    forall i | 0 <= i < k
      ensures Truthful(OwnersOf(log[..k][..i]), log[..k][i])
    {
      assert log[..k][..i] == log[..i];
    }
  }
}
