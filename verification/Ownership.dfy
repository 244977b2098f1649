// The indexer's owners, balances, noun lists and holder counters against the token contract.
module Ownership {
  import opened Wrappers
  import opened Chain
  import opened Ledger
  import opened Subgraph

  // ----- Owners according to the log

  function OwnerIn(owners: map<nat, Address>, id: nat): Address {
    if id in owners then owners[id] else ZERO
  }

  function Moved(owners: map<nat, Address>, to: Address, id: nat): map<nat, Address> {
    if to == ZERO then owners - {id} else owners[id := to]
  }

  function After(owners: map<nat, Address>, e: Event): map<nat, Address> {
    if e.Transfer? then Moved(owners, e.to, e.id) else owners
  }

  function OwnersOf(log: seq<Event>): map<nat, Address> {
    if log == [] then map[] else After(OwnersOf(log[..|log| - 1]), log[|log| - 1])
  }

  // A transfer names the owner of the moment, the zero address for a token that does not exist.
  predicate Truthful(owners: map<nat, Address>, e: Event) {
    e.Transfer? ==> e.from == OwnerIn(owners, e.id)
  }

  ghost predicate TruthfulLog(log: seq<Event>) {
    forall i :: 0 <= i < |log| ==> Truthful(OwnersOf(log[..i]), log[i])
  }

  predicate SelfTransfer(e: Event) {
    e.Transfer? && e.from == e.to && e.from != ZERO
  }

  // ----- Agreement

  ghost function HeldIn(owners: map<nat, Address>, a: Address): set<nat> {
    set id | id in owners && owners[id] == a
  }

  ghost predicate ListsExactly(nouns: seq<nat>, held: set<nat>) {
    && NoRepeats(nouns)
    && (forall id :: id in nouns <==> id in held)
  }

  function AccountOf(s: Store, a: Address): Account {
    if a in s.accounts then s.accounts[a] else NEW_ACCOUNT
  }

  ghost function PositiveAccounts(s: Store): set<Address> {
    set a | a in s.accounts && s.accounts[a].tokenBalance > 0
  }

  // An account's balance and noun list are what it owns.
  ghost predicate AccountAgrees(s: Store, owners: map<nat, Address>, a: Address) {
    && AccountOf(s, a).tokenBalance == |HeldIn(owners, a)|
    && ListsExactly(AccountOf(s, a).nouns, HeldIn(owners, a))
  }

  ghost predicate Agrees(s: Store, owners: map<nat, Address>) {
    && (forall id :: id in owners ==> owners[id] != ZERO && id in s.nouns)
    && (forall id :: id in s.nouns ==> s.nouns[id] == OwnerIn(owners, id))
    && (forall a :: a != ZERO ==> AccountAgrees(s, owners, a))
    && AccountOf(s, ZERO).tokenBalance >= 0
    && GovernanceOf(s).totalTokenHolders == |owners|
    && GovernanceOf(s).currentTokenHolders == |PositiveAccounts(s)|
  }

  // ----- One handler at a time

  lemma {:induction false} WithoutExact(nouns: seq<nat>, id: nat)
    ensures forall x :: x in Without(nouns, id) <==> x in nouns && x != id
    ensures NoRepeats(nouns) ==> NoRepeats(Without(nouns, id))
  {
    if nouns != [] {
      var k := |nouns| - 1;
      var front, kept := nouns[..k], Without(nouns[..k], id);
      WithoutExact(front, id);
      assert nouns == front + [nouns[k]];
      assert Without(nouns, id) == kept + if nouns[k] != id then [nouns[k]] else [];
      hide Without;
      if NoRepeats(nouns) {
        assert NoRepeats(front);
        assert nouns[k] !in front;
        assert nouns[k] !in kept;
      }
    }
  }

  lemma WithAccountSame(s: Store, a: Address)
    ensures forall b :: AccountOf(WithAccount(s, a), b) == AccountOf(s, b)
    ensures PositiveAccounts(WithAccount(s, a)) == PositiveAccounts(s)
  {
    var p, p' := PositiveAccounts(s), PositiveAccounts(WithAccount(s, a));
    assert forall b :: b in p <==> AccountOf(s, b).tokenBalance > 0;
    assert forall b :: b in p' <==> AccountOf(WithAccount(s, a), b).tokenBalance > 0;
  }

  lemma WithAccountAgrees(s: Store, owners: map<nat, Address>, a: Address)
    requires Agrees(s, owners)
    ensures Agrees(WithAccount(s, a), owners)
  {
    WithAccountSame(s, a);
    assert WithAccount(s, a).governance == s.governance && WithAccount(s, a).nouns == s.nouns;
    hide WithAccount, AccountOf, HeldIn, ListsExactly, PositiveAccounts;
    forall b | b != ZERO
      ensures AccountAgrees(WithAccount(s, a), owners, b)
    {
      assert AccountAgrees(s, owners, b);
    }
  }

  lemma WithDelegateKeeps(s: Store, d: Address)
    ensures var s' := WithDelegate(s, d);
            && s'.accounts == s.accounts && s'.nouns == s.nouns && s'.auctions == s.auctions
            && GovernanceOf(s').totalTokenHolders == GovernanceOf(s).totalTokenHolders
            && GovernanceOf(s').currentTokenHolders == GovernanceOf(s).currentTokenHolders
            && GovernanceOf(s').totalDelegates == GovernanceOf(s).totalDelegates + (if d != ZERO && d !in s.delegates then 1 else 0)
            && (d == ZERO ==> s'.governance == s.governance)
  {
  }

  function One(hit: bool): int {
    if hit then 1 else 0
  }

  // What the transfer handler leaves in the store, for any store and any transfer.
  ghost predicate Leaves(s: Store, s': Store, from: Address, to: Address, id: nat) {
    && s'.nouns == s.nouns[id := to]
    && s'.auctions == s.auctions
    && (forall a :: a != to && (a != from || from == ZERO) ==> AccountOf(s', a) == AccountOf(s, a))
    && AccountOf(s', to).tokenBalance == AccountOf(s, to).tokenBalance + 1
    && AccountOf(s', to).totalTokensHeld == AccountOf(s, to).totalTokensHeld + 1
    && AccountOf(s', to).nouns == AccountOf(s, to).nouns + [id]
    && (from != to && from != ZERO ==>
          && AccountOf(s', from).totalTokensHeld == AccountOf(s, from).totalTokensHeld
          && AccountOf(s', from).tokenBalance == AccountOf(s, from).tokenBalance - 1
          && AccountOf(s', from).nouns == Without(AccountOf(s, from).nouns, id))
    && GovernanceOf(s').totalTokenHolders == GovernanceOf(s).totalTokenHolders + One(from == ZERO) - One(to == ZERO)
    && GovernanceOf(s').currentTokenHolders == GovernanceOf(s).currentTokenHolders
         - One(from != ZERO && AccountOf(s, from).tokenBalance == 1) + One(AccountOf(s, to).tokenBalance == 0)
  }

  lemma LoadedSame(s: Store, from: Address, to: Address)
    ensures var loaded := WithAccount(WithAccount(s, from), to);
            && from in loaded.accounts && to in loaded.accounts
            && (forall a :: AccountOf(loaded, a) == AccountOf(s, a))
            && loaded.nouns == s.nouns && loaded.auctions == s.auctions && loaded.governance == s.governance
  {
  }

  lemma MintEffect(s: Store, to: Address, id: nat)
    ensures Leaves(s, OnTransfer(s, ZERO, to, id), ZERO, to, id)
  {
    LoadedSame(s, ZERO, to);
    var loaded := WithAccount(WithAccount(s, ZERO), to);
    var g := GovernanceOf(loaded);
    var g1 := g.(totalTokenHolders := g.totalTokenHolders + 1);
    var s1 := loaded.(governance := Some(g1));
    ToSideEffect(s1, to, loaded.accounts[to], g1, id);
    var s' := ToSide(s1, to, loaded.accounts[to], g1, id);
    assert OnTransfer(s, ZERO, to, id) == s';
    hide ToSide, OnTransfer, WithAccount;
    assert AccountOf(loaded, to) == loaded.accounts[to];
    OthersKept(loaded, s', to);
    hide AccountOf;
  }

  lemma OthersKept(s: Store, s': Store, to: Address)
    requires to in s'.accounts && s'.accounts == s.accounts[to := s'.accounts[to]]
    ensures forall a :: a != to ==> AccountOf(s', a) == AccountOf(s, a)
    ensures AccountOf(s', to) == s'.accounts[to]
  {
  }

  lemma MoveEffect(s: Store, from: Address, to: Address, id: nat)
    requires from != ZERO
    ensures Leaves(s, OnTransfer(s, from, to, id), from, to, id)
  {
    LoadedSame(s, from, to);
    var loaded := WithAccount(WithAccount(s, from), to);
    var g := GovernanceOf(loaded);
    FromSideEffect(loaded, from, loaded.accounts[from], g, id);
    var sent := FromSide(loaded, from, loaded.accounts[from], g, id);
    ToSideEffect(sent.0, to, loaded.accounts[to], sent.1, id);
    var s' := ToSide(sent.0, to, loaded.accounts[to], sent.1, id);
    assert OnTransfer(s, from, to, id) == s';
    hide FromSide, ToSide, OnTransfer, WithAccount, Without;
    assert AccountOf(loaded, to) == loaded.accounts[to] && AccountOf(loaded, from) == loaded.accounts[from];
    forall a | a != to && a != from
      ensures AccountOf(s', a) == AccountOf(s, a)
    {
      assert AccountOf(s', a) == AccountOf(sent.0, a) == AccountOf(loaded, a);
    }
  }

  lemma TransferEffect(s: Store, from: Address, to: Address, id: nat)
    ensures Leaves(s, OnTransfer(s, from, to, id), from, to, id)
  {
    hide Leaves, OnTransfer;
    if from == ZERO { MintEffect(s, to, id); } else { MoveEffect(s, from, to, id); }
  }

  ghost predicate SameCounters(a: Governance, b: Governance) {
    a.totalTokenHolders == b.totalTokenHolders && a.currentTokenHolders == b.currentTokenHolders
  }

  lemma FromSideEffect(s: Store, from: Address, holder: Account, g: Governance, id: nat)
    requires SameCounters(g, GovernanceOf(s))
    ensures var (s', g') := FromSide(s, from, holder, g, id);
            && s'.nouns == s.nouns && s'.auctions == s.auctions
            && from in s'.accounts
            && s'.accounts == s.accounts[from := s'.accounts[from]]
            && s'.accounts[from].tokenBalance == holder.tokenBalance - 1
            && s'.accounts[from].totalTokensHeld == holder.totalTokensHeld
            && s'.accounts[from].nouns == Without(holder.nouns, id)
            && SameCounters(g', GovernanceOf(s'))
            && g'.totalTokenHolders == g.totalTokenHolders
            && g'.currentTokenHolders == g.currentTokenHolders - One(holder.tokenBalance == 1)
  {
    hide Without;
    if holder.delegate.Some? {
      WithDelegateKeeps(s, holder.delegate.value);
      hide WithDelegate;
    }
  }

  lemma ToSideEffect(s: Store, to: Address, holder: Account, g: Governance, id: nat)
    requires SameCounters(g, GovernanceOf(s))
    ensures var s' := ToSide(s, to, holder, g, id);
            && s'.nouns == s.nouns[id := to] && s'.auctions == s.auctions
            && to in s'.accounts
            && s'.accounts == s.accounts[to := s'.accounts[to]]
            && s'.accounts[to].tokenBalance == holder.tokenBalance + 1
            && s'.accounts[to].totalTokensHeld == holder.totalTokensHeld + 1
            && s'.accounts[to].nouns == holder.nouns + [id]
            && GovernanceOf(s').totalTokenHolders == g.totalTokenHolders - One(to == ZERO)
            && GovernanceOf(s').currentTokenHolders == g.currentTokenHolders + One(holder.tokenBalance == 0)
  {
    var g1 := if to == ZERO then g.(totalTokenHolders := g.totalTokenHolders - 1) else g;
    var s1 := if to == ZERO then s.(governance := Some(g1)) else s;
    WithDelegateKeeps(s1, to);
    hide WithDelegate;
  }

  lemma MovedHeld(owners: map<nat, Address>, from: Address, to: Address, id: nat, a: Address)
    requires from == OwnerIn(owners, id) && a != ZERO
    requires forall i :: i in owners ==> owners[i] != ZERO
    ensures var held, held' := HeldIn(owners, a), HeldIn(Moved(owners, to, id), a);
            held' == if a == to then held + {id} else if a == from then held - {id} else held
    ensures a == from <==> id in HeldIn(owners, a)
  {
  }

  lemma ListsGain(nouns: seq<nat>, held: set<nat>, id: nat)
    requires ListsExactly(nouns, held) && id !in held
    ensures ListsExactly(nouns + [id], held + {id})
  {
  }

  lemma ListsLose(nouns: seq<nat>, held: set<nat>, id: nat)
    requires ListsExactly(nouns, held)
    ensures ListsExactly(Without(nouns, id), held - {id})
  {
    WithoutExact(nouns, id);
    hide Without;
  }

  // Away from self-transfers, every account's entity follows its tokens.
  lemma AccountFollows(s: Store, s': Store, owners: map<nat, Address>, from: Address, to: Address, id: nat, a: Address)
    requires AccountAgrees(s, owners, a) && Leaves(s, s', from, to, id)
    requires forall i :: i in owners ==> owners[i] != ZERO
    requires from == OwnerIn(owners, id) && from != to && a != ZERO
    ensures AccountAgrees(s', Moved(owners, to, id), a)
  {
    MovedHeld(owners, from, to, id, a);
    hide Moved, HeldIn, ListsExactly, Without, OwnerIn, AccountOf;
    var nouns, held := AccountOf(s, a).nouns, HeldIn(owners, a);
    if a == to {
      ListsGain(nouns, held, id);
    } else if a == from {
      ListsLose(nouns, held, id);
    }
  }

  // One member goes, another comes.
  lemma Swapped(p: set<Address>, p': set<Address>, gone: set<Address>, to: Address)
    requires gone <= p && |gone| <= 1 && p' == (p - gone) + {to}
    ensures |p'| == |p| - |gone| + One(to !in p - gone)
  {
    var stay := p - gone;
    assert p == stay + gone;
    if to in stay {
      assert stay + {to} == stay;
    }
  }

  lemma PositiveSets(s: Store, s': Store, from: Address, to: Address, id: nat)
    requires Leaves(s, s', from, to, id)
    requires from == to ==> from == ZERO
    requires from != ZERO ==> AccountOf(s, from).tokenBalance >= 1
    requires AccountOf(s, to).tokenBalance >= 0
    ensures var gone := if from != ZERO && AccountOf(s, from).tokenBalance == 1 then {from} else {};
            PositiveAccounts(s') == (PositiveAccounts(s) - gone) + {to} && gone <= PositiveAccounts(s)
  {
    hide Without;
    assert forall a :: a in PositiveAccounts(s) <==> AccountOf(s, a).tokenBalance > 0;
    assert forall a :: a in PositiveAccounts(s') <==> AccountOf(s', a).tokenBalance > 0;
    hide PositiveAccounts, AccountOf;
  }

  lemma PositiveFollows(s: Store, s': Store, from: Address, to: Address, id: nat)
    requires Leaves(s, s', from, to, id)
    requires from == to ==> from == ZERO
    requires from != ZERO ==> AccountOf(s, from).tokenBalance >= 1
    requires AccountOf(s, to).tokenBalance >= 0
    ensures |PositiveAccounts(s')| == |PositiveAccounts(s)|
              - One(from != ZERO && AccountOf(s, from).tokenBalance == 1) + One(AccountOf(s, to).tokenBalance == 0)
  {
    PositiveSets(s, s', from, to, id);
    assert to in PositiveAccounts(s) <==> AccountOf(s, to).tokenBalance > 0;
    hide Leaves, PositiveAccounts, AccountOf;
    var gone := if from != ZERO && AccountOf(s, from).tokenBalance == 1 then {from} else {};
    Swapped(PositiveAccounts(s), PositiveAccounts(s'), gone, to);
  }

  lemma MovedCount(owners: map<nat, Address>, to: Address, id: nat)
    ensures |Moved(owners, to, id)| == |owners| + One(id !in owners) - One(to == ZERO)
  {
    var owners' := Moved(owners, to, id);
    if to == ZERO {
      assert owners'.Keys == owners.Keys - {id};
    } else {
      assert owners'.Keys == owners.Keys + {id};
    }
  }

  lemma ZeroLoopAgrees(s: Store, s': Store, owners: map<nat, Address>, id: nat)
    requires Agrees(s, owners) && Leaves(s, s', ZERO, ZERO, id) && id !in owners
    ensures Agrees(s', owners)
  {
    hide HeldIn, ListsExactly;
    PositiveFollows(s, s', ZERO, ZERO, id);
    forall a | a != ZERO
      ensures AccountAgrees(s', owners, a)
    {
      assert AccountAgrees(s, owners, a);
    }
  }

  lemma PlainTransferAgrees(s: Store, s': Store, owners: map<nat, Address>, from: Address, to: Address, id: nat)
    requires Agrees(s, owners) && Leaves(s, s', from, to, id)
    requires from == OwnerIn(owners, id) && from != to
    ensures Agrees(s', Moved(owners, to, id))
  {
    hide Leaves, AccountAgrees, Moved;
    var owners' := Moved(owners, to, id);
    forall a | a != ZERO
      ensures AccountAgrees(s', owners', a)
    {
      AccountFollows(s, s', owners, from, to, id, a);
    }
    HolderBalance(s, owners, from, to, id);
    PositiveFollows(s, s', from, to, id);
    MovedCount(owners, to, id);
    PlainTransferNouns(s, s', owners, from, to, id);
    CountersLeft(s, s', from, to, id);
    assert id in owners <==> from != ZERO;
  }

  lemma HolderBalance(s: Store, owners: map<nat, Address>, from: Address, to: Address, id: nat)
    requires Agrees(s, owners) && from == OwnerIn(owners, id)
    ensures from != ZERO ==> AccountOf(s, from).tokenBalance >= 1
    ensures AccountOf(s, to).tokenBalance >= 0
  {
    hide ListsExactly;
    assert to != ZERO ==> AccountAgrees(s, owners, to);
    if from != ZERO {
      assert AccountAgrees(s, owners, from);
      var held := HeldIn(owners, from);
      assert id in held;
      assert |held| == |held - {id}| + 1;
    }
  }

  lemma PlainTransferNouns(s: Store, s': Store, owners: map<nat, Address>, from: Address, to: Address, id: nat)
    requires Agrees(s, owners) && Leaves(s, s', from, to, id)
    ensures var owners' := Moved(owners, to, id);
            && (forall i :: i in owners' ==> owners'[i] != ZERO && i in s'.nouns)
            && (forall i :: i in s'.nouns ==> s'.nouns[i] == OwnerIn(owners', i))
  {
    hide AccountAgrees, PositiveAccounts;
  }

  lemma CountersLeft(s: Store, s': Store, from: Address, to: Address, id: nat)
    requires Leaves(s, s', from, to, id)
    ensures GovernanceOf(s').totalTokenHolders == GovernanceOf(s).totalTokenHolders + One(from == ZERO) - One(to == ZERO)
    ensures GovernanceOf(s').currentTokenHolders == GovernanceOf(s).currentTokenHolders
              - One(from != ZERO && AccountOf(s, from).tokenBalance == 1) + One(AccountOf(s, to).tokenBalance == 0)
    ensures AccountOf(s, ZERO).tokenBalance >= 0 ==> AccountOf(s', ZERO).tokenBalance >= 0
  {
  }

  // One truthful transfer keeps the index in agreement exactly when it is not a self-transfer.
  lemma TransferAgreesExact(s: Store, owners: map<nat, Address>, e: Event)
    requires Agrees(s, owners) && e.Transfer? && Truthful(owners, e)
    ensures Agrees(On(s, e), After(owners, e)) <==> !SelfTransfer(e)
  {
    hide OnTransfer, Leaves, ListsExactly, HeldIn;
    var Transfer(from, to, id) := e;
    var s' := On(s, e);
    TransferEffect(s, from, to, id);
    if from != to {
      PlainTransferAgrees(s, s', owners, from, to, id);
    } else if from == ZERO {
      assert Moved(owners, to, id) == owners;
      ZeroLoopAgrees(s, s', owners, id);
    } else {
      assert Moved(owners, to, id) == owners;
      assert AccountAgrees(s, owners, from);
      SelfTransferBalance(s, s', from, id);
      assert !AccountAgrees(s', owners, from);
    }
  }

  lemma SelfTransferBalance(s: Store, s': Store, a: Address, id: nat)
    requires Leaves(s, s', a, a, id)
    ensures AccountOf(s', a).tokenBalance == AccountOf(s, a).tokenBalance + 1
  {
  }

  // ----- Tokens ever held

  function TransfersTo(log: seq<Event>, a: Address): nat {
    if log == [] then 0
    else
      var e := log[|log| - 1];
      TransfersTo(log[..|log| - 1], a) + if e.Transfer? && e.to == a then 1 else 0
  }

  lemma TotalStep(s: Store, e: Event, a: Address)
    ensures AccountOf(On(s, e), a).totalTokensHeld == AccountOf(s, a).totalTokensHeld + if e.Transfer? && e.to == a then 1 else 0
  {
    if e.Transfer? {
      hide OnTransfer, Without;
      TransferEffect(s, e.from, e.to, e.id);
    }
  }

  // Over any log at all an account's total counts the transfers to it.
  lemma {:induction false} TotalHeldExact(log: seq<Event>, a: Address)
    ensures AccountOf(Replay(log), a).totalTokensHeld == TransfersTo(log, a)
  {
    hide On, AccountOf;
    if log == [] {
      NothingHeld(a);
    } else {
      var k := |log| - 1;
      TotalHeldExact(log[..k], a);
      TotalStep(Replay(log[..k]), log[k], a);
    }
  }

  lemma NothingHeld(a: Address)
    ensures AccountOf(EMPTY, a) == NEW_ACCOUNT
  {
  }

  // ----- Who has an account

  predicate Mentions(e: Event, a: Address) {
    (e.Transfer? && (e.from == a || e.to == a)) || (e.AuctionBid? && e.sender == a)
  }

  lemma AccountStep(s: Store, e: Event, a: Address)
    ensures a in On(s, e).accounts <==> a in s.accounts || Mentions(e, a)
  {
    if e.Transfer? {
      TransferAccounts(s, e.from, e.to, e.id, a);
    }
  }

  lemma TransferAccounts(s: Store, from: Address, to: Address, id: nat, a: Address)
    ensures a in OnTransfer(s, from, to, id).accounts <==> a in s.accounts || a == from || a == to
  {
    LoadedAccounts(s, from, to);
    hide WithAccount, FromSide, ToSide, GovernanceOf;
    var loaded := WithAccount(WithAccount(s, from), to);
    var fromHolder, toHolder, g := loaded.accounts[from], loaded.accounts[to], GovernanceOf(loaded);
    if from == ZERO {
      var g1 := g.(totalTokenHolders := g.totalTokenHolders + 1);
      ToSideAccounts(loaded.(governance := Some(g1)), to, toHolder, g1, id);
    } else {
      FromSideAccounts(loaded, from, fromHolder, g, id);
      var sent := FromSide(loaded, from, fromHolder, g, id);
      ToSideAccounts(sent.0, to, toHolder, sent.1, id);
    }
  }

  lemma LoadedAccounts(s: Store, from: Address, to: Address)
    ensures WithAccount(WithAccount(s, from), to).accounts.Keys == s.accounts.Keys + {from, to}
  {
  }

  lemma FromSideAccounts(s: Store, from: Address, holder: Account, g: Governance, id: nat)
    ensures FromSide(s, from, holder, g, id).0.accounts.Keys == s.accounts.Keys + {from}
  {
    hide Without;
  }

  lemma ToSideAccounts(s: Store, to: Address, holder: Account, g: Governance, id: nat)
    ensures ToSide(s, to, holder, g, id).accounts.Keys == s.accounts.Keys + {to}
  {
  }

  // Over any log, the accounts kept are those that sent or received a token or made a bid.
  lemma {:induction false} AccountsExact(log: seq<Event>, a: Address)
    ensures a in Replay(log).accounts <==> exists e <- log :: Mentions(e, a)
  {
    if log != [] {
      var k := |log| - 1;
      AccountsExact(log[..k], a);
      AccountStep(Replay(log[..k]), log[k], a);
      hide On, Mentions, Replay;
      LastOrBefore(log, a);
    }
  }

  lemma LastOrBefore(log: seq<Event>, a: Address)
    requires log != []
    ensures var k := |log| - 1; (exists e <- log :: Mentions(e, a)) <==> Mentions(log[k], a) || exists e <- log[..k] :: Mentions(e, a)
  {
    hide Mentions;
    var k := |log| - 1;
    assert forall e :: e in log <==> e in log[..k] || e == log[k];
  }

  // ----- Which auctions are kept

  // The noun was minted, or moved, earlier in the log.
  ghost predicate SeenBefore(log: seq<Event>, k: nat, id: nat) {
    exists j :: 0 <= j < k && j < |log| && log[j].Transfer? && log[j].id == id
  }

  ghost predicate OpenedAt(log: seq<Event>, k: nat, id: nat) {
    k < |log| && log[k].AuctionCreated? && log[k].nounId == id && SeenBefore(log, k, id)
  }

  lemma NounStep(s: Store, e: Event, id: nat)
    ensures id in On(s, e).nouns <==> id in s.nouns || (e.Transfer? && e.id == id)
    ensures id in On(s, e).auctions <==> id in s.auctions || (e.AuctionCreated? && e.nounId == id && id in s.nouns)
  {
    if e.Transfer? {
      hide OnTransfer, Without;
      TransferEffect(s, e.from, e.to, e.id);
    }
  }

  lemma {:induction false} NounsExact(log: seq<Event>, id: nat)
    ensures id in Replay(log).nouns <==> SeenBefore(log, |log|, id)
  {
    if log != [] {
      var k := |log| - 1;
      NounsExact(log[..k], id);
      NounStep(Replay(log[..k]), log[k], id);
      hide On;
      if SeenBefore(log[..k], k, id) {
        var j :| 0 <= j < k && log[..k][j].Transfer? && log[..k][j].id == id;
        assert log[j] == log[..k][j];
      }
      if SeenBefore(log, |log|, id) && !(log[k].Transfer? && log[k].id == id) {
        var j :| 0 <= j < |log| && log[j].Transfer? && log[j].id == id;
        assert log[..k][j] == log[j];
      }
    }
  }

  ghost predicate EverOpened(log: seq<Event>, id: nat) {
    exists k: nat :: OpenedAt(log, k, id)
  }

  lemma OpenedSnoc(log: seq<Event>, id: nat)
    requires log != []
    ensures var k := |log| - 1;
            EverOpened(log, id) <==> EverOpened(log[..k], id) || (log[k].AuctionCreated? && log[k].nounId == id && SeenBefore(log[..k], k, id))
  {
    var k := |log| - 1;
    SameBefore(log, k, k, id);
    if EverOpened(log, id) {
      var i: nat :| OpenedAt(log, i, id);
      SameBefore(log, k, i, id);
      assert i < k ==> OpenedAt(log[..k], i, id);
    }
    if EverOpened(log[..k], id) {
      var i: nat :| OpenedAt(log[..k], i, id);
      SameBefore(log, k, i, id);
      assert OpenedAt(log, i, id);
    }
    if log[k].AuctionCreated? && log[k].nounId == id && SeenBefore(log[..k], k, id) {
      assert OpenedAt(log, k, id);
    }
  }

  // Over any log, an auction is kept exactly when one was created for its noun after the noun was seen;
  // what is said of any other is dropped.
  lemma {:induction false} AuctionsExact(log: seq<Event>, id: nat)
    ensures id in Replay(log).auctions <==> EverOpened(log, id)
  {
    if log != [] {
      var k := |log| - 1;
      AuctionsExact(log[..k], id);
      NounsExact(log[..k], id);
      NounStep(Replay(log[..k]), log[k], id);
      hide On, EverOpened, SeenBefore;
      OpenedSnoc(log, id);
    }
  }

  lemma SameBefore(log: seq<Event>, k: nat, i: nat, id: nat)
    requires i <= k < |log|
    ensures SeenBefore(log[..k], i, id) <==> SeenBefore(log, i, id)
  {
    if SeenBefore(log, i, id) {
      var j :| 0 <= j < i && log[j].Transfer? && log[j].id == id;
      assert log[..k][j] == log[j];
    }
    if SeenBefore(log[..k], i, id) {
      var j :| 0 <= j < i && log[..k][j].Transfer? && log[..k][j].id == id;
      assert log[..k][j] == log[j];
    }
  }
}
