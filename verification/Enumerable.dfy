// The token lists of packages/nouns-contracts/contracts/base/ERC721Enumerable.sol, kept by
// swapping the last entry into a gap, against the ledger they index.
module Enumerable {
  import opened Chain
  import opened Ledger
  import opened Votes
  import opened Token
  import opened TokenRuns

  // A missing entry reads as 0.
  datatype Listing = Listing(owned: map<(Address, nat), nat>, ownedIndex: map<nat, nat>, all: seq<nat>, allIndex: map<nat, nat>)

  function At<K>(m: map<K, nat>, key: K): nat {
    if key in m then m[key] else 0
  }

  function AddToOwner(e: Listing, l: Ledger, to: Address, id: nat): Listing {
    var length := Balance(l, to);
    e.(ownedIndex := e.ownedIndex[id := length], owned := e.owned[(to, length) := id])
  }

  function AddToAll(e: Listing, id: nat): Listing {
    e.(allIndex := e.allIndex[id := |e.all|], all := e.all + [id])
  }

  function RemoveFromOwner(e: Listing, l: Ledger, from: Address, id: nat): Result<Listing> {
    if Balance(l, from) == 0 then Panic
    else
      var last, index := Balance(l, from) - 1, At(e.ownedIndex, id);
      var moved := At(e.owned, (from, last));
      var swapped := if index == last then e else e.(owned := e.owned[(from, index) := moved], ownedIndex := e.ownedIndex[moved := index]);
      Ok(swapped.(ownedIndex := swapped.ownedIndex - {id}, owned := swapped.owned - {(from, last)}))
  }

  function RemoveFromAll(e: Listing, id: nat): Result<Listing> {
    var index := At(e.allIndex, id);
    if e.all == [] || index >= |e.all| then Panic
    else
      var last := |e.all| - 1;
      Ok(e.(all := e.all[index := e.all[last]][..last], allIndex := e.allIndex[e.all[last] := index] - {id}))
  }

  // One call of the hook that runs before a token changes hands.
  datatype Hook = Hook(from: Address, to: Address, id: nat)

  function Run1(e: Listing, l: Ledger, h: Hook): Result<Listing> {
    match (if h.from == ZERO then Ok(AddToAll(e, h.id)) else if h.from != h.to then RemoveFromOwner(e, l, h.from, h.id) else Ok(e))
    case Error => Error
    case Panic => Panic
    case Ok(e') => if h.to == ZERO then RemoveFromAll(e', h.id) else if h.to != h.from then Ok(AddToOwner(e', l, h.to, h.id)) else Ok(e')
  }

  class Enumeration {
    var ownedTokens: map<(Address, nat), nat>
    var ownedTokensIndex: map<nat, nat>
    var allTokens: seq<nat>
    var allTokensIndex: map<nat, nat>

    function View(): Listing
      reads this
    {
      Listing(ownedTokens, ownedTokensIndex, allTokens, allTokensIndex)
    }

    constructor ()
      ensures View() == Listing(map[], map[], [], map[])
    {
      ownedTokens, ownedTokensIndex, allTokens, allTokensIndex := map[], map[], [], map[];
    }

    method AddTokenToOwnerEnumeration(l: Ledger, to: Address, id: nat)
      modifies this
      ensures View() == AddToOwner(old(View()), l, to, id)
    {
      var length := Balance(l, to);
      ownedTokensIndex := ownedTokensIndex[id := length];
      ownedTokens := ownedTokens[(to, length) := id];
    }

    method AddTokenToAllTokensEnumeration(id: nat)
      modifies this
      ensures View() == AddToAll(old(View()), id)
    {
      allTokensIndex := allTokensIndex[id := |allTokens|];
      allTokens := allTokens + [id];
    }

    method RemoveTokenFromOwnerEnumeration(l: Ledger, from: Address, id: nat) returns (ok: bool)
      modifies this
      ensures ok <==> RemoveFromOwner(old(View()), l, from, id).Ok?
      ensures ok ==> View() == RemoveFromOwner(old(View()), l, from, id).value
      ensures !ok ==> View() == old(View())
    {
      if Balance(l, from) == 0 {
        return false;
      }
      var lastTokenIndex := Balance(l, from) - 1;
      var tokenIndex := At(ownedTokensIndex, id);
      if tokenIndex != lastTokenIndex {
        var lastTokenId := At(ownedTokens, (from, lastTokenIndex));
        ownedTokens := ownedTokens[(from, tokenIndex) := lastTokenId];
        ownedTokensIndex := ownedTokensIndex[lastTokenId := tokenIndex];
      }
      ownedTokensIndex := ownedTokensIndex - {id};
      ownedTokens := ownedTokens - {(from, lastTokenIndex)};
      return true;
    }

    method RemoveTokenFromAllTokensEnumeration(id: nat) returns (ok: bool)
      modifies this
      ensures ok <==> RemoveFromAll(old(View()), id).Ok?
      ensures ok ==> View() == RemoveFromAll(old(View()), id).value
      ensures !ok ==> View() == old(View())
    {
      var tokenIndex := At(allTokensIndex, id);
      if |allTokens| == 0 || tokenIndex >= |allTokens| {
        return false;
      }
      var lastTokenIndex := |allTokens| - 1;
      var lastTokenId := allTokens[lastTokenIndex];
      allTokens := allTokens[tokenIndex := lastTokenId];
      allTokensIndex := allTokensIndex[lastTokenId := tokenIndex];
      allTokensIndex := allTokensIndex - {id};
      allTokens := allTokens[..lastTokenIndex];
      return true;
    }

    // When it fails the whole call reverts, so nothing is said of the state then.
    method BeforeTokenTransfer(l: Ledger, from: Address, to: Address, id: nat) returns (ok: bool)
      modifies this
      ensures ok <==> Run1(old(View()), l, Hook(from, to, id)).Ok?
      ensures ok ==> View() == Run1(old(View()), l, Hook(from, to, id)).value
    {
      hide AddToOwner, AddToAll, RemoveFromOwner, RemoveFromAll;
      ok := true;
      if from == ZERO {
        AddTokenToAllTokensEnumeration(id);
      } else if from != to {
        ok := RemoveTokenFromOwnerEnumeration(l, from, id);
      }
      if !ok {
        return;
      }
      if to == ZERO {
        ok := RemoveTokenFromAllTokensEnumeration(id);
      } else if to != from {
        AddTokenToOwnerEnumeration(l, to, id);
      }
    }
  }

  // ----- The lists hold exactly what the ledger does

  // A slot of an account holds one of its tokens, which knows its place.
  ghost predicate Slot(e: Listing, l: Ledger, a: Address, i: nat) {
    var id := At(e.owned, (a, i));
    id in l.owners && l.owners[id] == a && At(e.ownedIndex, id) == i
  }

  // A token's place is among the slots of its owner and holds the token.
  ghost predicate Place(e: Listing, l: Ledger, id: nat)
    requires id in l.owners
  {
    var a, i := l.owners[id], At(e.ownedIndex, id);
    i < Balance(l, a) && At(e.owned, (a, i)) == id
  }

  ghost predicate OwnersListed(e: Listing, l: Ledger) {
    && (forall a, i: nat :: i < Balance(l, a) ==> Slot(e, l, a, i))
    && (forall id :: id in l.owners ==> Place(e, l, id))
  }

  ghost predicate AllListed(e: Listing, l: Ledger) {
    && (forall i :: 0 <= i < |e.all| ==> e.all[i] in l.owners && At(e.allIndex, e.all[i]) == i)
    && (forall id :: id in l.owners ==> At(e.allIndex, id) < |e.all| && e.all[At(e.allIndex, id)] == id)
  }

  ghost predicate Listed(e: Listing, l: Ledger) {
    OwnersListed(e, l) && AllListed(e, l)
  }

  // The ledger once the token has changed hands.
  function Shift(l: Ledger, h: Hook): Ledger {
    if h.from == ZERO then Credit(l, h.to, h.id)
    else
      match Debit(l, h.from, h.id)
      case Ok(gone) => if h.to == ZERO then gone.(owners := gone.owners - {h.id}) else Credit(gone, h.to, h.id)
      case _ => l
  }

  ghost predicate Proper(l: Ledger, h: Hook) {
    if h.from == ZERO then h.to != ZERO && h.id !in l.owners else h.id in l.owners && l.owners[h.id] == h.from
  }

  // What is known of the two tokens a removal touches.
  ghost predicate Removable(e: Listing, l: Ledger, from: Address, id: nat) {
    && id in l.owners && l.owners[id] == from
    && Place(e, l, id)
    && Balance(l, from) > 0
    && Slot(e, l, from, Balance(l, from) - 1)
  }

  lemma SlotAfterRemoval(e: Listing, l: Ledger, from: Address, id: nat, l': Ledger, a: Address, i: nat)
    requires Removable(e, l, from, id) && Slot(e, l, a, i)
    requires l'.owners == l.owners - {id} && i < Balance(l, a) - if a == from then 1 else 0
    ensures Slot(RemoveFromOwner(e, l, from, id).value, l', a, i)
  {
  }

  lemma PlaceAfterRemoval(e: Listing, l: Ledger, from: Address, id: nat, l': Ledger, other: nat)
    requires Removable(e, l, from, id) && other in l.owners && other != id && Place(e, l, other)
    requires l'.owners == l.owners - {id} && Balance(l', l.owners[other]) == Balance(l, l.owners[other]) - if l.owners[other] == from then 1 else 0
    ensures Place(RemoveFromOwner(e, l, from, id).value, l', other)
  {
    hide Balance;
    var last := Balance(l, from) - 1;
    if other == At(e.owned, (from, last)) {
    } else {
      assert l.owners[other] != from || At(e.ownedIndex, other) != last;
    }
  }

  // Taking a token out of its owner's list.
  lemma OwnerRemoved(e: Listing, l: Ledger, from: Address, id: nat, l': Ledger)
    requires OwnersListed(e, l) && id in l.owners && l.owners[id] == from
    requires l'.owners == l.owners - {id}
    requires forall a :: Balance(l', a) == Balance(l, a) - if a == from then 1 else 0
    ensures RemoveFromOwner(e, l, from, id).Ok? && OwnersListed(RemoveFromOwner(e, l, from, id).value, l')
  {
    assert Place(e, l, id);
    assert Slot(e, l, from, Balance(l, from) - 1);
    assert RemoveFromOwner(e, l, from, id).Ok?;
    hide Slot, Place, RemoveFromOwner, Balance;
    forall a, i: nat | i < Balance(l', a)
      ensures Slot(RemoveFromOwner(e, l, from, id).value, l', a, i)
    {
      SlotAfterRemoval(e, l, from, id, l', a, i);
    }
    forall other | other in l'.owners
      ensures Place(RemoveFromOwner(e, l, from, id).value, l', other)
    {
      PlaceAfterRemoval(e, l, from, id, l', other);
    }
  }

  lemma SlotAfterAddition(e: Listing, l: Ledger, to: Address, id: nat, l': Ledger, a: Address, i: nat)
    requires id !in l.owners && l'.owners == l.owners[id := to]
    requires if a == to && i == Balance(l, to) then true else Slot(e, l, a, i)
    ensures Slot(AddToOwner(e, l, to, id), l', a, i)
  {
  }

  lemma PlaceAfterAddition(e: Listing, l: Ledger, to: Address, id: nat, l': Ledger, other: nat)
    requires id !in l.owners && l'.owners == l.owners[id := to] && other in l'.owners
    requires other != id ==> Place(e, l, other)
    requires Balance(l', l'.owners[other]) == Balance(l, l'.owners[other]) + if l'.owners[other] == to then 1 else 0
    ensures Place(AddToOwner(e, l, to, id), l', other)
  {
  }

  lemma OwnerAdded(e: Listing, l: Ledger, to: Address, id: nat, l': Ledger)
    requires OwnersListed(e, l) && id !in l.owners
    requires l'.owners == l.owners[id := to]
    requires forall a :: Balance(l', a) == Balance(l, a) + if a == to then 1 else 0
    ensures OwnersListed(AddToOwner(e, l, to, id), l')
  {
    hide Slot, Place, AddToOwner, Balance;
    forall a, i: nat | i < Balance(l', a)
      ensures Slot(AddToOwner(e, l, to, id), l', a, i)
    {
      SlotAfterAddition(e, l, to, id, l', a, i);
    }
    forall other | other in l'.owners
      ensures Place(AddToOwner(e, l, to, id), l', other)
    {
      PlaceAfterAddition(e, l, to, id, l', other);
    }
  }

  lemma AllRemoved(e: Listing, l: Ledger, id: nat, l': Ledger)
    requires AllListed(e, l) && id in l.owners && l'.owners == l.owners - {id}
    ensures RemoveFromAll(e, id).Ok? && AllListed(RemoveFromAll(e, id).value, l')
  {
  }

  lemma AllAdded(e: Listing, l: Ledger, id: nat, l': Ledger)
    requires AllListed(e, l) && id !in l.owners && l'.owners.Keys == l.owners.Keys + {id}
    ensures AllListed(AddToAll(e, id), l')
  {
  }

  // The hook on a token that exists, or on one that does not yet, never fails and keeps the lists exact.
  lemma HookKeepsLists(e: Listing, l: Ledger, h: Hook)
    requires Counted(l) && Listed(e, l) && Proper(l, h)
    ensures Counted(Shift(l, h))
    ensures Run1(e, l, h).Ok? && Listed(Run1(e, l, h).value, Shift(l, h))
  {
    hide OwnersListed, AllListed, RemoveFromOwner, RemoveFromAll, Counted;
    var l' := Shift(l, h);
    if h.from == ZERO {
      CreditCounted(l, h.to, h.id);
      var e' := AddToAll(e, h.id);
      AllAdded(e, l, h.id, l');
      OwnersSame(e, e', l, l);
      OwnerAdded(e', l, h.to, h.id, l');
      AllSame(e', AddToOwner(e', l, h.to, h.id), l', l');
    } else {
      DebitCounted(l, h.from, h.id);
      var gone := Debit(l, h.from, h.id).value;
      var removed := gone.(owners := gone.owners - {h.id});
      OwnerRemoved(e, l, h.from, h.id, removed);
      var e' := RemoveFromOwner(e, l, h.from, h.id).value;
      RemovalKeepsAll(e, l, h.from, h.id);
      AllSame(e, e', l, l);
      if h.to == ZERO {
        AllRemoved(e', l, h.id, removed);
        RemovalKeepsOwned(e', h.id);
        OwnersSame(e', RemoveFromAll(e', h.id).value, removed, removed);
      } else {
        MovedListed(e, l, h, e', removed);
      }
    }
  }

  lemma MovedListed(e: Listing, l: Ledger, h: Hook, e': Listing, removed: Ledger)
    requires Counted(l) && Listed(e, l) && h.id in l.owners && l.owners[h.id] == h.from && h.from != ZERO && h.to != ZERO
    requires Debit(l, h.from, h.id).Ok?
    requires removed == Debit(l, h.from, h.id).value.(owners := l.owners - {h.id})
    requires RemoveFromOwner(e, l, h.from, h.id) == Ok(e') && OwnersListed(e', removed) && AllListed(e', l)
    ensures Counted(Shift(l, h))
    ensures Run1(e, l, h).Ok? && Listed(Run1(e, l, h).value, Shift(l, h))
  {
    hide OwnersListed, AllListed, RemoveFromOwner, Counted;
    MoveCounted(l, h.from, h.to, h.id);
    var l' := Shift(l, h);
    if h.from == h.to {
      assert l'.owners == l.owners;
      OwnersSame(e, e, l, l');
      AllSame(e, e, l, l');
    } else {
      var e'' := AddToOwner(e', removed, h.to, h.id);
      OwnerAdded(e', removed, h.to, h.id, l');
      AllSame(e', e'', l, l');
    }
  }

  lemma OwnersSame(e: Listing, e': Listing, l: Ledger, l': Ledger)
    requires OwnersListed(e, l) && e'.owned == e.owned && e'.ownedIndex == e.ownedIndex
    requires l'.owners == l.owners && forall a :: Balance(l', a) == Balance(l, a)
    ensures OwnersListed(e', l')
  {
    forall a, i: nat | i < Balance(l', a)
      ensures Slot(e', l', a, i)
    {
      assert Slot(e, l, a, i);
    }
    forall id | id in l'.owners
      ensures Place(e', l', id)
    {
      assert Place(e, l, id);
    }
  }

  lemma AllSame(e: Listing, e': Listing, l: Ledger, l': Ledger)
    requires AllListed(e, l) && e'.all == e.all && e'.allIndex == e.allIndex && l'.owners.Keys == l.owners.Keys
    ensures AllListed(e', l')
  {
    assert forall id :: id in l.owners <==> id in l.owners.Keys;
    assert forall id :: id in l'.owners <==> id in l'.owners.Keys;
  }

  lemma RemovalKeepsAll(e: Listing, l: Ledger, from: Address, id: nat)
    requires RemoveFromOwner(e, l, from, id).Ok?
    ensures var e' := RemoveFromOwner(e, l, from, id).value; e'.all == e.all && e'.allIndex == e.allIndex
  {
  }

  lemma RemovalKeepsOwned(e: Listing, id: nat)
    requires RemoveFromAll(e, id).Ok?
    ensures var e' := RemoveFromAll(e, id).value; e'.owned == e.owned && e'.ownedIndex == e.ownedIndex
  {
  }

  // ----- Any run of the token

  function AfterHooks(e: Listing, l: Ledger, hooks: seq<Hook>): Result<Listing>
    decreases |hooks|
  {
    if hooks == [] then Ok(e)
    else
      match Run1(e, l, hooks[0])
      case Error => Error
      case Panic => Panic
      case Ok(e') => AfterHooks(e', Shift(l, hooks[0]), hooks[1..])
  }

  function ShiftAll(l: Ledger, hooks: seq<Hook>): Ledger
    decreases |hooks|
  {
    if hooks == [] then l else ShiftAll(Shift(l, hooks[0]), hooks[1..])
  }

  ghost predicate AllProper(l: Ledger, hooks: seq<Hook>)
    decreases |hooks|
  {
    hooks == [] || (Proper(l, hooks[0]) && AllProper(Shift(l, hooks[0]), hooks[1..]))
  }

  lemma {:induction false} HooksKeepLists(e: Listing, l: Ledger, hooks: seq<Hook>)
    requires Counted(l) && Listed(e, l) && AllProper(l, hooks)
    ensures AfterHooks(e, l, hooks).Ok? && Listed(AfterHooks(e, l, hooks).value, ShiftAll(l, hooks))
    decreases |hooks|
  {
    hide Counted, Listed, Proper, Run1, Shift;
    if hooks != [] {
      HookKeepsLists(e, l, hooks[0]);
      HooksKeepLists(Run1(e, l, hooks[0]).value, Shift(l, hooks[0]), hooks[1..]);
    }
  }

  // The tokens a call moves, in order.
  function Hooks(t: Token, call: Call): seq<Hook> {
    match call
    case TransferFrom(from, to, id) => [Hook(from, to, id)]
    case Burn(id) => [Hook(Owner(t.ledger, id), ZERO, id)]
    case Mint(_, _) =>
      if t.nextId <= LAST_REWARD && t.nextId % 10 == 0
      then [Hook(ZERO, t.noundersDAO, t.nextId), Hook(ZERO, t.minter, t.nextId + 1)]
      else [Hook(ZERO, t.minter, t.nextId)]
    case _ => []
  }

  ghost predicate SameHolders(l: Ledger, l': Ledger) {
    l'.owners == l.owners && l'.balances == l.balances
  }

  // A successful call changes owners and balances by its hooks, each on a token in the state it should be in.
  lemma CallFollowsHooks(t: Token, block: nat, sender: Address, call: Call)
    requires Counted(t.ledger) && Exec(t, block, sender, call).Ok?
    ensures AllProper(t.ledger, Hooks(t, call))
    ensures SameHolders(ShiftAll(t.ledger, Hooks(t, call)), Exec(t, block, sender, call).value.token.ledger)
  {
    hide BeforeTransfer, SetDelegate, MintBoth;
    var hooks := Hooks(t, call);
    match call {
      case Mint(reward, regular) => MintFollowsHooks(t, block, reward, regular);
      case TransferFrom(from, to, id) => OneHook(t.ledger, hooks[0]);
      case Burn(id) => OneHook(t.ledger, hooks[0]);
      case _ =>
    }
  }

  lemma OneHook(l: Ledger, h: Hook)
    ensures ShiftAll(l, [h]) == Shift(l, h)
    ensures AllProper(l, [h]) <==> Proper(l, h)
  {
    assert [h][1..] == [];
    hide Shift, Proper;
  }

  lemma MintFollowsHooks(t: Token, block: nat, reward: Seeding, regular: Seeding)
    requires MintBoth(t, block, reward, regular).Ok?
    ensures var hooks := Hooks(t, Mint(reward, regular));
            AllProper(t.ledger, hooks) && SameHolders(ShiftAll(t.ledger, hooks), MintBoth(t, block, reward, regular).value.token.ledger)
  {
    hide BeforeTransfer;
    if t.nextId <= LAST_REWARD && t.nextId % 10 == 0 {
      var h, g := Hook(ZERO, t.noundersDAO, t.nextId), Hook(ZERO, t.minter, t.nextId + 1);
      OneHook(Shift(t.ledger, h), g);
      assert [h, g][1..] == [g];
    } else {
      OneHook(t.ledger, Hook(ZERO, t.minter, t.nextId));
    }
  }

  // The lists beside a run of the token; a call that fails reverts them too.
  function Track(n: Net, e: Listing, steps: seq<Step>): Result<Listing> {
    if steps == [] then Ok(e)
    else
      var k := |steps| - 1;
      match Track(n, e, steps[..k])
      case Error => Error
      case Panic => Panic
      case Ok(before) => TrackStep(Run(n, steps[..k]), before, steps[k])
  }

  function TrackStep(n: Net, e: Listing, s: Step): Result<Listing> {
    if s.By? && Exec(n.token, n.block, s.sender, s.call).Ok? then AfterHooks(e, n.token.ledger, Hooks(n.token, s.call)) else Ok(e)
  }

  lemma ListedSame(e: Listing, l: Ledger, l': Ledger)
    requires Listed(e, l) && SameHolders(l, l')
    ensures Listed(e, l')
  {
    OwnersSame(e, e, l, l');
    hide OwnersListed;
  }

  lemma StepKeepsLists(n: Net, e: Listing, s: Step)
    requires Counted(n.token.ledger) && Listed(e, n.token.ledger)
    ensures TrackStep(n, e, s).Ok? && Listed(TrackStep(n, e, s).value, Next(n, s).token.ledger)
  {
    hide Exec, Listed, Counted, Hooks, SameHolders, AllProper, AfterHooks, ShiftAll;
    if s.By? && Exec(n.token, n.block, s.sender, s.call).Ok? {
      var t, hooks := n.token, Hooks(n.token, s.call);
      CallFollowsHooks(t, n.block, s.sender, s.call);
      HooksKeepLists(e, t.ledger, hooks);
      ListedSame(AfterHooks(e, t.ledger, hooks).value, ShiftAll(t.ledger, hooks), Next(n, s).token.ledger);
    }
  }

  // From deployment on, over any run, the hooks never fail and the lists match the ledger.
  lemma {:induction false} ListsExact(n: Net, steps: seq<Step>)
    requires n.token == Deployed(n.token.minter, n.token.noundersDAO, n.token.owner, n.token.proxies) && AllSent(steps)
    ensures var tracked := Track(n, Listing(map[], map[], [], map[]), steps);
            tracked.Ok? && Listed(tracked.value, Run(n, steps).token.ledger)
  {
    if steps != [] {
      var k := |steps| - 1;
      ListsExact(n, steps[..k]);
      DeployedSound(n.token, n.block);
      RunSound(n, steps[..k]);
      hide Listed, Exec, Run, Next, Counted;
      StepKeepsLists(Run(n, steps[..k]), Track(n, Listing(map[], map[], [], map[]), steps[..k]).value, steps[k]);
      RunStep(n, steps);
    }
  }

  lemma RunStep(n: Net, steps: seq<Step>)
    requires steps != []
    ensures Run(n, steps) == Next(Run(n, steps[..|steps| - 1]), steps[|steps| - 1])
  {
    hide Next;
  }

  // ----- What the views return

  // tokenOfOwnerByIndex over all indexes it accepts.
  function TokensOf(e: Listing, l: Ledger, a: Address): (ids: seq<nat>)
    ensures |ids| == Balance(l, a)
  {
    seq(Balance(l, a), (i: nat) => At(e.owned, (a, i)))
  }

  // An account's tokens by index are exactly those it owns, each once; tokenByIndex gives every
  // existing token, each once, and totalSupply counts them.
  lemma EnumerationExact(e: Listing, l: Ledger, a: Address)
    requires Listed(e, l)
    ensures NoRepeats(TokensOf(e, l, a)) && NoRepeats(e.all)
    ensures forall id :: id in TokensOf(e, l, a) <==> id in l.owners && l.owners[id] == a
    ensures forall id :: id in e.all <==> id in l.owners
    ensures |e.all| == |l.owners|
  {
    var ids := TokensOf(e, l, a);
    forall i: nat | i < |ids|
      ensures At(e.ownedIndex, ids[i]) == i && ids[i] in l.owners && l.owners[ids[i]] == a
    {
      assert Slot(e, l, a, i);
    }
    forall id | id in l.owners && l.owners[id] == a
      ensures id in ids
    {
      assert Place(e, l, id);
      assert ids[At(e.ownedIndex, id)] == id;
    }
    assert forall id :: id in e.all <==> id in l.owners;
    Countable(e.all, l.owners.Keys);
  }

  lemma {:induction false} Countable(ids: seq<nat>, s: set<nat>)
    requires NoRepeats(ids) && forall id :: id in ids <==> id in s
    ensures |ids| == |s|
  {
    if ids == [] {
      assert s == {};
    } else {
      var k := |ids| - 1;
      assert ids == ids[..k] + [ids[k]];
      Countable(ids[..k], s - {ids[k]});
    }
  }
}
