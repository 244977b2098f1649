// The ownership ledger of packages/nouns-contracts/contracts/base/ERC721.sol.
module Ledger {
  import opened Chain

  // owners holds existing tokens only; a missing balance is 0, a missing approval the zero address.
  datatype Ledger = Ledger(owners: map<nat, Address>, balances: map<Address, nat>,
                           approvals: map<nat, Address>, operators: set<(Address, Address)>)

  function Balance(l: Ledger, a: Address): nat {
    if a in l.balances then l.balances[a] else 0
  }

  function Approved(l: Ledger, id: nat): Address {
    if id in l.approvals then l.approvals[id] else ZERO
  }

  function Owner(l: Ledger, id: nat): Address {
    if id in l.owners then l.owners[id] else ZERO
  }

  function Credit(l: Ledger, to: Address, id: nat): Ledger {
    l.(balances := l.balances[to := Balance(l, to) + 1], owners := l.owners[id := to])
  }

  // Approval cleared, then the old owner's balance lowered.
  function Debit(l: Ledger, from: Address, id: nat): Result<Ledger> {
    if Balance(l, from) == 0 then Panic
    else Ok(l.(approvals := l.approvals[id := ZERO], balances := l.balances[from := Balance(l, from) - 1]))
  }

  // ----- Every balance counts the tokens held

  ghost function Held(l: Ledger, a: Address): set<nat> {
    set id | id in l.owners && l.owners[id] == a
  }

  ghost predicate Counted(l: Ledger) {
    && (forall id :: id in l.owners ==> l.owners[id] != ZERO)
    && (forall a :: Balance(l, a) == |Held(l, a)|)
    && (forall id :: Approved(l, id) != ZERO ==> id in l.owners)
  }

  lemma CreditHeld(l: Ledger, to: Address, id: nat, a: Address)
    requires id !in l.owners
    ensures Held(Credit(l, to, id), a) == Held(l, a) + if a == to then {id} else {}
    ensures id !in Held(l, a)
  {
  }

  lemma CreditCounted(l: Ledger, to: Address, id: nat)
    requires Counted(l) && to != ZERO && id !in l.owners
    ensures Counted(Credit(l, to, id))
  {
    hide Held;
    forall a
      ensures Balance(Credit(l, to, id), a) == |Held(Credit(l, to, id), a)|
    {
      CreditHeld(l, to, id, a);
    }
  }

  // A token taken from its owner: the balance never underflows.
  lemma DebitCounted(l: Ledger, from: Address, id: nat)
    requires Counted(l) && id in l.owners && l.owners[id] == from
    ensures Debit(l, from, id).Ok?
    ensures var gone := Debit(l, from, id).value; Counted(gone.(owners := gone.owners - {id}))
    ensures Approved(Debit(l, from, id).value, id) == ZERO
  {
    assert id in Held(l, from);
    var gone := Debit(l, from, id).value;
    var l' := gone.(owners := gone.owners - {id});
    assert Held(l', from) == Held(l, from) - {id};
    forall a | a != from
      ensures Held(l', a) == Held(l, a)
    {
    }
  }

  // Moving a token is burning it and crediting it anew.
  lemma MoveCounted(l: Ledger, from: Address, to: Address, id: nat)
    requires Counted(l) && id in l.owners && l.owners[id] == from && to != ZERO
    ensures Debit(l, from, id).Ok?
    ensures Counted(Credit(Debit(l, from, id).value, to, id))
    ensures Approved(Credit(Debit(l, from, id).value, to, id), id) == ZERO
  {
    DebitCounted(l, from, id);
    var gone := Debit(l, from, id).value;
    var removed := gone.(owners := gone.owners - {id});
    CreditCounted(removed, to, id);
    assert Credit(removed, to, id).owners == Credit(gone, to, id).owners;
  }

  // ----- The balances of any accounts add up to the tokens they hold

  function SumBalances(l: Ledger, accounts: seq<Address>): nat {
    if accounts == [] then 0 else Balance(l, accounts[0]) + SumBalances(l, accounts[1..])
  }

  ghost function HeldByAny(l: Ledger, accounts: seq<Address>): set<nat> {
    set id | id in l.owners && l.owners[id] in accounts
  }

  ghost predicate NoRepeats(accounts: seq<Address>) {
    forall i, j :: 0 <= i < j < |accounts| ==> accounts[i] != accounts[j]
  }

  lemma {:induction false} BalancesAddUp(l: Ledger, accounts: seq<Address>)
    requires Counted(l) && NoRepeats(accounts)
    ensures SumBalances(l, accounts) == |HeldByAny(l, accounts)|
  {
    if accounts == [] {
      assert HeldByAny(l, accounts) == {};
    } else {
      var a, others := accounts[0], accounts[1..];
      assert NoRepeats(others);
      HeldByFirst(l, accounts);
      assert Balance(l, a) == |Held(l, a)|;
      hide Held, HeldByAny, Balance, NoRepeats, Counted;
      BalancesAddUp(l, others);
    }
  }

  lemma HeldByFirst(l: Ledger, accounts: seq<Address>)
    requires accounts != [] && NoRepeats(accounts)
    ensures HeldByAny(l, accounts) == Held(l, accounts[0]) + HeldByAny(l, accounts[1..])
    ensures Held(l, accounts[0]) !! HeldByAny(l, accounts[1..])
  {
    assert accounts == [accounts[0]] + accounts[1..];
    assert accounts[0] !in accounts[1..];
  }

  // The balances of all owners together count the existing tokens.
  lemma TotalSupply(l: Ledger, accounts: seq<Address>)
    requires Counted(l) && NoRepeats(accounts)
    requires forall id :: id in l.owners ==> l.owners[id] in accounts
    ensures SumBalances(l, accounts) == |l.owners|
  {
    BalancesAddUp(l, accounts);
    assert HeldByAny(l, accounts) == l.owners.Keys;
  }
}
