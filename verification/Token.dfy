// The Nouns token as a transition system: NounsToken.sol over base/ERC721.sol and
// base/ERC721Checkpointable.sol in packages/nouns-contracts/contracts.
module Token {
  import opened Chain
  import opened Ledger
  import opened Votes

  const LAST_REWARD: nat := 1820

  datatype Token = Token(ledger: Ledger, votes: Votes, nextId: nat, minter: Address, noundersDAO: Address,
                         owner: Address, minterLocked: bool, proxies: map<Address, Address>)

  // How the seeder answers: it is outside this contract.
  datatype Seeding = Seeded | SeederError | SeederPanic

  datatype Call =
    | TransferFrom(from: Address, to: Address, id: nat)
    | Approve(to: Address, id: nat)
    | SetApprovalForAll(operator: Address, approved: bool)
    | Mint(reward: Seeding, regular: Seeding)
    | Burn(id: nat)
    | SetMinter(minter: Address)
    | LockMinter
    | SetNoundersDAO(dao: Address)
    | TransferOwnership(owner: Address)
    | RenounceOwnership
    | Delegate(delegatee: Address)
    | DelegateBySig(signatory: Address, delegatee: Address)

  datatype Effect = Effect(token: Token, events: seq<Event>)

  function MintTo(t: Token, block: nat, to: Address, id: nat, seeding: Seeding): Result<Effect> {
    if seeding == SeederPanic then Panic
    else if seeding == SeederError || to == ZERO || id in t.ledger.owners then Error
    else
      match BeforeTransfer(t.votes, block, ZERO, to)
      case Ok(votes) => Ok(Effect(t.(votes := votes, ledger := Credit(t.ledger, to, id)),
                                  [Transfer(ZERO, t.owner, id), Transfer(t.owner, to, id)]))
      case Error => Error
      case Panic => Panic
  }

  function MintNext(t: Token, block: nat, to: Address, seeding: Seeding): Result<Effect> {
    if t.nextId + 1 >= U256 then Panic
    else MintTo(t.(nextId := t.nextId + 1), block, to, t.nextId, seeding)
  }

  function MintBoth(t: Token, block: nat, reward: Seeding, regular: Seeding): Result<Effect> {
    if t.nextId <= LAST_REWARD && t.nextId % 10 == 0 then
      match MintNext(t, block, t.noundersDAO, reward)
      case Error => Error
      case Panic => Panic
      case Ok(first) =>
        match MintNext(first.token, block, first.token.minter, regular)
        case Error => Error
        case Panic => Panic
        case Ok(second) => Ok(Effect(second.token, first.events + second.events))
    else MintNext(t, block, t.minter, regular)
  }

  function BurnToken(t: Token, block: nat, id: nat): Result<Effect> {
    if id !in t.ledger.owners then Error
    else
      var owner := t.ledger.owners[id];
      match BeforeTransfer(t.votes, block, owner, ZERO)
      case Error => Error
      case Panic => Panic
      case Ok(votes) =>
        match Debit(t.ledger, owner, id)
        case Error => Error
        case Panic => Panic
        case Ok(l) => Ok(Effect(t.(votes := votes, ledger := l.(owners := l.owners - {id})), [Transfer(owner, ZERO, id)]))
  }

  function MoveToken(t: Token, block: nat, from: Address, to: Address, id: nat): Result<Effect> {
    if Owner(t.ledger, id) == ZERO || Owner(t.ledger, id) != from || to == ZERO then Error
    else
      match BeforeTransfer(t.votes, block, from, to)
      case Error => Error
      case Panic => Panic
      case Ok(votes) =>
        match Debit(t.ledger, from, id)
        case Error => Error
        case Panic => Panic
        case Ok(l) => Ok(Effect(t.(votes := votes, ledger := Credit(l, to, id)), [Transfer(from, to, id)]))
  }

  // A missing proxy reads as the zero address.
  function ApprovedForAll(t: Token, owner: Address, operator: Address): bool {
    (if owner in t.proxies then t.proxies[owner] else ZERO) == operator || (owner, operator) in t.ledger.operators
  }

  function MayMove(t: Token, spender: Address, id: nat): bool
    requires id in t.ledger.owners
  {
    var owner := t.ledger.owners[id];
    spender == owner || Approved(t.ledger, id) == spender || ApprovedForAll(t, owner, spender)
  }

  function Redelegate(t: Token, block: nat, delegator: Address, delegatee: Address): Result<Effect> {
    match SetDelegate(t.votes, block, delegator, delegatee, Balance(t.ledger, delegator))
    case Ok(votes) => Ok(Effect(t.(votes := votes), []))
    case Error => Error
    case Panic => Panic
  }

  function Quiet(t: Token): Result<Effect> {
    Ok(Effect(t, []))
  }

  // One external call; anything but Ok leaves no trace.
  function Exec(t: Token, block: nat, sender: Address, call: Call): Result<Effect> {
    match call
    case TransferFrom(from, to, id) =>
      if id !in t.ledger.owners || !MayMove(t, sender, id) then Error else MoveToken(t, block, from, to, id)
    case Approve(to, id) =>
      if id !in t.ledger.owners then Error
      else
        var owner := t.ledger.owners[id];
        if to == owner || !(sender == owner || ApprovedForAll(t, owner, sender)) then Error
        else Quiet(t.(ledger := t.ledger.(approvals := t.ledger.approvals[id := to])))
    case SetApprovalForAll(operator, approved) =>
      if operator == sender then Error
      else
        var operators := t.ledger.operators;
        Quiet(t.(ledger := t.ledger.(operators :=
          if approved then operators + {(sender, operator)} else operators - {(sender, operator)})))
    case Mint(reward, regular) => if sender != t.minter then Error else MintBoth(t, block, reward, regular)
    case Burn(id) => if sender != t.minter then Error else BurnToken(t, block, id)
    case SetMinter(minter) => if sender != t.owner || t.minterLocked then Error else Quiet(t.(minter := minter))
    case LockMinter => if sender != t.owner || t.minterLocked then Error else Quiet(t.(minterLocked := true))
    case SetNoundersDAO(dao) => if sender != t.noundersDAO then Error else Quiet(t.(noundersDAO := dao))
    case TransferOwnership(owner) => if sender != t.owner || owner == ZERO then Error else Quiet(t.(owner := owner))
    case RenounceOwnership => if sender != t.owner then Error else Quiet(t.(owner := ZERO))
    case Delegate(delegatee) => Redelegate(t, block, sender, if delegatee == ZERO then sender else delegatee)
    case DelegateBySig(signatory, delegatee) =>
      if signatory == ZERO then Error else Redelegate(t, block, signatory, delegatee)
  }

  // An owner sets and clears an operator at will, save that a registered proxy is always one; nobody
  // else's operators change.
  lemma OperatorSwitch(t: Token, block: nat, sender: Address, operator: Address, approved: bool, a: Address, b: Address)
    requires Exec(t, block, sender, SetApprovalForAll(operator, approved)).Ok?
    ensures var t' := Exec(t, block, sender, SetApprovalForAll(operator, approved)).value.token;
            ApprovedForAll(t', a, b) <==>
              if a == sender && b == operator then approved || (a in t.proxies && t.proxies[a] == b) || (a !in t.proxies && b == ZERO)
              else ApprovedForAll(t, a, b)
  {
  }

  // ----- Runs

  datatype Step = By(sender: Address, call: Call) | Roll(blocks: nat)

  datatype Net = Net(token: Token, block: nat, log: seq<Event>)

  function Next(n: Net, s: Step): Net {
    match s
    case Roll(blocks) => n.(block := n.block + blocks)
    case By(sender, call) =>
      match Exec(n.token, n.block, sender, call)
      case Ok(e) => n.(token := e.token, log := n.log + e.events)
      case Error => n
      case Panic => n
  }

  function Run(n: Net, steps: seq<Step>): Net {
    if steps == [] then n else Next(Run(n, steps[..|steps| - 1]), steps[|steps| - 1])
  }

  // No call comes from the zero address.
  ghost predicate Sent(s: Step) {
    s.By? ==> s.sender != ZERO
  }

  ghost predicate AllSent(steps: seq<Step>) {
    forall i :: 0 <= i < |steps| ==> Sent(steps[i])
  }

  // ----- What every call keeps

  ghost predicate Sound(t: Token, block: nat) {
    && Counted(t.ledger)
    && Dated(t.votes, block)
    && DelegateOf(t.votes, ZERO) == ZERO
    && (forall id :: id in t.ledger.owners ==> id < t.nextId)
  }

  // The tokens whose owner votes through d.
  ghost function DelegatedTo(v: Votes, owners: map<nat, Address>, d: Address): set<nat> {
    set id | id in owners && DelegateOf(v, owners[id]) == d
  }

  // How many delegated tokens d's checkpoints fail to count.
  ghost function Shortfall(t: Token, d: Address): int {
    |DelegatedTo(t.votes, t.ledger.owners, d)| - CurrentVotes(t.votes, d)
  }

  function Change(hit: bool, amount: int): int {
    if hit then amount else 0
  }

  lemma Recount(v: Votes, owners: map<nat, Address>, owners': map<nat, Address>, id: nat, d: Address)
    requires forall i :: i != id ==> (i in owners <==> i in owners')
    requires forall i :: i != id && i in owners ==> owners[i] == owners'[i]
    ensures |DelegatedTo(v, owners', d)| == |DelegatedTo(v, owners, d)|
              - Change(id in owners && DelegateOf(v, owners[id]) == d, 1)
              + Change(id in owners' && DelegateOf(v, owners'[id]) == d, 1)
  {
    var s, s' := DelegatedTo(v, owners, d), DelegatedTo(v, owners', d);
    assert s - {id} == s' - {id};
    assert |s - {id}| == |s| - Change(id in s, 1);
    assert |s' - {id}| == |s'| - Change(id in s', 1);
  }

  lemma RecountDelegation(v: Votes, v': Votes, l: Ledger, a: Address, d: Address)
    requires forall b :: b != a ==> DelegateOf(v', b) == DelegateOf(v, b)
    ensures |DelegatedTo(v', l.owners, d)| == |DelegatedTo(v, l.owners, d)|
              - Change(DelegateOf(v, a) == d, |Held(l, a)|)
              + Change(DelegateOf(v', a) == d, |Held(l, a)|)
  {
    hide DelegateOf;
    var s, s', held := DelegatedTo(v, l.owners, d), DelegatedTo(v', l.owners, d), Held(l, a);
    assert s - held == s' - held;
    if DelegateOf(v, a) == d {
      assert s == (s - held) + held;
    } else {
      assert s == s - held;
    }
    if DelegateOf(v', a) == d {
      assert s' == (s' - held) + held;
    } else {
      assert s' == s' - held;
    }
  }

  // The votes d gives up by signing them over to the zero address.
  function SignedAway(t: Token, call: Call, d: Address): int {
    Change(call.DelegateBySig? && call.delegatee == ZERO && call.signatory == d, Balance(t.ledger, d))
  }

  // What a successful call does to votes: the shortfall of no account changes, except that an
  // account which signs its votes over to the zero address is short by its balance from then on;
  // and the votes recorded for past blocks stay as they were.
  ghost predicate VotesKept(t: Token, t': Token, block: nat, call: Call) {
    && (forall d :: d != ZERO ==> Shortfall(t', d) == Shortfall(t, d) + SignedAway(t, call, d))
    && (forall a, past: nat :: past < block ==>
          PriorVotes(History(t'.votes, a), past) == PriorVotes(History(t.votes, a), past))
  }

  lemma SameDelegates(v: Votes, v': Votes, owners: map<nat, Address>, d: Address)
    requires v'.delegates == v.delegates
    ensures DelegatedTo(v', owners, d) == DelegatedTo(v, owners, d)
  {
  }

  // The hook and a change of owner of one token, from or to the zero address when it is minted or burned.
  lemma OwnerChangeKeepsVotes(t: Token, t': Token, block: nat, from: Address, to: Address, id: nat, call: Call)
    requires Sound(t, block) && !call.DelegateBySig?
    requires BeforeTransfer(t.votes, block, from, to) == Ok(t'.votes)
    requires Owner(t.ledger, id) == from && Owner(t'.ledger, id) == to
    requires to == ZERO <==> id !in t'.ledger.owners
    requires forall i :: i != id ==> (i in t.ledger.owners <==> i in t'.ledger.owners)
    requires forall i :: i != id && i in t.ledger.owners ==> t.ledger.owners[i] == t'.ledger.owners[i]
    ensures VotesKept(t, t', block, call)
    ensures Dated(t'.votes, block) && t'.votes.delegates == t.votes.delegates
  {
    hide CurrentVotes, PriorVotes, History, MoveDelegates, Dated;
    var src, dst := DelegateOf(t.votes, from), DelegateOf(t.votes, to);
    MoveDelegatesExact(t.votes, block, src, dst, 1);
    forall d | d != ZERO
      ensures Shortfall(t', d) == Shortfall(t, d)
    {
      Recount(t.votes, t.ledger.owners, t'.ledger.owners, id, d);
      SameDelegates(t.votes, t'.votes, t'.ledger.owners, d);
    }
  }

  lemma MintToKeeps(t: Token, block: nat, to: Address, id: nat, seeding: Seeding, call: Call)
    requires Sound(t, block) && !call.DelegateBySig? && id < t.nextId
    requires MintTo(t, block, to, id, seeding).Ok?
    ensures var t' := MintTo(t, block, to, id, seeding).value.token; Sound(t', block) && VotesKept(t, t', block, call)
  {
    hide VotesKept, Dated, BeforeTransfer;
    var t' := MintTo(t, block, to, id, seeding).value.token;
    CreditCounted(t.ledger, to, id);
    OwnerChangeKeepsVotes(t, t', block, ZERO, to, id, call);
  }

  lemma BurnKeeps(t: Token, block: nat, id: nat, call: Call)
    requires Sound(t, block) && !call.DelegateBySig? && BurnToken(t, block, id).Ok?
    ensures var t' := BurnToken(t, block, id).value.token; Sound(t', block) && VotesKept(t, t', block, call)
    ensures var t' := BurnToken(t, block, id).value.token; Approved(t'.ledger, id) == ZERO
  {
    hide VotesKept, Dated, BeforeTransfer;
    var t' := BurnToken(t, block, id).value.token;
    var owner := t.ledger.owners[id];
    DebitCounted(t.ledger, owner, id);
    OwnerChangeKeepsVotes(t, t', block, owner, ZERO, id, call);
  }

  lemma MoveKeeps(t: Token, block: nat, from: Address, to: Address, id: nat, call: Call)
    requires Sound(t, block) && !call.DelegateBySig? && MoveToken(t, block, from, to, id).Ok?
    ensures var t' := MoveToken(t, block, from, to, id).value.token; Sound(t', block) && VotesKept(t, t', block, call)
    ensures var t' := MoveToken(t, block, from, to, id).value.token; Approved(t'.ledger, id) == ZERO
  {
    hide VotesKept, Dated, BeforeTransfer;
    var t' := MoveToken(t, block, from, to, id).value.token;
    MoveCounted(t.ledger, from, to, id);
    OwnerChangeKeepsVotes(t, t', block, from, to, id, call);
  }

  lemma RedelegateShortfall(t: Token, block: nat, delegator: Address, delegatee: Address, call: Call, d: Address)
    requires Sound(t, block) && delegator != ZERO && d != ZERO && Redelegate(t, block, delegator, delegatee).Ok?
    requires if delegatee == ZERO then call == DelegateBySig(delegator, ZERO)
             else call.DelegateBySig? ==> call.delegatee != ZERO
    ensures var t' := Redelegate(t, block, delegator, delegatee).value.token;
            Shortfall(t', d) == Shortfall(t, d) + SignedAway(t, call, d)
  {
    var t' := Redelegate(t, block, delegator, delegatee).value.token;
    var before := t.votes.(delegates := t.votes.delegates[delegator := delegatee]);
    assert forall a :: History(before, a) == History(t.votes, a);
    assert Dated(before, block);
    MoveDelegatesExact(before, block, DelegateOf(t.votes, delegator), delegatee, Balance(t.ledger, delegator));
    hide MoveDelegates, Dated, PriorVotes, History, LastVotes, DelegatedTo, Held;
    RecountDelegation(t.votes, t'.votes, t.ledger, delegator, d);
  }

  lemma RedelegateKeeps(t: Token, block: nat, delegator: Address, delegatee: Address, call: Call)
    requires Sound(t, block) && delegator != ZERO && Redelegate(t, block, delegator, delegatee).Ok?
    requires if delegatee == ZERO then call == DelegateBySig(delegator, ZERO)
             else call.DelegateBySig? ==> call.delegatee != ZERO
    ensures var t' := Redelegate(t, block, delegator, delegatee).value.token; Sound(t', block) && VotesKept(t, t', block, call)
  {
    hide Shortfall, SignedAway, Write, LastVotes;
    var t' := Redelegate(t, block, delegator, delegatee).value.token;
    var before := t.votes.(delegates := t.votes.delegates[delegator := delegatee]);
    assert forall a :: History(before, a) == History(t.votes, a);
    assert Dated(before, block);
    MoveDelegatesExact(before, block, DelegateOf(t.votes, delegator), delegatee, Balance(t.ledger, delegator));
    hide MoveDelegates, Dated, PriorVotes, History;
    forall d | d != ZERO
      ensures Shortfall(t', d) == Shortfall(t, d) + SignedAway(t, call, d)
    {
      RedelegateShortfall(t, block, delegator, delegatee, call, d);
    }
  }

  lemma VotesKeptTwice(t: Token, t': Token, t'': Token, block: nat, call: Call)
    requires VotesKept(t, t', block, call) && VotesKept(t', t'', block, call) && !call.DelegateBySig?
    ensures VotesKept(t, t'', block, call)
  {
  }

  lemma MintNextKeeps(t: Token, block: nat, to: Address, seeding: Seeding, call: Call)
    requires Sound(t, block) && !call.DelegateBySig? && MintNext(t, block, to, seeding).Ok?
    ensures var t' := MintNext(t, block, to, seeding).value.token; Sound(t', block) && VotesKept(t, t', block, call)
  {
    hide VotesKept, Dated, MintTo;
    var raised := t.(nextId := t.nextId + 1);
    MintToKeeps(raised, block, to, t.nextId, seeding, call);
    var t' := MintNext(t, block, to, seeding).value.token;
    assert VotesKept(raised, t', block, call) ==> VotesKept(t, t', block, call) by {
      VotesSame(t, raised, t', block, call);
    }
  }

  lemma VotesSame(t: Token, u: Token, t': Token, block: nat, call: Call)
    requires u.ledger.owners == t.ledger.owners && u.ledger.balances == t.ledger.balances && u.votes == t.votes
    ensures VotesKept(u, t', block, call) ==> VotesKept(t, t', block, call)
    ensures !call.DelegateBySig? ==> VotesKept(t, u, block, call)
  {
  }

  lemma MintBothKeeps(t: Token, block: nat, reward: Seeding, regular: Seeding, call: Call)
    requires Sound(t, block) && !call.DelegateBySig? && MintBoth(t, block, reward, regular).Ok?
    ensures var t' := MintBoth(t, block, reward, regular).value.token; Sound(t', block) && VotesKept(t, t', block, call)
  {
    hide VotesKept, Sound, MintNext;
    if t.nextId <= LAST_REWARD && t.nextId % 10 == 0 {
      MintNextKeeps(t, block, t.noundersDAO, reward, call);
      var first := MintNext(t, block, t.noundersDAO, reward).value.token;
      MintNextKeeps(first, block, first.minter, regular, call);
      VotesKeptTwice(t, first, MintNext(first, block, first.minter, regular).value.token, block, call);
    } else {
      MintNextKeeps(t, block, t.minter, regular, call);
    }
  }

  // Every successful call keeps balances, owners, delegates and checkpoints consistent.
  lemma ExecKeeps(t: Token, block: nat, sender: Address, call: Call)
    requires Sound(t, block) && sender != ZERO && Exec(t, block, sender, call).Ok?
    ensures var t' := Exec(t, block, sender, call).value.token; Sound(t', block) && VotesKept(t, t', block, call)
  {
    hide VotesKept, Dated, MintBoth, BurnToken, MoveToken, Redelegate, Debit, Counted;
    match call {
      case TransferFrom(from, to, id) => MoveKeeps(t, block, from, to, id, call);
      case Mint(reward, regular) => MintBothKeeps(t, block, reward, regular, call);
      case Burn(id) => BurnKeeps(t, block, id, call);
      case Delegate(delegatee) => RedelegateKeeps(t, block, sender, if delegatee == ZERO then sender else delegatee, call);
      case DelegateBySig(signatory, delegatee) => RedelegateKeeps(t, block, signatory, delegatee, call);
      case _ =>
        var t' := Exec(t, block, sender, call).value.token;
        ApprovalCounted(t, t');
        VotesSame(t, t', t', block, call);
    }
  }

  lemma ApprovalCounted(t: Token, t': Token)
    requires Counted(t.ledger)
    requires t'.ledger.owners == t.ledger.owners && t'.ledger.balances == t.ledger.balances
    requires forall id :: Approved(t'.ledger, id) == Approved(t.ledger, id) || id in t.ledger.owners
    ensures Counted(t'.ledger)
  {
    forall a
      ensures Balance(t'.ledger, a) == |Held(t'.ledger, a)|
    {
      assert Held(t'.ledger, a) == Held(t.ledger, a);
      assert Balance(t.ledger, a) == |Held(t.ledger, a)|;
    }
  }
}
