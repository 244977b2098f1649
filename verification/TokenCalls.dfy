// When each call on the token goes through and what it leaves behind, and what the calls of a whole run
// add up to: approvals, delegates, operators and roles, read off the history alone.
module TokenCalls {
  import opened Chain
  import opened Ledger
  import opened Votes
  import opened Token
  import opened TokenRuns

  // ----- Approving

  // Nothing of the token is different but its ledger, and of that neither owners nor balances.
  ghost predicate OnlyGrants(t: Token, t': Token) {
    && t' == t.(ledger := t'.ledger)
    && t'.ledger.owners == t.ledger.owners && t'.ledger.balances == t.ledger.balances
  }

  // An approval goes through exactly when the token exists, it is not given to the owner, and the owner
  // or an operator of the owner gives it. It is then recorded, and no other is touched.
  lemma ApproveExact(t: Token, block: nat, sender: Address, to: Address, id: nat)
    ensures var r := Exec(t, block, sender, Approve(to, id));
            && (r.Ok? <==>
                  && id in t.ledger.owners && to != t.ledger.owners[id]
                  && (sender == t.ledger.owners[id] || ApprovedForAll(t, t.ledger.owners[id], sender)))
            && (r.Ok? ==>
                  && OnlyGrants(t, r.value.token) && r.value.events == []
                  && r.value.token.ledger.operators == t.ledger.operators
                  && forall other :: Approved(r.value.token.ledger, other) == if other == id then to else Approved(t.ledger, other))
  {
  }

  // A token moves in a step that logs a transfer of it.
  ghost predicate Moves(n: Net, s: Step, id: nat) {
    exists e :: e in Next(n, s).log[|n.log|..] && e.Transfer? && e.id == id
  }

  predicate GoesThrough(n: Net, s: Step) {
    s.By? && Exec(n.token, n.block, s.sender, s.call).Ok?
  }

  // The address of the last approval given for a token since it last moved.
  ghost function LastApproval(n: Net, steps: seq<Step>, id: nat): Address {
    if steps == [] then ZERO
    else
      var k := |steps| - 1;
      var m, s := Run(n, steps[..k]), steps[k];
      if GoesThrough(m, s) && s.call.Approve? && s.call.id == id then s.call.to
      else if Moves(m, s, id) then ZERO
      else LastApproval(n, steps[..k], id)
  }

  lemma LogTail(log: seq<Event>, events: seq<Event>)
    ensures (log + events)[|log|..] == events
  {
  }

  lemma StepEvents(n: Net, s: Step)
    ensures Next(n, s).log == n.log + if GoesThrough(n, s) then Exec(n.token, n.block, s.sender, s.call).value.events else []
  {
    assert n.log + [] == n.log;
    hide Exec;
  }

  // The tokens that an effect logs as moved.
  ghost predicate Logs(events: seq<Event>, id: nat) {
    exists e :: e in events && e.Transfer? && e.id == id
  }

  lemma MovesLogged(n: Net, s: Step, id: nat)
    ensures Moves(n, s, id) <==> GoesThrough(n, s) && Logs(Exec(n.token, n.block, s.sender, s.call).value.events, id)
  {
    StepEvents(n, s);
    hide Exec, Next;
    if GoesThrough(n, s) {
      LogTail(n.log, Exec(n.token, n.block, s.sender, s.call).value.events);
    } else {
      LogTail(n.log, []);
    }
  }

  // What becomes of the approvals when a call goes through.
  lemma CallApprovals(t: Token, block: nat, sender: Address, call: Call, id: nat)
    requires Sound(t, block) && Exec(t, block, sender, call).Ok?
    ensures var e := Exec(t, block, sender, call).value;
            Approved(e.token.ledger, id) ==
            if call.Approve? && call.id == id then call.to
            else if Logs(e.events, id) then ZERO
            else Approved(t.ledger, id)
  {
    hide BeforeTransfer, SetDelegate, Dated;
    var e := Exec(t, block, sender, call).value;
    match call {
      case TransferFrom(from, to, i) => assert e.events == [Transfer(from, to, i)] && e.events[0] in e.events;
      case Burn(i) => assert e.events == [Transfer(t.ledger.owners[i], ZERO, i)] && e.events[0] in e.events;
      case Mint(reward, regular) =>
        hide MintTo;
        MintApprovals(t, block, reward, regular, id);
      case _ =>
    }
  }

  lemma MintApprovals(t: Token, block: nat, reward: Seeding, regular: Seeding, id: nat)
    requires Sound(t, block) && MintBoth(t, block, reward, regular).Ok?
    ensures var e := MintBoth(t, block, reward, regular).value;
            && e.token.ledger.approvals == t.ledger.approvals
            && (Logs(e.events, id) ==> Approved(t.ledger, id) == ZERO)
  {
    MintEvents(t, block, reward, regular);
    assert id >= t.nextId ==> Approved(t.ledger, id) == ZERO;
    hide MintNext, Dated, Counted;
    if t.nextId <= LAST_REWARD && t.nextId % 10 == 0 {
      var first := MintNext(t, block, t.noundersDAO, reward).value.token;
      MintNextLeaves(t, block, t.noundersDAO, reward);
      MintNextLeaves(first, block, first.minter, regular);
    } else {
      MintNextLeaves(t, block, t.minter, regular);
    }
  }

  // After any run from deployment the approved address of a token is that of the last approval given
  // since the token last moved.
  lemma {:induction false} ApprovalsExact(n: Net, steps: seq<Step>, id: nat)
    requires n.token == Deployed(n.token.minter, n.token.noundersDAO, n.token.owner, n.token.proxies) && AllSent(steps)
    ensures Approved(Run(n, steps).token.ledger, id) == LastApproval(n, steps, id)
  {
    if steps != [] {
      hide Sound, Exec, Next, Approved, Moves, AllSent, Deployed;
      var k := |steps| - 1;
      SentBefore(steps);
      ApprovalsExact(n, steps[..k], id);
      SoundFromStart(n, steps[..k]);
      StepApprovals(Run(n, steps[..k]), steps[k], id);
    }
  }

  lemma SentBefore(steps: seq<Step>)
    requires AllSent(steps) && steps != []
    ensures AllSent(steps[..|steps| - 1]) && Sent(steps[|steps| - 1])
  {
  }

  lemma SoundFromStart(n: Net, steps: seq<Step>)
    requires n.token == Deployed(n.token.minter, n.token.noundersDAO, n.token.owner, n.token.proxies) && AllSent(steps)
    ensures Sound(Run(n, steps).token, Run(n, steps).block)
  {
    DeployedSound(n.token, n.block);
    RunSound(n, steps);
  }

  lemma StepApprovals(n: Net, s: Step, id: nat)
    requires Sound(n.token, n.block)
    ensures Approved(Next(n, s).token.ledger, id) ==
            if GoesThrough(n, s) && s.call.Approve? && s.call.id == id then s.call.to
            else if Moves(n, s, id) then ZERO
            else Approved(n.token.ledger, id)
  {
    hide Exec, Sound, Approved, Moves, Logs;
    MovesLogged(n, s, id);
    if GoesThrough(n, s) {
      CallApprovals(n.token, n.block, s.sender, s.call, id);
    }
  }

  // ----- Roles

  datatype Roles = Roles(minter: Address, noundersDAO: Address, owner: Address, minterLocked: bool)

  function RolesOf(t: Token): Roles {
    Roles(t.minter, t.noundersDAO, t.owner, t.minterLocked)
  }

  // The owner appoints the minter until it locks the choice, and passes on its own role; the nounders
  // pass on theirs. Nobody else and nothing else changes a role.
  function RolesAfterStep(r: Roles, s: Step): Roles {
    match s
    case Roll(_) => r
    case By(sender, call) =>
      match call
      case SetMinter(minter) => if sender == r.owner && !r.minterLocked then r.(minter := minter) else r
      case LockMinter => if sender == r.owner then r.(minterLocked := true) else r
      case SetNoundersDAO(dao) => if sender == r.noundersDAO then r.(noundersDAO := dao) else r
      case TransferOwnership(owner) => if sender == r.owner && owner != ZERO then r.(owner := owner) else r
      case RenounceOwnership => if sender == r.owner then r.(owner := ZERO) else r
      case _ => r
  }

  function RolesAfter(r: Roles, steps: seq<Step>): Roles {
    if steps == [] then r else RolesAfterStep(RolesAfter(r, steps[..|steps| - 1]), steps[|steps| - 1])
  }

  lemma StepRoles(n: Net, s: Step)
    ensures RolesOf(Next(n, s).token) == RolesAfterStep(RolesOf(n.token), s)
    ensures Next(n, s).token.proxies == n.token.proxies
  {
    hide BeforeTransfer, SetDelegate, Credit, Debit, MayMove, MintBoth;
    if s.By? && s.call.Mint? && MintBoth(n.token, n.block, s.call.reward, s.call.regular).Ok? {
      MintRoles(n.token, n.block, s.call.reward, s.call.regular);
    }
  }

  lemma MintRoles(t: Token, block: nat, reward: Seeding, regular: Seeding)
    requires MintBoth(t, block, reward, regular).Ok?
    ensures var t' := MintBoth(t, block, reward, regular).value.token; RolesOf(t') == RolesOf(t) && t'.proxies == t.proxies
  {
    hide BeforeTransfer, Credit;
  }

  // After any run the roles are those the calls say, and the proxies those of the start.
  lemma {:induction false} RolesExact(n: Net, steps: seq<Step>)
    ensures RolesOf(Run(n, steps).token) == RolesAfter(RolesOf(n.token), steps)
    ensures Run(n, steps).token.proxies == n.token.proxies
  {
    if steps != [] {
      hide Next, RolesAfterStep, RolesOf;
      var k := |steps| - 1;
      RolesExact(n, steps[..k]);
      StepRoles(Run(n, steps[..k]), steps[k]);
    }
  }

  // ----- Operators

  predicate Switches(s: Step, a: Address, b: Address) {
    s.By? && s.sender == a && a != b && s.call.SetApprovalForAll? && s.call.operator == b
  }

  // Whether a's last word on b was to make it an operator.
  function OperatorAfter(before: bool, steps: seq<Step>, a: Address, b: Address): bool {
    if steps == [] then before
    else
      var k := |steps| - 1;
      if Switches(steps[k], a, b) then steps[k].call.approved else OperatorAfter(before, steps[..k], a, b)
  }

  lemma CallOperators(t: Token, block: nat, sender: Address, call: Call)
    requires Exec(t, block, sender, call).Ok?
    ensures var operators, operators' := t.ledger.operators, Exec(t, block, sender, call).value.token.ledger.operators;
            if !call.SetApprovalForAll? then operators' == operators
            else
              && call.operator != sender
              && operators' == if call.approved then operators + {(sender, call.operator)} else operators - {(sender, call.operator)}
  {
    hide BeforeTransfer, SetDelegate, MayMove;
  }

  lemma RefusedSwitch(t: Token, block: nat, sender: Address, operator: Address, approved: bool)
    ensures !Exec(t, block, sender, SetApprovalForAll(operator, approved)).Ok? <==> operator == sender
  {
  }

  lemma StepOperators(n: Net, s: Step, a: Address, b: Address)
    ensures (a, b) in Next(n, s).token.ledger.operators <==>
              if Switches(s, a, b) then s.call.approved else (a, b) in n.token.ledger.operators
  {
    hide Exec;
    if GoesThrough(n, s) {
      CallOperators(n.token, n.block, s.sender, s.call);
    } else if s.By? && s.call.SetApprovalForAll? {
      RefusedSwitch(n.token, n.block, s.sender, s.call.operator, s.call.approved);
    }
  }

  // After any run b may act for a exactly when it is a's registered proxy, for an account without one
  // the zero address, or was made an operator by a's last word on it.
  lemma {:induction false} OperatorsExact(n: Net, steps: seq<Step>, a: Address, b: Address)
    ensures (a, b) in Run(n, steps).token.ledger.operators <==> OperatorAfter((a, b) in n.token.ledger.operators, steps, a, b)
    ensures ApprovedForAll(Run(n, steps).token, a, b) <==>
              || (if a in n.token.proxies then n.token.proxies[a] else ZERO) == b
              || OperatorAfter((a, b) in n.token.ledger.operators, steps, a, b)
  {
    RolesExact(n, steps);
    if steps != [] {
      hide Next, Switches;
      var k := |steps| - 1;
      OperatorsExact(n, steps[..k], a, b);
      StepOperators(Run(n, steps[..k]), steps[k], a, b);
    }
  }

  // ----- Minting

  // How the creation of one token ends: as the seeder answers, and never for the zero address.
  function OneStatus(to: Address, seeding: Seeding): Status {
    match seeding
    case SeederPanic => Panicked
    case SeederError => Failed
    case Seeded => if to == ZERO then Failed else Succeeded
  }

  // How a mint ends: for nobody but the minter; with the nounders' reward first, when the next id is one.
  ghost function MintStatus(t: Token, sender: Address, reward: Seeding, regular: Seeding): Status {
    if sender != t.minter then Failed
    else if IsReward(t.nextId) && OneStatus(t.noundersDAO, reward) != Succeeded then OneStatus(t.noundersDAO, reward)
    else OneStatus(t.minter, regular)
  }

  // The id a mint reports.
  ghost function MintedId(t: Token): nat {
    if IsReward(t.nextId) then t.nextId + 1 else t.nextId
  }

  ghost predicate NoDebt(t: Token) {
    forall d :: d != ZERO ==> Shortfall(t, d) >= 0
  }

  lemma GiveSucceeds(v: Votes, block: nat, dst: Address)
    requires Dated(v, block) && block + 3 < U32 && CurrentVotes(v, dst) + 1 < U96 && dst != ZERO
    ensures MoveDelegates(v, block, ZERO, dst, 1).Ok?
  {
    assert Chronological(History(v, dst), block);
    hide Chronological, LastVotes, Dated;
    WriteSucceeds(History(v, dst), block, CurrentVotes(v, dst) + 1);
    hide Write;
  }

  lemma VotesFit(t: Token, d: Address)
    requires (forall id :: id in t.ledger.owners ==> id < t.nextId) && Shortfall(t, d) >= 0
    ensures CurrentVotes(t.votes, d) <= t.nextId
  {
    FewerThan(DelegatedTo(t.votes, t.ledger.owners, d), t.nextId);
    hide CurrentVotes;
  }

  // A token for an account: the vote hook never stands in the way.
  lemma MintNextStatus(t: Token, block: nat, to: Address, seeding: Seeding)
    requires Sound(t, block) && NoDebt(t) && block + 3 < U32 && t.nextId + 1 < U96
    ensures StatusOf(MintNext(t, block, to, seeding)) == OneStatus(to, seeding)
  {
    if to != ZERO {
      var dst := DelegateOf(t.votes, to);
      assert dst != ZERO && DelegateOf(t.votes, ZERO) == ZERO;
      VotesFit(t, dst);
      hide NoDebt, Shortfall, CurrentVotes, MoveDelegates, Dated, Counted;
      GiveSucceeds(t.votes, block, dst);
    }
  }

  lemma MintNextLeaves(t: Token, block: nat, to: Address, seeding: Seeding)
    requires MintNext(t, block, to, seeding).Ok?
    ensures var t' := MintNext(t, block, to, seeding).value.token;
            && t'.nextId == t.nextId + 1 && t'.ledger.owners == t.ledger.owners[t.nextId := to]
            && RolesOf(t') == RolesOf(t) && t'.proxies == t.proxies
            && t'.ledger.approvals == t.ledger.approvals && t'.ledger.operators == t.ledger.operators
  {
    hide BeforeTransfer;
  }

  lemma NoDebtAfterMint(t: Token, block: nat, to: Address, seeding: Seeding, call: Call)
    requires Sound(t, block) && NoDebt(t) && call.Mint? && MintNext(t, block, to, seeding).Ok?
    ensures var t' := MintNext(t, block, to, seeding).value.token; Sound(t', block) && NoDebt(t')
  {
    MintNextKeeps(t, block, to, seeding, call);
    hide Sound, MintNext, Shortfall;
    var t' := MintNext(t, block, to, seeding).value.token;
    forall d | d != ZERO
      ensures Shortfall(t', d) >= 0
    {
      assert Shortfall(t', d) == Shortfall(t, d) + SignedAway(t, call, d);
    }
  }

  lemma RewardIsDue(t: Token)
    ensures t.nextId <= LAST_REWARD && t.nextId % 10 == 0 <==> IsReward(t.nextId)
  {
  }

  // When a mint goes through, and how it fails when it does not.
  lemma MintStatusExact(t: Token, block: nat, sender: Address, reward: Seeding, regular: Seeding)
    requires Sound(t, block) && NoDebt(t) && block + 3 < U32 && t.nextId + 2 < U96
    ensures StatusOf(Exec(t, block, sender, Mint(reward, regular))) == MintStatus(t, sender, reward, regular)
  {
    RewardIsDue(t);
    hide NoDebt, Sound, MintNext, IsReward;
    if IsReward(t.nextId) {
      MintNextStatus(t, block, t.noundersDAO, reward);
      if OneStatus(t.noundersDAO, reward) == Succeeded {
        var first := MintNext(t, block, t.noundersDAO, reward).value.token;
        MintNextLeaves(t, block, t.noundersDAO, reward);
        NoDebtAfterMint(t, block, t.noundersDAO, reward, Mint(reward, regular));
        MintNextStatus(first, block, first.minter, regular);
      }
    } else {
      MintNextStatus(t, block, t.minter, regular);
    }
  }

  // What a mint leaves: the reward, if one is due, with the nounders, the reported token with the
  // minter, and all else of ledger and roles as before.
  lemma MintLeaves(t: Token, block: nat, sender: Address, reward: Seeding, regular: Seeding)
    requires Exec(t, block, sender, Mint(reward, regular)).Ok?
    ensures var t' := Exec(t, block, sender, Mint(reward, regular)).value.token;
            && t'.nextId == MintedId(t) + 1
            && t'.ledger.owners == (if IsReward(t.nextId) then t.ledger.owners[t.nextId := t.noundersDAO] else t.ledger.owners)[MintedId(t) := t.minter]
            && RolesOf(t') == RolesOf(t) && t'.proxies == t.proxies
            && t'.ledger.approvals == t.ledger.approvals && t'.ledger.operators == t.ledger.operators
  {
    RewardIsDue(t);
    hide MintNext, IsReward;
    if IsReward(t.nextId) {
      var first := MintNext(t, block, t.noundersDAO, reward).value.token;
      MintNextLeaves(t, block, t.noundersDAO, reward);
      MintNextLeaves(first, block, first.minter, regular);
    } else {
      MintNextLeaves(t, block, t.minter, regular);
    }
  }

  // ----- Burning and transferring

  // A burn goes through exactly when the minter asks, the token exists and the owner's delegate has its
  // vote; the token is then nobody's.
  lemma BurnExact(t: Token, block: nat, sender: Address, id: nat)
    requires Sound(t, block) && WithinWidths(t, block)
    ensures var r := Exec(t, block, sender, Burn(id));
            && (r.Ok? <==>
                  && sender == t.minter && id in t.ledger.owners
                  && CurrentVotes(t.votes, DelegateOf(t.votes, t.ledger.owners[id])) > 0)
            && (r.Ok? ==>
                  && r.value.token.ledger.owners == t.ledger.owners - {id}
                  && r.value.events == [Transfer(t.ledger.owners[id], ZERO, id)]
                  && RolesOf(r.value.token) == RolesOf(t) && r.value.token.nextId == t.nextId)
  {
    if id in t.ledger.owners {
      var owner := t.ledger.owners[id];
      DebitCounted(t.ledger, owner, id);
      HookExact(t, block, owner, ZERO, id);
      assert DelegateOf(t.votes, owner) != ZERO;
    }
    hide BeforeTransfer, Debit, CurrentVotes, Dated, Counted;
  }

  // A transfer that goes through gives the token to its recipient and logs just that.
  lemma TransferLeaves(t: Token, block: nat, sender: Address, from: Address, to: Address, id: nat)
    requires Exec(t, block, sender, TransferFrom(from, to, id)).Ok?
    ensures var e := Exec(t, block, sender, TransferFrom(from, to, id)).value;
            && e.token.ledger.owners == t.ledger.owners[id := to] && e.events == [Transfer(from, to, id)]
            && RolesOf(e.token) == RolesOf(t) && e.token.nextId == t.nextId
  {
    hide BeforeTransfer, MayMove;
  }

  // ----- Delegating

  // Whose delegate a call on delegation sets, and to whom.
  datatype Delegation = Delegation(delegator: Address, delegatee: Address)

  // For oneself the zero address means oneself; by signature it means the zero address.
  function DelegationOf(sender: Address, call: Call): (d: Delegation)
    requires call.Delegate? || call.DelegateBySig?
  {
    if call.Delegate? then Delegation(sender, if call.delegatee == ZERO then sender else call.delegatee)
    else Delegation(call.signatory, call.delegatee)
  }

  lemma DelegationMoves(v: Votes, block: nat, src: Address, dst: Address, amount: nat)
    requires Dated(v, block) && block + 3 < U32 && src != ZERO
    requires dst != ZERO ==> CurrentVotes(v, dst) + amount < U96
    ensures MoveDelegates(v, block, src, dst, amount).Ok? <==> src == dst || amount == 0 || CurrentVotes(v, src) >= amount
  {
    assert Chronological(History(v, src), block) && Chronological(History(v, dst), block);
    hide Chronological, LastVotes, Dated;
    if CurrentVotes(v, src) >= amount {
      WriteSucceeds(History(v, src), block, CurrentVotes(v, src) - amount);
    }
    WriteSucceeds(History(v, dst), block, CurrentVotes(v, dst) + amount);
    hide Write;
  }

  // The votes with the new choice made and nothing moved yet.
  function Chosen(v: Votes, d: Delegation): Votes {
    v.(delegates := v.delegates[d.delegator := d.delegatee])
  }

  lemma ChosenSame(v: Votes, block: nat, d: Delegation)
    requires Dated(v, block)
    ensures Dated(Chosen(v, d), block)
    ensures forall a :: CurrentVotes(Chosen(v, d), a) == CurrentVotes(v, a)
    ensures DelegateOf(Chosen(v, d), d.delegator) == if d.delegatee == ZERO then d.delegator else d.delegatee
    ensures forall a :: a != d.delegator ==> DelegateOf(Chosen(v, d), a) == DelegateOf(v, a)
  {
    hide Chronological, LastVotes;
    assert forall a :: History(Chosen(v, d), a) == History(v, a);
  }

  lemma CallIsMove(t: Token, block: nat, sender: Address, call: Call)
    requires call.Delegate? || call.DelegateBySig?
    requires DelegationOf(sender, call).delegator != ZERO
    ensures var r, d := Exec(t, block, sender, call), DelegationOf(sender, call);
            var amount := Balance(t.ledger, d.delegator);
            var moved := MoveDelegates(Chosen(t.votes, d), block, DelegateOf(t.votes, d.delegator), d.delegatee, amount);
            && (r.Ok? <==> amount < U96 && moved.Ok?)
            && (r.Ok? ==> r.value == Effect(t.(votes := moved.value), []))
  {
    hide MoveDelegates;
  }

  // A delegation goes through exactly when the delegate so far has the delegator's votes to give, or
  // none need to move.
  lemma DelegateStatus(t: Token, block: nat, sender: Address, call: Call)
    requires call.Delegate? || call.DelegateBySig?
    requires Sound(t, block) && NoDebt(t) && block + 3 < U32 && 2 * t.nextId < U96
    requires DelegationOf(sender, call).delegator != ZERO
    ensures var d := DelegationOf(sender, call);
            var was, amount := DelegateOf(t.votes, d.delegator), Balance(t.ledger, d.delegator);
            Exec(t, block, sender, call).Ok? <==> was == d.delegatee || amount == 0 || CurrentVotes(t.votes, was) >= amount
  {
    var d := DelegationOf(sender, call);
    var was := DelegateOf(t.votes, d.delegator);
    assert was != ZERO;
    HeldFit(t, block, d.delegator);
    RoomFor(t, d.delegatee);
    ChosenSame(t.votes, block, d);
    CallIsMove(t, block, sender, call);
    hide Counted, Dated, MoveDelegates, CurrentVotes, NoDebt, Exec, DelegateOf, Chosen;
    DelegationMoves(Chosen(t.votes, d), block, was, d.delegatee, Balance(t.ledger, d.delegator));
  }

  // Then the delegatee is the delegate, the delegator's balance of votes has changed hands, and nobody
  // else's delegate or votes are different.
  lemma DelegateLeaves(t: Token, block: nat, sender: Address, call: Call)
    requires call.Delegate? || call.DelegateBySig?
    requires Dated(t.votes, block) && DelegationOf(sender, call).delegator != ZERO && Exec(t, block, sender, call).Ok?
    ensures var e, d := Exec(t, block, sender, call).value, DelegationOf(sender, call);
            var was, amount := DelegateOf(t.votes, d.delegator), Balance(t.ledger, d.delegator);
            && e.token == t.(votes := e.token.votes) && e.events == []
            && DelegateOf(e.token.votes, d.delegator) == (if d.delegatee == ZERO then d.delegator else d.delegatee)
            && (forall a :: a != d.delegator ==> DelegateOf(e.token.votes, a) == DelegateOf(t.votes, a))
            && forall a :: a != ZERO ==>
                 CurrentVotes(e.token.votes, a) == CurrentVotes(t.votes, a)
                   - (if a == was then amount else 0) + (if a == d.delegatee then amount else 0)
  {
    var d := DelegationOf(sender, call);
    var chosen := Chosen(t.votes, d);
    var was, amount := DelegateOf(t.votes, d.delegator), Balance(t.ledger, d.delegator);
    ChosenSame(t.votes, block, d);
    CallIsMove(t, block, sender, call);
    hide Exec, MoveDelegates, CurrentVotes, Dated, Chosen, Balance;
    MoveDelegatesExact(chosen, block, was, d.delegatee, amount);
    var v' := MoveDelegates(chosen, block, was, d.delegatee, amount).value;
    SameChoices(chosen, v');
    hide DelegateOf, DelegationOf;
  }

  lemma SameChoices(v: Votes, v': Votes)
    requires v'.delegates == v.delegates
    ensures forall a :: DelegateOf(v', a) == DelegateOf(v, a)
  {
  }

  lemma HeldFit(t: Token, block: nat, a: Address)
    requires Sound(t, block)
    ensures Balance(t.ledger, a) <= t.nextId
  {
    FewerThan(Held(t.ledger, a), t.nextId);
    hide Dated;
  }

  lemma RoomFor(t: Token, d: Address)
    requires NoDebt(t) && forall id :: id in t.ledger.owners ==> id < t.nextId
    ensures d != ZERO ==> CurrentVotes(t.votes, d) <= t.nextId
  {
    if d != ZERO {
      VotesFit(t, d);
    }
  }

  // The delegate an account last chose, itself if it chose none or the zero address.
  ghost function LastDelegate(n: Net, steps: seq<Step>, a: Address): Address {
    if steps == [] then DelegateOf(n.token.votes, a)
    else
      var k := |steps| - 1;
      var m, s := Run(n, steps[..k]), steps[k];
      if GoesThrough(m, s) && (s.call.Delegate? || s.call.DelegateBySig?) && DelegationOf(s.sender, s.call).delegator == a then
        var chosen := DelegationOf(s.sender, s.call).delegatee;
        if chosen == ZERO then a else chosen
      else LastDelegate(n, steps[..k], a)
  }

  lemma CallDelegates(t: Token, block: nat, sender: Address, call: Call, a: Address)
    requires Exec(t, block, sender, call).Ok?
    ensures var v, v' := t.votes, Exec(t, block, sender, call).value.token.votes;
            if (call.Delegate? || call.DelegateBySig?) && DelegationOf(sender, call).delegator == a then
              var chosen := DelegationOf(sender, call).delegatee;
              DelegateOf(v', a) == if chosen == ZERO then a else chosen
            else DelegateOf(v', a) == DelegateOf(v, a)
  {
    hide TakeVotes, GiveVotes, MayMove, MintTo, Debit, Credit;
    match call {
      case Mint(reward, regular) => MintDelegates(t, block, reward, regular);
      case _ => hide MoveDelegates; CallKeepsDelegates(t, block, sender, call);
    }
  }

  lemma MovedDelegates(v: Votes, block: nat, src: Address, dst: Address, amount: nat)
    requires MoveDelegates(v, block, src, dst, amount).Ok?
    ensures MoveDelegates(v, block, src, dst, amount).value.delegates == v.delegates
  {
  }

  lemma MintDelegates(t: Token, block: nat, reward: Seeding, regular: Seeding)
    requires MintBoth(t, block, reward, regular).Ok?
    ensures MintBoth(t, block, reward, regular).value.token.votes.delegates == t.votes.delegates
  {
    hide MintNext;
    if t.nextId <= LAST_REWARD && t.nextId % 10 == 0 {
      var first := MintNext(t, block, t.noundersDAO, reward).value.token;
      MintNextDelegates(t, block, t.noundersDAO, reward);
      MintNextDelegates(first, block, first.minter, regular);
    } else {
      MintNextDelegates(t, block, t.minter, regular);
    }
  }

  lemma MintNextDelegates(t: Token, block: nat, to: Address, seeding: Seeding)
    requires MintNext(t, block, to, seeding).Ok?
    ensures MintNext(t, block, to, seeding).value.token.votes.delegates == t.votes.delegates
  {
    MovedDelegates(t.votes, block, DelegateOf(t.votes, ZERO), DelegateOf(t.votes, to), 1);
    hide MoveDelegates;
  }

  lemma CallKeepsDelegates(t: Token, block: nat, sender: Address, call: Call)
    requires Exec(t, block, sender, call).Ok? && !call.Mint?
    ensures Exec(t, block, sender, call).value.token.votes.delegates ==
            if call.Delegate? || call.DelegateBySig?
            then t.votes.delegates[DelegationOf(sender, call).delegator := DelegationOf(sender, call).delegatee]
            else t.votes.delegates
  {
    hide MoveDelegates, MayMove, Debit, Credit;
    match call {
      case TransferFrom(from, to, id) => MovedDelegates(t.votes, block, DelegateOf(t.votes, from), DelegateOf(t.votes, to), 1);
      case Burn(id) => MovedDelegates(t.votes, block, DelegateOf(t.votes, t.ledger.owners[id]), DelegateOf(t.votes, ZERO), 1);
      case Delegate(_) =>
        var d := DelegationOf(sender, call);
        MovedDelegates(t.votes.(delegates := t.votes.delegates[d.delegator := d.delegatee]), block,
                       DelegateOf(t.votes, d.delegator), d.delegatee, Balance(t.ledger, d.delegator));
      case DelegateBySig(_, _) =>
        var d := DelegationOf(sender, call);
        MovedDelegates(t.votes.(delegates := t.votes.delegates[d.delegator := d.delegatee]), block,
                       DelegateOf(t.votes, d.delegator), d.delegatee, Balance(t.ledger, d.delegator));
      case _ =>
    }
  }

  lemma StepDelegates(n: Net, s: Step, a: Address)
    ensures DelegateOf(Next(n, s).token.votes, a) ==
            if GoesThrough(n, s) && (s.call.Delegate? || s.call.DelegateBySig?) && DelegationOf(s.sender, s.call).delegator == a then
              var chosen := DelegationOf(s.sender, s.call).delegatee;
              if chosen == ZERO then a else chosen
            else DelegateOf(n.token.votes, a)
  {
    hide Exec, DelegateOf, DelegationOf;
    if GoesThrough(n, s) {
      CallDelegates(n.token, n.block, s.sender, s.call, a);
    }
  }

  // After any run an account's delegate is the one it last chose.
  lemma {:induction false} DelegatesExact(n: Net, steps: seq<Step>, a: Address)
    ensures DelegateOf(Run(n, steps).token.votes, a) == LastDelegate(n, steps, a)
  {
    if steps != [] {
      hide Next, DelegateOf, Exec, DelegationOf;
      var k := |steps| - 1;
      DelegatesExact(n, steps[..k], a);
      StepDelegates(Run(n, steps[..k]), steps[k], a);
    }
  }
}
