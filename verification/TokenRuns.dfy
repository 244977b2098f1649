// What holds after any sequence of calls on the token, block by block.
module TokenRuns {
  import opened Chain
  import opened Ledger
  import opened Votes
  import opened Token

  function Deployed(minter: Address, dao: Address, owner: Address, proxies: map<Address, Address>): Token {
    Token(Ledger(map[], map[], map[], {}), Votes(map[], map[]), 0, minter, dao, owner, false, proxies)
  }

  lemma DeployedSound(t: Token, block: nat)
    requires t == Deployed(t.minter, t.noundersDAO, t.owner, t.proxies)
    ensures Sound(t, block)
    ensures forall d :: Shortfall(t, d) == 0
  {
    forall a
      ensures Held(t.ledger, a) == {} && DelegatedTo(t.votes, t.ledger.owners, a) == {}
    {
    }
  }

  lemma NextSound(n: Net, s: Step)
    requires Sound(n.token, n.block) && Sent(s)
    ensures Sound(Next(n, s).token, Next(n, s).block)
  {
    match s {
      case By(sender, call) =>
        if Exec(n.token, n.block, sender, call).Ok? {
          ExecKeeps(n.token, n.block, sender, call);
        }
      case Roll(blocks) =>
    }
  }

  lemma {:induction false} RunSound(n: Net, steps: seq<Step>)
    requires Sound(n.token, n.block) && AllSent(steps)
    ensures Sound(Run(n, steps).token, Run(n, steps).block)
    ensures Run(n, steps).block >= n.block
  {
    hide Sound, Exec;
    if steps != [] {
      var k := |steps| - 1;
      RunSound(n, steps[..k]);
      NextSound(Run(n, steps[..k]), steps[k]);
    }
  }

  // ----- Votes

  function StepSignedAway(n: Net, s: Step, d: Address): int {
    if s.By? && Exec(n.token, n.block, s.sender, s.call).Ok? then SignedAway(n.token, s.call, d) else 0
  }

  // All the votes d has signed over to the zero address in a run.
  function GivenUp(n: Net, steps: seq<Step>, d: Address): int {
    if steps == [] then 0
    else
      var k := |steps| - 1;
      GivenUp(n, steps[..k], d) + StepSignedAway(Run(n, steps[..k]), steps[k], d)
  }

  // After any run an account's votes are the tokens delegated to it, less exactly the votes it gave up.
  lemma {:induction false} VotesOverRun(n: Net, steps: seq<Step>, d: Address)
    requires Sound(n.token, n.block) && AllSent(steps) && d != ZERO
    ensures Shortfall(Run(n, steps).token, d) == Shortfall(n.token, d) + GivenUp(n, steps, d)
    ensures GivenUp(n, steps, d) >= 0
  {
    hide Sound, Exec, Shortfall;
    if steps != [] {
      var k := |steps| - 1;
      VotesOverRun(n, steps[..k], d);
      RunSound(n, steps[..k]);
      var m, s := Run(n, steps[..k]), steps[k];
      if s.By? && Exec(m.token, m.block, s.sender, s.call).Ok? {
        ExecKeeps(m.token, m.block, s.sender, s.call);
      }
    }
  }

  ghost predicate VotesMatchTokens(t: Token) {
    forall d :: d != ZERO ==> CurrentVotes(t.votes, d) == |DelegatedTo(t.votes, t.ledger.owners, d)|
  }

  ghost predicate NothingGivenUp(n: Net, steps: seq<Step>) {
    forall d :: d != ZERO ==> GivenUp(n, steps, d) == 0
  }

  // Every account's votes equal the tokens delegated to it exactly when nobody gave votes up.
  lemma VotesExact(n: Net, steps: seq<Step>)
    requires n.token == Deployed(n.token.minter, n.token.noundersDAO, n.token.owner, n.token.proxies) && AllSent(steps)
    ensures VotesMatchTokens(Run(n, steps).token) <==> NothingGivenUp(n, steps)
  {
    DeployedSound(n.token, n.block);
    hide Run, GivenUp, CurrentVotes, DelegatedTo, AllSent;
    var t := Run(n, steps).token;
    forall d | d != ZERO
      ensures CurrentVotes(t.votes, d) == |DelegatedTo(t.votes, t.ledger.owners, d)| - GivenUp(n, steps, d)
    {
      VotesOverRun(n, steps, d);
    }
  }

  lemma NextKeepsPast(n: Net, s: Step, a: Address, past: nat)
    requires Sound(n.token, n.block) && Sent(s) && past < n.block
    ensures PriorVotes(History(Next(n, s).token.votes, a), past) == PriorVotes(History(n.token.votes, a), past)
  {
    hide Sound, PriorVotes;
    if s.By? && Exec(n.token, n.block, s.sender, s.call).Ok? {
      ExecKeeps(n.token, n.block, s.sender, s.call);
    }
  }

  // A block that ended with step i answers every later query with the votes held at that moment.
  lemma {:induction false} PriorVotesRecorded(n: Net, steps: seq<Step>, i: nat, a: Address, block: nat)
    requires Sound(n.token, n.block) && AllSent(steps) && i < |steps|
    requires Run(n, steps[..i]).block <= block < Run(n, steps[..i + 1]).block
    ensures block < Run(n, steps).block
    ensures PriorVotes(History(Run(n, steps).token.votes, a), block) == CurrentVotes(Run(n, steps[..i]).token.votes, a)
  {
    hide Sound, PriorVotes, Exec;
    var k := |steps| - 1;
    var m := Run(n, steps[..k]);
    RunSound(n, steps[..k]);
    if i == k {
      assert steps[..i + 1] == steps;
      assert steps[k].Roll?;
      PastIsPresent(m, a, block);
    } else {
      assert steps[..k][..i] == steps[..i] && steps[..k][..i + 1] == steps[..i + 1];
      PriorVotesRecorded(n, steps[..k], i, a, block);
      NextKeepsPast(m, steps[k], a, block);
    }
  }

  lemma PastIsPresent(n: Net, a: Address, block: nat)
    requires Sound(n.token, n.block) && n.block <= block
    ensures PriorVotes(History(n.token.votes, a), block) == CurrentVotes(n.token.votes, a)
  {
    assert Chronological(History(n.token.votes, a), n.block);
    PriorIsCurrent(History(n.token.votes, a), block);
  }

  // ----- When the vote hook lets a token go

  lemma {:induction false} HistoryLength(h: seq<Checkpoint>, block: nat, i: nat)
    requires Chronological(h, block) && i < |h|
    ensures h[i].fromBlock >= i
  {
    if i > 0 {
      HistoryLength(h, block, i - 1);
    }
  }

  // Room left in the contract's integer widths.
  ghost predicate WithinWidths(t: Token, block: nat) {
    block + 3 < U32 && t.nextId + 1 < U96
  }

  lemma WriteSucceeds(h: seq<Checkpoint>, block: nat, votes: nat)
    requires Chronological(h, block) && block + 3 < U32
    ensures Write(h, block, votes).Ok?
  {
    if h != [] {
      HistoryLength(h, block, |h| - 1);
    }
  }

  lemma {:induction false} FewerThan(s: set<nat>, n: nat)
    requires forall i <- s :: i < n
    ensures |s| <= n
  {
    if n > 0 {
      FewerThan(s - {n - 1}, n - 1);
      assert |s| <= |s - {n - 1}| + 1;
    } else {
      assert s == {};
    }
  }

  lemma MoveSucceeds(v: Votes, block: nat, src: Address, dst: Address)
    requires Dated(v, block) && block + 3 < U32 && CurrentVotes(v, dst) + 1 < U96 && src != ZERO && src != dst
    ensures MoveDelegates(v, block, src, dst, 1).Ok? <==> CurrentVotes(v, src) > 0
  {
    assert Chronological(History(v, src), block) && Chronological(History(v, dst), block);
    hide Chronological, LastVotes, Dated;
    if CurrentVotes(v, src) > 0 {
      WriteSucceeds(History(v, src), block, CurrentVotes(v, src) - 1);
    }
    WriteSucceeds(History(v, dst), block, CurrentVotes(v, dst) + 1);
    hide Write;
  }

  // The vote hook lets a token go exactly when both parties have one delegate or the owner's
  // delegate has a vote left to take.
  lemma HookExact(t: Token, block: nat, from: Address, to: Address, id: nat)
    requires Sound(t, block) && WithinWidths(t, block)
    requires id in t.ledger.owners && t.ledger.owners[id] == from
    requires to != ZERO ==> Shortfall(t, DelegateOf(t.votes, to)) >= 0
    ensures BeforeTransfer(t.votes, block, from, to).Ok? <==>
              DelegateOf(t.votes, from) == DelegateOf(t.votes, to) || CurrentVotes(t.votes, DelegateOf(t.votes, from)) > 0
  {
    var src, dst := DelegateOf(t.votes, from), DelegateOf(t.votes, to);
    assert src != ZERO && (to == ZERO ==> dst == ZERO);
    if src != dst {
      if to == ZERO {
        TakeSucceeds(t.votes, block, src);
      } else {
        FewerThan(DelegatedTo(t.votes, t.ledger.owners, dst), t.nextId);
        hide DelegatedTo, MoveDelegates, CurrentVotes, Dated;
        MoveSucceeds(t.votes, block, src, dst);
      }
    }
  }

  lemma TakeSucceeds(v: Votes, block: nat, src: Address)
    requires Dated(v, block) && block + 3 < U32 && src != ZERO
    ensures MoveDelegates(v, block, src, ZERO, 1).Ok? <==> CurrentVotes(v, src) > 0
  {
    assert Chronological(History(v, src), block);
    hide Chronological, LastVotes, Dated;
    if CurrentVotes(v, src) > 0 {
      WriteSucceeds(History(v, src), block, CurrentVotes(v, src) - 1);
    }
    hide Write;
  }

  // An account nobody is short of votes through always has one for each token delegated to it.
  lemma DelegateHasVotes(t: Token, id: nat)
    requires id in t.ledger.owners && Shortfall(t, DelegateOf(t.votes, t.ledger.owners[id])) == 0
    ensures CurrentVotes(t.votes, DelegateOf(t.votes, t.ledger.owners[id])) > 0
  {
    var held := DelegatedTo(t.votes, t.ledger.owners, DelegateOf(t.votes, t.ledger.owners[id]));
    assert id in held;
    assert |held - {id}| + 1 == |held|;
    hide CurrentVotes;
  }

  // When transferFrom goes through.
  lemma TransferExact(t: Token, block: nat, sender: Address, from: Address, to: Address, id: nat)
    requires Sound(t, block) && WithinWidths(t, block)
    requires to != ZERO ==> Shortfall(t, DelegateOf(t.votes, to)) >= 0
    ensures Exec(t, block, sender, TransferFrom(from, to, id)).Ok? <==>
              && id in t.ledger.owners && t.ledger.owners[id] == from && from != ZERO && to != ZERO
              && (sender == from || sender == Approved(t.ledger, id) || ApprovedForAll(t, from, sender))
              && (DelegateOf(t.votes, from) == DelegateOf(t.votes, to) || CurrentVotes(t.votes, DelegateOf(t.votes, from)) > 0)
  {
    if id in t.ledger.owners {
      DebitCounted(t.ledger, t.ledger.owners[id], id);
      HookExact(t, block, t.ledger.owners[id], to, id);
    }
    hide BeforeTransfer, Debit, Shortfall, CurrentVotes, DelegateOf, Dated, Counted, ApprovedForAll;
  }

  // In any run, an owner is refused the transfer of its own token to another account exactly when
  // the two have different delegates and its own has given up the votes of all tokens delegated to it.
  lemma OwnerRefusedExact(n: Net, steps: seq<Step>, to: Address, id: nat)
    requires n.token == Deployed(n.token.minter, n.token.noundersDAO, n.token.owner, n.token.proxies) && AllSent(steps)
    requires var m := Run(n, steps); WithinWidths(m.token, m.block) && id in m.token.ledger.owners && to != ZERO
    ensures var m := Run(n, steps); var owner := m.token.ledger.owners[id]; var d := DelegateOf(m.token.votes, owner);
            !Exec(m.token, m.block, owner, TransferFrom(owner, to, id)).Ok? <==>
              d != DelegateOf(m.token.votes, to) && GivenUp(n, steps, d) == |DelegatedTo(m.token.votes, m.token.ledger.owners, d)|
  {
    DeployedSound(n.token, n.block);
    RunSound(n, steps);
    var m := Run(n, steps);
    var owner := m.token.ledger.owners[id];
    NonZeroDelegate(m.token, m.block, owner, to);
    hide Run, GivenUp, AllSent, Exec, Deployed, WithinWidths, DelegateOf;
    VotesOverRun(n, steps, DelegateOf(m.token.votes, owner));
    VotesOverRun(n, steps, DelegateOf(m.token.votes, to));
    TransferExact(m.token, m.block, owner, owner, to, id);
    hide Sound, DelegatedTo, CurrentVotes;
  }

  lemma NonZeroDelegate(t: Token, block: nat, a: Address, b: Address)
    requires Sound(t, block) && a in t.ledger.owners.Values && b != ZERO
    ensures a != ZERO && DelegateOf(t.votes, a) != ZERO && DelegateOf(t.votes, b) != ZERO
  {
    hide Dated;
  }

  // ----- The reward schedule

  function NextIdAfter(mints: nat): nat {
    mints + if (mints + 8) / 9 < 183 then (mints + 8) / 9 else 183
  }

  ghost predicate IsReward(id: nat) {
    id % 10 == 0 && id <= LAST_REWARD
  }

  ghost predicate MintsAt(n: Net, s: Step) {
    s.By? && s.call.Mint? && Exec(n.token, n.block, s.sender, s.call).Ok?
  }

  ghost function Mints(n: Net, steps: seq<Step>): nat {
    if steps == [] then 0
    else
      var k := |steps| - 1;
      Mints(n, steps[..k]) + if MintsAt(Run(n, steps[..k]), steps[k]) then 1 else 0
  }

  ghost function RewardsWithin(first: nat, next: nat): set<nat> {
    set id | first <= id < next && IsReward(id)
  }

  // The new tokens a mint hands to the nounders of the moment, besides the one it reports.
  ghost function RewardIds(t: Token, e: Effect): set<nat> {
    set id | t.nextId <= id < e.token.nextId - 1 && Transfer(t.owner, t.noundersDAO, id) in e.events
  }

  // One call to mint: which tokens it creates, and for whom.
  lemma MintExact(t: Token, block: nat, sender: Address, reward: Seeding, regular: Seeding, mints: nat)
    requires Exec(t, block, sender, Mint(reward, regular)).Ok? && t.nextId == NextIdAfter(mints)
    ensures var e := Exec(t, block, sender, Mint(reward, regular)).value;
            && e.token.nextId == NextIdAfter(mints + 1)
            && RewardIds(t, e) == RewardsWithin(t.nextId, e.token.nextId)
            && e.events != [] && e.events[|e.events| - 1] == Transfer(t.owner, t.minter, e.token.nextId - 1)
            && !IsReward(e.token.nextId - 1)
  {
    hide NextIdAfter, MintBoth, RewardIds, RewardsWithin, MintedAs;
    assert Exec(t, block, sender, Mint(reward, regular)) == MintBoth(t, block, reward, regular);
    hide Exec;
    NextIdSteps(mints);
    MintedNext(t, MintBoth(t, block, reward, regular).value);
    MintEvents(t, block, reward, regular);
    hide IsReward;
    EventsRewarded(t, MintBoth(t, block, reward, regular).value);
  }

  ghost predicate MintedAs(t: Token, e: Effect) {
    var id := t.nextId;
    if IsReward(id) then
      && e.token.nextId == id + 2
      && e.events == [Transfer(ZERO, t.owner, id), Transfer(t.owner, t.noundersDAO, id),
                      Transfer(ZERO, t.owner, id + 1), Transfer(t.owner, t.minter, id + 1)]
    else
      && e.token.nextId == id + 1
      && e.events == [Transfer(ZERO, t.owner, id), Transfer(t.owner, t.minter, id)]
  }

  lemma MintedNext(t: Token, e: Effect)
    ensures MintedAs(t, e) ==> e.token.nextId == if IsReward(t.nextId) then t.nextId + 2 else t.nextId + 1
  {
    hide IsReward;
  }

  lemma EventsRewarded(t: Token, e: Effect)
    requires MintedAs(t, e) && (IsReward(t.nextId) ==> !IsReward(t.nextId + 1))
    ensures RewardIds(t, e) == RewardsWithin(t.nextId, e.token.nextId)
    ensures e.token.nextId > t.nextId && e.events != []
    ensures e.events[|e.events| - 1] == Transfer(t.owner, t.minter, e.token.nextId - 1)
  {
    if IsReward(t.nextId) {
      assert e.events[1] in e.events;
    }
  }

  lemma MintEvents(t: Token, block: nat, reward: Seeding, regular: Seeding)
    requires MintBoth(t, block, reward, regular).Ok?
    ensures MintedAs(t, MintBoth(t, block, reward, regular).value)
  {
    hide BeforeTransfer;
  }

  lemma NextIdSteps(mints: nat)
    ensures var id := NextIdAfter(mints);
            && NextIdAfter(mints + 1) == (if IsReward(id) then id + 2 else id + 1)
            && (IsReward(id) ==> !IsReward(id + 1))
  {
  }

  ghost function RewardsIn(n: Net, steps: seq<Step>): set<nat> {
    if steps == [] then {}
    else
      var k := |steps| - 1;
      var m := Run(n, steps[..k]);
      RewardsIn(n, steps[..k]) +
      if MintsAt(m, steps[k]) then RewardIds(m.token, Exec(m.token, m.block, steps[k].sender, steps[k].call).value) else {}
  }

  // After any run from deployment, the id counter follows from the number of mints alone, and the
  // nounders were minted exactly the multiples of ten up to the last reward.
  lemma {:induction false} RewardSchedule(n: Net, steps: seq<Step>)
    requires n.token.nextId == 0
    ensures Run(n, steps).token.nextId == NextIdAfter(Mints(n, steps))
    ensures RewardsIn(n, steps) == RewardsWithin(0, Run(n, steps).token.nextId)
  {
    if steps == [] {
      assert NextIdAfter(0) == 0;
    } else {
      hide IsReward, NextIdAfter, RewardIds;
      var k := |steps| - 1;
      RewardSchedule(n, steps[..k]);
      var m, s := Run(n, steps[..k]), steps[k];
      if MintsAt(m, s) {
        MintExact(m.token, m.block, s.sender, s.call.reward, s.call.regular, Mints(n, steps[..k]));
        NextIdGrows(Mints(n, steps[..k]));
      } else {
        NextIdKept(m, s);
      }
    }
  }

  lemma NextIdGrows(mints: nat)
    ensures NextIdAfter(mints) < NextIdAfter(mints + 1)
  {
  }

  lemma NextIdKept(n: Net, s: Step)
    requires !MintsAt(n, s)
    ensures Next(n, s).token.nextId == n.token.nextId
  {
  }
}
