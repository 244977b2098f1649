// A run of auction house and token together is, seen from the token alone, a run of the token; so
// all that holds of token runs holds beside the auction house.
module TokenProjection {
  import opened Chain
  import Ledger
  import Votes
  import opened Token
  import opened TokenRuns
  import opened Market
  import opened Enumerable
  import opened TokenCalls

  function Transfers(log: seq<Event>): seq<Event> {
    if log == [] then []
    else
      var e := log[|log| - 1];
      Transfers(log[..|log| - 1]) + if e.Transfer? then [e] else []
  }

  lemma {:induction false} TransfersConcat(log: seq<Event>, more: seq<Event>)
    ensures Transfers(log + more) == Transfers(log) + Transfers(more)
  {
    if more == [] {
      assert log + more == log;
    } else {
      var k := |more| - 1;
      TransfersConcat(log, more[..k]);
      assert (log + more)[..|log| + k] == log + more[..k];
    }
  }

  lemma {:induction false} TransfersOnly(log: seq<Event>)
    requires forall e <- log :: e.Transfer?
    ensures Transfers(log) == log
  {
    if log != [] {
      TransfersOnly(log[..|log| - 1]);
    }
  }

  lemma {:induction false} NoTransfers(log: seq<Event>)
    requires forall e <- log :: !e.Transfer?
    ensures Transfers(log) == []
  {
    if log != [] {
      NoTransfers(log[..|log| - 1]);
    }
  }

  // The world as the token sees it.
  function TokenSide(w: World): Net {
    w.net.(log := Transfers(w.net.log))
  }

  // The calls on the token that a move makes.
  function TokenSteps(w: World, m: Move): seq<Step> {
    match m
    case Wait(_, blocks) => [Roll(blocks)]
    case Do(sender, action) =>
      if !Accepted(w, m) then []
      else
        match action
        case OnToken(call) => [By(sender, call)]
        case SettleAuction(_) => [By(HOUSE, SettleCall(w.house.auction))]
        case SettleCurrentAndCreateNewAuction(_, reward, regular) =>
          [By(HOUSE, SettleCall(w.house.auction)), By(HOUSE, Mint(reward, regular))]
        case Unpause(reward, regular) =>
          if w.house.auction.startTime == 0 || w.house.auction.settled then [By(HOUSE, Mint(reward, regular))] else []
        case _ => []
  }

  function RunSteps(w: World, moves: seq<Move>): seq<Step> {
    if moves == [] then []
    else
      var k := |moves| - 1;
      RunSteps(w, moves[..k]) + TokenSteps(Play(w, moves[..k]), moves[k])
  }

  lemma {:induction false} RunConcat(n: Net, steps: seq<Step>, more: seq<Step>)
    ensures Run(n, steps + more) == Run(Run(n, steps), more)
  {
    hide Next;
    if more == [] {
      assert steps + more == steps;
    } else {
      var k := |more| - 1;
      RunConcat(n, steps, more[..k]);
      assert (steps + more)[..|steps| + k] == steps + more[..k];
    }
  }

  lemma RunFew(n: Net, s: Step, s': Step)
    ensures Run(n, []) == n
    ensures Run(n, [s]) == Next(n, s)
    ensures Run(n, [s, s']) == Next(Next(n, s), s')
  {
    hide Next;
    assert [s][..0] == [] && [s, s'][..1] == [s];
    assert Run(n, [s]) == Next(Run(n, []), s);
  }

  // A call on the token, followed by events of the house.
  lemma CallSeen(w: World, w': World, sender: Address, call: Call, after: seq<Event>)
    requires Exec(w.net.token, w.net.block, sender, call).Ok?
    requires var e := Exec(w.net.token, w.net.block, sender, call).value;
             w'.net == Net(e.token, w.net.block, w.net.log + e.events + after)
    requires forall e <- after :: !e.Transfer?
    ensures Next(TokenSide(w), By(sender, call)) == TokenSide(w')
  {
    hide Exec, Transfers;
    var e := Exec(w.net.token, w.net.block, sender, call).value;
    TokenEvents(w.net.token, w.net.block, sender, call);
    TransfersOnly(e.events);
    NoTransfers(after);
    TransfersConcat(w.net.log, e.events);
    TransfersConcat(w.net.log + e.events, after);
  }

  lemma SettleSeen(w: World, accepts: bool)
    requires Settle(w, accepts).Ok?
    ensures Next(TokenSide(w), By(HOUSE, SettleCall(w.house.auction))) == TokenSide(Settle(w, accepts).value)
  {
    hide Exec, Send, Next, TokenSide;
    var a := w.house.auction;
    CallSeen(w, Settle(w, accepts).value, HOUSE, SettleCall(a), [AuctionSettled(a.nounId, a.bidder, a.amount)]);
  }

  lemma CreateSeen(w: World, reward: Seeding, regular: Seeding)
    requires Create(w, reward, regular).Ok?
    ensures Next(TokenSide(w), By(HOUSE, Mint(reward, regular))) == TokenSide(Create(w, reward, regular).value)
  {
    hide Exec;
    var w' := Create(w, reward, regular).value;
    if Exec(w.net.token, w.net.block, HOUSE, Mint(reward, regular)).Ok? {
      var a := w'.house.auction;
      hide Next;
      CallSeen(w, w', HOUSE, Mint(reward, regular), [AuctionCreated(a.nounId, a.startTime, a.endTime)]);
    }
  }

  lemma BidSeen(w: World, sender: Address, nounId: nat, value: nat, accepts: bool)
    requires Bid(w, sender, nounId, value, accepts).Ok?
    ensures TokenSide(Bid(w, sender, nounId, value, accepts).value) == TokenSide(w)
  {
    hide Times, MinimumBid, Transfers;
    var w' := Bid(w, sender, nounId, value, accepts).value;
    var more := w'.net.log[|w.net.log|..];
    assert w'.net.log == w.net.log + more;
    NoTransfers(more);
    TransfersConcat(w.net.log, more);
  }

  lemma MoveSeen(w: World, m: Move)
    ensures Run(TokenSide(w), TokenSteps(w, m)) == TokenSide(Advance(w, m))
    ensures AllSent(TokenSteps(w, m))
  {
    hide Settle, Create, Exec, Run, Next, TokenSide, Bid;
    var n := TokenSide(w);
    if m.Wait? {
      RunFew(n, Roll(m.blocks), Roll(0));
      WaitSeen(w, m.seconds, m.blocks);
    } else if Accepted(w, m) {
      match m.action {
        case CreateBid(nounId, value, accepts) =>
          BidSeen(w, m.sender, nounId, value, accepts);
          RunFew(n, Roll(0), Roll(0));
        case SettleAuction(accepts) =>
          SettleSeen(w, accepts);
          RunFew(n, By(HOUSE, SettleCall(w.house.auction)), Roll(0));
        case SettleCurrentAndCreateNewAuction(accepts, reward, regular) =>
          SettleSeen(w, accepts);
          CreateSeen(Settle(w, accepts).value, reward, regular);
          RunFew(n, By(HOUSE, SettleCall(w.house.auction)), By(HOUSE, Mint(reward, regular)));
        case Unpause(reward, regular) =>
          var open := w.(house := w.house.(paused := false));
          SameNet(w, open);
          RunFew(n, By(HOUSE, Mint(reward, regular)), Roll(0));
          if w.house.auction.startTime == 0 || w.house.auction.settled {
            CreateSeen(open, reward, regular);
          }
        case OnToken(call) =>
          var w' := Advance(w, m);
          var e := Exec(w.net.token, w.net.block, m.sender, call).value;
          assert w'.net.log == w.net.log + e.events + [];
          CallSeen(w, w', m.sender, call, []);
          RunFew(n, By(m.sender, call), Roll(0));
        case _ =>
          SameNet(w, Advance(w, m));
          RunFew(n, Roll(0), Roll(0));
      }
    } else {
      RunFew(n, Roll(0), Roll(0));
    }
  }

  lemma SameNet(w: World, w': World)
    requires w'.net == w.net
    ensures TokenSide(w') == TokenSide(w)
  {
  }

  lemma WaitSeen(w: World, seconds: nat, blocks: nat)
    ensures Next(TokenSide(w), Roll(blocks)) == TokenSide(Advance(w, Wait(seconds, blocks)))
  {
    hide Transfers;
  }

  // Erasing the auction house from a run leaves a run of the token: same state, and the log of its transfers.
  lemma {:induction false} HouseErased(w: World, moves: seq<Move>)
    ensures Run(TokenSide(w), RunSteps(w, moves)) == TokenSide(Play(w, moves))
    ensures AllSent(RunSteps(w, moves))
  {
    hide Advance, TokenSide, TokenSteps, Run;
    if moves == [] {
      RunFew(TokenSide(w), Roll(0), Roll(0));
    } else {
      var k := |moves| - 1;
      HouseErased(w, moves[..k]);
      MoveSeen(Play(w, moves[..k]), moves[k]);
      RunConcat(TokenSide(w), RunSteps(w, moves[..k]), TokenSteps(Play(w, moves[..k]), moves[k]));
    }
  }

  // For instance: beside the auction house the token's lists stay exact, the nounders' rewards
  // keep their schedule, and an account is short of exactly the votes it signed away.
  lemma TokenBesideHouse(w: World, moves: seq<Move>, d: Address)
    requires Initial(w) && d != ZERO
    ensures var n, steps, t := TokenSide(w), RunSteps(w, moves), Play(w, moves).net.token;
            && Track(n, Listing(map[], map[], [], map[]), steps).Ok?
            && Listed(Track(n, Listing(map[], map[], [], map[]), steps).value, t.ledger)
            && t.nextId == NextIdAfter(Mints(n, steps))
            && RewardsIn(n, steps) == RewardsWithin(0, t.nextId)
            && Shortfall(t, d) == GivenUp(n, steps, d)
  {
    hide Run, Play, RunSteps, Track, Listed, Mints, RewardsIn, RewardsWithin, Shortfall, GivenUp, IsReward, NextIdAfter, Sound, AllSent;
    var n, steps := TokenSide(w), RunSteps(w, moves);
    HouseErased(w, moves);
    ListsExact(n, steps);
    RewardSchedule(n, steps);
    DeployedSound(n.token, n.block);
    VotesOverRun(n, steps, d);
  }

  // And approvals, delegates, operators and roles are those the calls on the token add up to.
  lemma HistoryBesideHouse(w: World, moves: seq<Move>, id: nat, a: Address, b: Address)
    requires Initial(w)
    ensures var n, steps, t := TokenSide(w), RunSteps(w, moves), Play(w, moves).net.token;
            && Ledger.Approved(t.ledger, id) == LastApproval(n, steps, id)
            && Votes.DelegateOf(t.votes, a) == LastDelegate(n, steps, a)
            && ((a, b) in t.ledger.operators <==> OperatorAfter(false, steps, a, b))
            && RolesOf(t) == RolesAfter(RolesOf(w.net.token), steps)
  {
    hide Run, Play, RunSteps, LastApproval, LastDelegate, OperatorAfter, RolesAfter, AllSent, RolesOf;
    var n, steps := TokenSide(w), RunSteps(w, moves);
    HouseErased(w, moves);
    ApprovalsExact(n, steps, id);
    DelegatesExact(n, steps, a);
    OperatorsExact(n, steps, a, b);
    RolesExact(n, steps);
  }
}
