// Delegation and vote checkpoints: packages/nouns-contracts/contracts/base/ERC721Checkpointable.sol.
module Votes {
  import opened Chain

  datatype Checkpoint = Checkpoint(fromBlock: nat, votes: nat)

  // numCheckpoints[a] is the length of a's list here.
  datatype Votes = Votes(delegates: map<Address, Address>, checkpoints: map<Address, seq<Checkpoint>>)

  function DelegateOf(v: Votes, a: Address): Address {
    if a in v.delegates && v.delegates[a] != ZERO then v.delegates[a] else a
  }

  function History(v: Votes, a: Address): seq<Checkpoint> {
    if a in v.checkpoints then v.checkpoints[a] else []
  }

  function LastVotes(h: seq<Checkpoint>): nat {
    if h == [] then 0 else h[|h| - 1].votes
  }

  function CurrentVotes(v: Votes, a: Address): nat {
    LastVotes(History(v, a))
  }

  function Write(h: seq<Checkpoint>, block: nat, votes: nat): Result<seq<Checkpoint>> {
    if block >= U32 then Error
    else if h != [] && h[|h| - 1].fromBlock == block then Ok(h[|h| - 1 := Checkpoint(block, votes)])
    else if |h| + 1 >= U32 then Panic
    else Ok(h + [Checkpoint(block, votes)])
  }

  function TakeVotes(v: Votes, block: nat, a: Address, amount: nat): Result<Votes> {
    if a == ZERO then Ok(v)
    else if CurrentVotes(v, a) < amount then Error
    else
      match Write(History(v, a), block, CurrentVotes(v, a) - amount)
      case Ok(h) => Ok(v.(checkpoints := v.checkpoints[a := h]))
      case Error => Error
      case Panic => Panic
  }

  function GiveVotes(v: Votes, block: nat, a: Address, amount: nat): Result<Votes> {
    if a == ZERO then Ok(v)
    else if CurrentVotes(v, a) + amount >= U96 then Panic
    else
      match Write(History(v, a), block, CurrentVotes(v, a) + amount)
      case Ok(h) => Ok(v.(checkpoints := v.checkpoints[a := h]))
      case Error => Error
      case Panic => Panic
  }

  function MoveDelegates(v: Votes, block: nat, src: Address, dst: Address, amount: nat): Result<Votes> {
    if src == dst || amount == 0 then Ok(v)
    else
      match TakeVotes(v, block, src, amount)
      case Ok(taken) => GiveVotes(taken, block, dst, amount)
      case Error => Error
      case Panic => Panic
  }

  // The hook run before every mint, transfer and burn.
  function BeforeTransfer(v: Votes, block: nat, from: Address, to: Address): Result<Votes> {
    MoveDelegates(v, block, DelegateOf(v, from), DelegateOf(v, to), 1)
  }

  function SetDelegate(v: Votes, block: nat, delegator: Address, delegatee: Address, balance: nat): Result<Votes> {
    if balance >= U96 then Error
    else MoveDelegates(v.(delegates := v.delegates[delegator := delegatee]), block, DelegateOf(v, delegator), delegatee, balance)
  }

  // The votes an account had at the end of a block, according to its checkpoints.
  function PriorVotes(h: seq<Checkpoint>, block: nat): nat {
    if h == [] then 0
    else if h[|h| - 1].fromBlock <= block then h[|h| - 1].votes
    else PriorVotes(h[..|h| - 1], block)
  }

  ghost predicate Chronological(h: seq<Checkpoint>, block: nat) {
    && (forall i :: 0 <= i < |h| ==> h[i].fromBlock <= block)
    && (forall i, j :: 0 <= i < j < |h| ==> h[i].fromBlock < h[j].fromBlock)
  }

  // getPriorVotes: the newest checkpoint, then the oldest, then a binary search between them.
  method GetPriorVotes(h: seq<Checkpoint>, now: nat, block: nat) returns (votes: Result<nat>)
    requires Chronological(h, now)
    ensures votes == if block < now then Ok(PriorVotes(h, block)) else Error
  {
    if block >= now {
      return Error;
    }
    if |h| == 0 {
      return Ok(0);
    }
    if h[|h| - 1].fromBlock <= block {
      return Ok(h[|h| - 1].votes);
    }
    if h[0].fromBlock > block {
      BeforeFirst(h, block);
      return Ok(0);
    }
    var lower, upper := 0, |h| - 1;
    while upper > lower
      invariant 0 <= lower <= upper < |h|
      invariant h[lower].fromBlock <= block
      invariant forall i :: upper < i < |h| ==> block < h[i].fromBlock
    {
      var center := upper - (upper - lower) / 2;
      var cp := h[center];
      if cp.fromBlock == block {
        LastAtOrBefore(h, block, center);
        return Ok(cp.votes);
      } else if cp.fromBlock < block {
        lower := center;
      } else {
        upper := center - 1;
      }
    }
    LastAtOrBefore(h, block, lower);
    return Ok(h[lower].votes);
  }

  lemma {:induction false} BeforeFirst(h: seq<Checkpoint>, block: nat)
    requires forall i :: 0 <= i < |h| ==> block < h[i].fromBlock
    ensures PriorVotes(h, block) == 0
  {
    if h != [] {
      BeforeFirst(h[..|h| - 1], block);
    }
  }

  lemma {:induction false} LastAtOrBefore(h: seq<Checkpoint>, block: nat, i: nat)
    requires i < |h| && h[i].fromBlock <= block
    requires forall j :: i < j < |h| ==> block < h[j].fromBlock
    ensures PriorVotes(h, block) == h[i].votes
  {
    if i < |h| - 1 {
      LastAtOrBefore(h[..|h| - 1], block, i);
    }
  }

  // ----- Writing a checkpoint changes the present and never the past

  lemma WriteKeepsPast(h: seq<Checkpoint>, block: nat, votes: nat)
    requires Chronological(h, block) && Write(h, block, votes).Ok?
    ensures var h' := Write(h, block, votes).value;
            && Chronological(h', block)
            && LastVotes(h') == votes
            && (forall past: nat :: past < block ==> PriorVotes(h', past) == PriorVotes(h, past))
  {
    var h' := Write(h, block, votes).value;
    var n := |h| - 1;
    if h != [] && h[n].fromBlock == block {
      assert h'[..n] == h[..n];
    } else {
      assert h'[..|h|] == h;
    }
  }

  ghost predicate Dated(v: Votes, block: nat) {
    forall a :: Chronological(History(v, a), block)
  }

  // Everything one movement of votes does, for every account.
  lemma MoveDelegatesExact(v: Votes, block: nat, src: Address, dst: Address, amount: nat)
    requires Dated(v, block) && MoveDelegates(v, block, src, dst, amount).Ok?
    ensures var v' := MoveDelegates(v, block, src, dst, amount).value;
            && v'.delegates == v.delegates
            && Dated(v', block)
            && (forall a :: a != ZERO ==>
                  CurrentVotes(v', a) == CurrentVotes(v, a) - (if a == src then amount else 0) + (if a == dst then amount else 0))
            && (forall a, past: nat :: past < block ==> PriorVotes(History(v', a), past) == PriorVotes(History(v, a), past))
  {
    hide Write, PriorVotes, LastVotes;
    if src != dst && amount != 0 {
      var taken := TakeVotes(v, block, src, amount).value;
      TakeExact(v, block, src, amount);
      GiveExact(taken, block, dst, amount);
      var v' := GiveVotes(taken, block, dst, amount).value;
      forall a, past: nat | past < block
        ensures PriorVotes(History(v', a), past) == PriorVotes(History(v, a), past)
      {
        assert PriorVotes(History(taken, a), past) == PriorVotes(History(v, a), past);
      }
    }
  }

  lemma TakeExact(v: Votes, block: nat, src: Address, amount: nat)
    requires Dated(v, block) && TakeVotes(v, block, src, amount).Ok?
    ensures var v' := TakeVotes(v, block, src, amount).value;
            && v'.delegates == v.delegates && Dated(v', block)
            && (forall a :: a != ZERO ==> CurrentVotes(v', a) == CurrentVotes(v, a) - (if a == src then amount else 0))
            && (forall a, past: nat :: past < block ==> PriorVotes(History(v', a), past) == PriorVotes(History(v, a), past))
  {
    hide Write, PriorVotes, LastVotes;
    if src != ZERO {
      WriteKeepsPast(History(v, src), block, CurrentVotes(v, src) - amount);
      var v' := TakeVotes(v, block, src, amount).value;
      forall a
        ensures Chronological(History(v', a), block)
      {
        assert Chronological(History(v, a), block);
      }
    }
  }

  lemma GiveExact(v: Votes, block: nat, dst: Address, amount: nat)
    requires Dated(v, block) && GiveVotes(v, block, dst, amount).Ok?
    ensures var v' := GiveVotes(v, block, dst, amount).value;
            && v'.delegates == v.delegates && Dated(v', block)
            && (forall a :: a != ZERO ==> CurrentVotes(v', a) == CurrentVotes(v, a) + (if a == dst then amount else 0))
            && (forall a, past: nat :: past < block ==> PriorVotes(History(v', a), past) == PriorVotes(History(v, a), past))
  {
    hide Write, PriorVotes, LastVotes;
    if dst != ZERO {
      WriteKeepsPast(History(v, dst), block, CurrentVotes(v, dst) + amount);
      var v' := GiveVotes(v, block, dst, amount).value;
      forall a
        ensures Chronological(History(v', a), block)
      {
        assert Chronological(History(v, a), block);
      }
    }
  }

  // Asked about the current block or later, the checkpoints give the current votes.
  lemma PriorIsCurrent(h: seq<Checkpoint>, block: nat)
    requires Chronological(h, block)
    ensures PriorVotes(h, block) == LastVotes(h)
  {
  }
}
