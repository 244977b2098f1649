// The token contract itself, updating its storage in place: NounsToken.sol with the base contracts
// it inherits, in packages/nouns-contracts/contracts. Each external method is proved to be one
// transition of Token.Exec: all of its effect, or none.
module TokenContract {
  import opened Chain
  import opened Ledger
  import opened Votes
  import opened Token

  // Block time, block number and the event log, shared by all contracts.
  class Blockchain {
    var time: nat
    var block: nat
    var log: seq<Event>

    constructor (time: nat, block: nat)
      ensures this.time == time && this.block == block && log == []
    {
      this.time, this.block, log := time, block, [];
    }
  }

  // A call ended as the specification says, and left nothing behind unless it succeeded.
  ghost predicate Transacted(r: Result<Effect>, t: Token, log: seq<Event>, t': Token, log': seq<Event>, st: Status) {
    && st == StatusOf(r)
    && (r.Ok? ==> t' == r.value.token && log' == log + r.value.events)
    && (!r.Ok? ==> t' == t && log' == log)
  }

  // An internal step ended as specified; when it did not succeed, the caller must revert.
  ghost predicate Stepped(r: Result<Effect>, log: seq<Event>, t': Token, log': seq<Event>, st: Status) {
    && st == StatusOf(r)
    && (r.Ok? ==> t' == r.value.token && log' == log + r.value.events)
  }

  class NounsToken {
    const chain: Blockchain
    const proxies: map<Address, Address>
    var owners: map<nat, Address>
    var balances: map<Address, nat>
    var tokenApprovals: map<nat, Address>
    var operatorApprovals: set<(Address, Address)>
    var delegates: map<Address, Address>
    var checkpoints: map<Address, seq<Checkpoint>>
    var currentNounId: nat
    var minter: Address
    var noundersDAO: Address
    var owner: Address
    var isMinterLocked: bool

    function View(): Token
      reads this
    {
      Token(Ledger(owners, balances, tokenApprovals, operatorApprovals), Votes(delegates, checkpoints),
            currentNounId, minter, noundersDAO, owner, isMinterLocked, proxies)
    }

    constructor (chain: Blockchain, noundersDAO: Address, minter: Address, owner: Address, proxies: map<Address, Address>)
      ensures this.chain == chain
      ensures View() == Token(Ledger(map[], map[], map[], {}), Votes(map[], map[]), 0, minter, noundersDAO, owner, false, proxies)
    {
      this.chain, this.proxies := chain, proxies;
      owners, balances, tokenApprovals, operatorApprovals := map[], map[], map[], {};
      delegates, checkpoints, currentNounId := map[], map[], 0;
      this.minter, this.noundersDAO, this.owner, isMinterLocked := minter, noundersDAO, owner, false;
    }

    method Emit(e: Event)
      modifies chain`log
      ensures chain.log == old(chain.log) + [e]
    {
      chain.log := chain.log + [e];
    }

    // Undoes a call that failed.
    method Revert(t: Token, log: seq<Event>)
      requires t.proxies == proxies
      modifies this, chain`log
      ensures View() == t && chain.log == log
    {
      RevertHoldings(t.ledger, t.votes);
      RevertRoles(t);
      chain.log := log;
    }

    method RevertHoldings(l: Ledger, v: Votes)
      modifies `owners, `balances, `tokenApprovals, `operatorApprovals, `delegates, `checkpoints
      ensures View().ledger == l && View().votes == v
    {
      owners, balances, tokenApprovals, operatorApprovals := l.owners, l.balances, l.approvals, l.operators;
      delegates, checkpoints := v.delegates, v.checkpoints;
    }

    method RevertRoles(t: Token)
      requires t.proxies == proxies
      modifies `currentNounId, `minter, `noundersDAO, `owner, `isMinterLocked
      ensures View() == t.(ledger := View().ledger, votes := View().votes)
    {
      currentNounId, minter, noundersDAO, owner, isMinterLocked := t.nextId, t.minter, t.noundersDAO, t.owner, t.minterLocked;
    }

    // ----- Checkpoints

    method WriteCheckpoint(a: Address, votes: nat) returns (st: Status)
      modifies `checkpoints
      ensures var r := Write(History(old(View().votes), a), chain.block, votes);
              && st == StatusOf(r)
              && checkpoints == if r.Ok? then old(checkpoints)[a := r.value] else old(checkpoints)
    {
      if chain.block >= U32 {
        return Failed;
      }
      var h := if a in checkpoints then checkpoints[a] else [];
      if |h| > 0 && h[|h| - 1].fromBlock == chain.block {
        checkpoints := checkpoints[a := h[|h| - 1 := Checkpoint(chain.block, votes)]];
      } else {
        if |h| + 1 >= U32 {
          return Panicked;
        }
        checkpoints := checkpoints[a := h + [Checkpoint(chain.block, votes)]];
      }
      return Succeeded;
    }

    method MoveVotes(src: Address, dst: Address, amount: nat) returns (st: Status)
      modifies `checkpoints
      ensures var r := MoveDelegates(old(View().votes), chain.block, src, dst, amount);
              st == StatusOf(r) && (r.Ok? ==> View().votes == r.value)
    {
      hide Write;
      if src != dst && amount > 0 {
        if src != ZERO {
          var srcOld := CurrentVotes(View().votes, src);
          if srcOld < amount {
            return Failed;
          }
          st := WriteCheckpoint(src, srcOld - amount);
          if st != Succeeded {
            return;
          }
        }
        if dst != ZERO {
          var dstOld := CurrentVotes(View().votes, dst);
          if dstOld + amount >= U96 {
            return Panicked;
          }
          st := WriteCheckpoint(dst, dstOld + amount);
          if st != Succeeded {
            return;
          }
        }
      }
      return Succeeded;
    }

    method BeforeTokenTransfer(from: Address, to: Address) returns (st: Status)
      modifies `checkpoints
      ensures var r := BeforeTransfer(old(View().votes), chain.block, from, to);
              st == StatusOf(r) && (r.Ok? ==> View().votes == r.value)
    {
      var votes := View().votes;
      st := MoveVotes(DelegateOf(votes, from), DelegateOf(votes, to), 1);
    }

    // ----- Internal ledger operations

    method CreditToken(to: Address, id: nat)
      modifies `balances, `owners
      ensures View().ledger == Credit(old(View().ledger), to, id)
    {
      balances := balances[to := (if to in balances then balances[to] else 0) + 1];
      owners := owners[id := to];
    }

    method MintToken(to: Address, id: nat, seeding: Seeding) returns (st: Status)
      modifies this, chain`log
      ensures Stepped(MintTo(old(View()), chain.block, to, id, seeding), old(chain.log), View(), chain.log, st)
    {
      hide BeforeTransfer, Credit;
      if seeding == SeederPanic {
        return Panicked;
      }
      if seeding == SeederError || to == ZERO || id in owners {
        return Failed;
      }
      st := BeforeTokenTransfer(ZERO, to);
      if st == Succeeded {
        CreditToken(to, id);
        Emit(Transfer(ZERO, owner, id));
        Emit(Transfer(owner, to, id));
      }
    }

    method DebitToken(from: Address, id: nat) returns (st: Status)
      modifies `tokenApprovals, `balances
      ensures var r := Debit(old(View().ledger), from, id);
              st == StatusOf(r) && (r.Ok? ==> View().ledger == r.value)
    {
      var balance := if from in balances then balances[from] else 0;
      if balance == 0 {
        return Panicked;
      }
      tokenApprovals := tokenApprovals[id := ZERO];
      balances := balances[from := balance - 1];
      return Succeeded;
    }

    method BurnInternal(id: nat) returns (st: Status)
      modifies this, chain`log
      ensures Stepped(BurnToken(old(View()), chain.block, id), old(chain.log), View(), chain.log, st)
    {
      hide BeforeTransfer;
      if id !in owners {
        return Failed;
      }
      var from := owners[id];
      st := BeforeTokenTransfer(from, ZERO);
      if st == Succeeded {
        st := DebitToken(from, id);
        if st == Succeeded {
          owners := owners - {id};
          Emit(Transfer(from, ZERO, id));
        }
      }
    }

    method TransferInternal(from: Address, to: Address, id: nat) returns (st: Status)
      modifies this, chain`log
      ensures Stepped(MoveToken(old(View()), chain.block, from, to, id), old(chain.log), View(), chain.log, st)
    {
      hide BeforeTransfer, Credit, Debit;
      var current := if id in owners then owners[id] else ZERO;
      if current == ZERO || current != from || to == ZERO {
        return Failed;
      }
      st := BeforeTokenTransfer(from, to);
      if st == Succeeded {
        st := DebitToken(from, id);
        if st == Succeeded {
          CreditToken(to, id);
          Emit(Transfer(from, to, id));
        }
      }
    }

    method MintOne(to: Address, seeding: Seeding) returns (st: Status, id: nat)
      modifies this, chain`log
      ensures Stepped(MintNext(old(View()), chain.block, to, seeding), old(chain.log), View(), chain.log, st)
      ensures id == old(currentNounId)
    {
      id := currentNounId;
      if currentNounId + 1 >= U256 {
        return Panicked, id;
      }
      currentNounId := currentNounId + 1;
      st := MintToken(to, id, seeding);
    }

    // ----- External calls

    method MintNouns(reward: Seeding, regular: Seeding) returns (st: Status, nounId: nat)
      modifies this, chain`log
      ensures Stepped(MintBoth(old(View()), chain.block, reward, regular), old(chain.log), View(), chain.log, st)
      ensures st == Succeeded ==> nounId + 1 == currentNounId
    {
      hide MintTo, MintNext;
      st, nounId := Succeeded, 0;
      if currentNounId <= LAST_REWARD && currentNounId % 10 == 0 {
        st, nounId := MintOne(noundersDAO, reward);
      }
      if st == Succeeded {
        MintNextCounts(View(), chain.block, minter, regular);
        st, nounId := MintOne(minter, regular);
      }
    }

    method Mint(sender: Address, reward: Seeding, regular: Seeding) returns (st: Status, nounId: nat)
      modifies this, chain`log
      ensures Transacted(Exec(old(View()), chain.block, sender, Call.Mint(reward, regular)),
                         old(View()), old(chain.log), View(), chain.log, st)
      ensures st == Succeeded ==> nounId + 1 == currentNounId
    {
      hide MintBoth;
      var before, log := View(), chain.log;
      if sender != minter {
        return Failed, 0;
      }
      st, nounId := MintNouns(reward, regular);
      if st != Succeeded {
        Revert(before, log);
      }
    }

    method Burn(sender: Address, id: nat) returns (st: Status)
      modifies this, chain`log
      ensures Transacted(Exec(old(View()), chain.block, sender, Call.Burn(id)),
                         old(View()), old(chain.log), View(), chain.log, st)
    {
      hide BurnToken;
      var before, log := View(), chain.log;
      if sender != minter {
        return Failed;
      }
      st := BurnInternal(id);
      if st != Succeeded {
        Revert(before, log);
      }
    }

    method TransferFrom(sender: Address, from: Address, to: Address, id: nat) returns (st: Status)
      modifies this, chain`log
      ensures Transacted(Exec(old(View()), chain.block, sender, Call.TransferFrom(from, to, id)),
                         old(View()), old(chain.log), View(), chain.log, st)
    {
      hide MoveToken;
      var before, log := View(), chain.log;
      if id !in owners || !IsApprovedOrOwner(sender, id) {
        return Failed;
      }
      st := TransferInternal(from, to, id);
      if st != Succeeded {
        Revert(before, log);
      }
    }

    function IsApprovedForAll(holder: Address, operator: Address): (approved: bool)
      reads this
      ensures approved == ApprovedForAll(View(), holder, operator)
    {
      (if holder in proxies then proxies[holder] else ZERO) == operator || (holder, operator) in operatorApprovals
    }

    function IsApprovedOrOwner(spender: Address, id: nat): (may: bool)
      requires id in owners
      reads this
      ensures may == MayMove(View(), spender, id)
    {
      spender == owners[id]
      || (if id in tokenApprovals then tokenApprovals[id] else ZERO) == spender
      || IsApprovedForAll(owners[id], spender)
    }

    method Approve(sender: Address, to: Address, id: nat) returns (st: Status)
      modifies `tokenApprovals
      ensures Transacted(Exec(old(View()), chain.block, sender, Call.Approve(to, id)),
                         old(View()), old(chain.log), View(), chain.log, st)
    {
      if id !in owners || to == owners[id] || !(sender == owners[id] || IsApprovedForAll(owners[id], sender)) {
        return Failed;
      }
      tokenApprovals := tokenApprovals[id := to];
      return Succeeded;
    }

    method SetApprovalForAll(sender: Address, operator: Address, approved: bool) returns (st: Status)
      modifies `operatorApprovals
      ensures Transacted(Exec(old(View()), chain.block, sender, Call.SetApprovalForAll(operator, approved)),
                         old(View()), old(chain.log), View(), chain.log, st)
    {
      if operator == sender {
        return Failed;
      }
      operatorApprovals := if approved then operatorApprovals + {(sender, operator)}
                           else operatorApprovals - {(sender, operator)};
      return Succeeded;
    }

    method SetMinter(sender: Address, newMinter: Address) returns (st: Status)
      modifies `minter
      ensures Transacted(Exec(old(View()), chain.block, sender, Call.SetMinter(newMinter)),
                         old(View()), old(chain.log), View(), chain.log, st)
    {
      if sender != owner || isMinterLocked {
        return Failed;
      }
      minter := newMinter;
      return Succeeded;
    }

    method LockMinter(sender: Address) returns (st: Status)
      modifies `isMinterLocked
      ensures Transacted(Exec(old(View()), chain.block, sender, Call.LockMinter),
                         old(View()), old(chain.log), View(), chain.log, st)
    {
      if sender != owner || isMinterLocked {
        return Failed;
      }
      isMinterLocked := true;
      return Succeeded;
    }

    method SetNoundersDAO(sender: Address, dao: Address) returns (st: Status)
      modifies `noundersDAO
      ensures Transacted(Exec(old(View()), chain.block, sender, Call.SetNoundersDAO(dao)),
                         old(View()), old(chain.log), View(), chain.log, st)
    {
      if sender != noundersDAO {
        return Failed;
      }
      noundersDAO := dao;
      return Succeeded;
    }

    method TransferOwnership(sender: Address, newOwner: Address) returns (st: Status)
      modifies `owner
      ensures Transacted(Exec(old(View()), chain.block, sender, Call.TransferOwnership(newOwner)),
                         old(View()), old(chain.log), View(), chain.log, st)
    {
      if sender != owner || newOwner == ZERO {
        return Failed;
      }
      owner := newOwner;
      return Succeeded;
    }

    method RenounceOwnership(sender: Address) returns (st: Status)
      modifies `owner
      ensures Transacted(Exec(old(View()), chain.block, sender, Call.RenounceOwnership),
                         old(View()), old(chain.log), View(), chain.log, st)
    {
      if sender != owner {
        return Failed;
      }
      owner := ZERO;
      return Succeeded;
    }

    method DelegateFrom(delegator: Address, delegatee: Address) returns (st: Status)
      modifies this
      ensures Stepped(Redelegate(old(View()), chain.block, delegator, delegatee), chain.log, View(), chain.log, st)
    {
      hide MoveDelegates;
      var current := DelegateOf(View().votes, delegator);
      delegates := delegates[delegator := delegatee];
      var amount := if delegator in balances then balances[delegator] else 0;
      if amount >= U96 {
        return Failed;
      }
      st := MoveVotes(current, delegatee, amount);
    }

    method Delegate(sender: Address, delegatee: Address) returns (st: Status)
      modifies this, chain`log
      ensures Transacted(Exec(old(View()), chain.block, sender, Call.Delegate(delegatee)),
                         old(View()), old(chain.log), View(), chain.log, st)
    {
      hide SetDelegate;
      var before, log := View(), chain.log;
      st := DelegateFrom(sender, if delegatee == ZERO then sender else delegatee);
      if st != Succeeded {
        Revert(before, log);
      }
    }

    // The signature, nonce and expiry checks are not part of this model: signatory is who signed.
    method DelegateBySig(sender: Address, signatory: Address, delegatee: Address) returns (st: Status)
      modifies this, chain`log
      ensures Transacted(Exec(old(View()), chain.block, sender, Call.DelegateBySig(signatory, delegatee)),
                         old(View()), old(chain.log), View(), chain.log, st)
    {
      hide SetDelegate;
      var before, log := View(), chain.log;
      if signatory == ZERO {
        return Failed;
      }
      st := DelegateFrom(signatory, delegatee);
      if st != Succeeded {
        Revert(before, log);
      }
    }
  }

  lemma MintNextCounts(t: Token, block: nat, to: Address, seeding: Seeding)
    ensures MintNext(t, block, to, seeding).Ok? ==> MintNext(t, block, to, seeding).value.token.nextId == t.nextId + 1
  {
  }
}
