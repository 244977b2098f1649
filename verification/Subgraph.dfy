// The indexer's store and the handlers that rebuild owners, balances, holder counters and auctions
// from event logs: packages/nouns-subgraph/src. A load gives a private copy of an entity; only a
// save changes the store.
module Subgraph {
  import opened Wrappers
  import opened Chain

  datatype Account = Account(tokenBalance: int, totalTokensHeld: int, nouns: seq<nat>, delegate: Option<Address>)

  datatype Governance = Governance(totalTokenHolders: int, currentTokenHolders: int, totalDelegates: int)

  datatype AuctionEntity = AuctionEntity(amount: nat, startTime: nat, endTime: nat, bidder: Option<Address>, settled: bool)

  // delegates keeps each delegate's list of represented nouns; nouns keeps each noun's owner.
  datatype Store = Store(accounts: map<Address, Account>, delegates: map<Address, seq<nat>>,
                         governance: Option<Governance>, nouns: map<nat, Address>, auctions: map<nat, AuctionEntity>)

  const EMPTY: Store := Store(map[], map[], None, map[], map[])
  const NEW_ACCOUNT: Account := Account(0, 0, [], None)

  function WithAccount(s: Store, a: Address): Store {
    if a in s.accounts then s else s.(accounts := s.accounts[a := NEW_ACCOUNT])
  }

  function GovernanceOf(s: Store): Governance {
    if s.governance.Some? then s.governance.value else Governance(0, 0, 0)
  }

  // Creating a delegate saves the governance entity too.
  function WithDelegate(s: Store, d: Address): Store {
    if d in s.delegates then s
    else
      var g := GovernanceOf(s);
      s.(delegates := s.delegates[d := []],
         governance := if d != ZERO then Some(g.(totalDelegates := g.totalDelegates + 1)) else s.governance)
  }

  function Without(nouns: seq<nat>, id: nat): seq<nat> {
    if nouns == [] then []
    else
      var k := |nouns| - 1;
      Without(nouns[..k], id) + if nouns[k] != id then [nouns[k]] else []
  }

  // The sender's half of a transfer: its copy and the governance copy, changed and saved. (A balance
  // just lowered by one cannot have become positive, nor one just raised have become zero, so those
  // two branches of the source are not written here.)
  function FromSide(s: Store, from: Address, holder: Account, g: Governance, id: nat): (Store, Governance) {
    var less := holder.(tokenBalance := holder.tokenBalance - 1, nouns := Without(holder.nouns, id));
    var s1 := if holder.delegate.None? then s
              else
                var d := holder.delegate.value;
                var s' := WithDelegate(s, d);
                s'.(delegates := s'.delegates[d := Without(s'.delegates[d], id)]);
    if less.tokenBalance == 0 && holder.tokenBalance > 0 then
      var g1 := g.(currentTokenHolders := g.currentTokenHolders - 1);
      (s1.(governance := Some(g1), accounts := s1.accounts[from := less.(delegate := None)]), g1)
    else (s1.(accounts := s1.accounts[from := less]), g)
  }

  // The recipient's half, working on the copies loaded before the sender's half ran.
  function ToSide(s: Store, to: Address, holder: Account, g: Governance, id: nat): Store {
    var g1 := if to == ZERO then g.(totalTokenHolders := g.totalTokenHolders - 1) else g;
    var s1 := if to == ZERO then s.(governance := Some(g1)) else s;
    var s2 := WithDelegate(s1, to);
    var s3 := s2.(delegates := s2.delegates[to := s2.delegates[to] + [id]]);
    var more := holder.(tokenBalance := holder.tokenBalance + 1, totalTokensHeld := holder.totalTokensHeld + 1,
                        nouns := holder.nouns + [id]);
    if more.tokenBalance > 0 && holder.tokenBalance == 0 then
      var g2 := g1.(currentTokenHolders := g1.currentTokenHolders + 1);
      s3.(governance := Some(g2), nouns := s3.nouns[id := to], accounts := s3.accounts[to := more.(delegate := Some(to))])
    else s3.(nouns := s3.nouns[id := to], accounts := s3.accounts[to := more])
  }

  function OnTransfer(s: Store, from: Address, to: Address, id: nat): Store {
    var loaded := WithAccount(WithAccount(s, from), to);
    var fromHolder, toHolder, g := loaded.accounts[from], loaded.accounts[to], GovernanceOf(loaded);
    if from == ZERO then
      var g1 := g.(totalTokenHolders := g.totalTokenHolders + 1);
      ToSide(loaded.(governance := Some(g1)), to, toHolder, g1, id)
    else
      var sent := FromSide(loaded, from, fromHolder, g, id);
      ToSide(sent.0, to, toHolder, sent.1, id)
  }

  function OnAuctionCreated(s: Store, nounId: nat, startTime: nat, endTime: nat): Store {
    if nounId !in s.nouns then s
    else s.(auctions := s.auctions[nounId := AuctionEntity(0, startTime, endTime, None, false)])
  }

  function OnAuctionBid(s: Store, nounId: nat, sender: Address, value: nat): Store {
    var s1 := WithAccount(s, sender);
    if nounId !in s1.auctions then s1
    else s1.(auctions := s1.auctions[nounId := s1.auctions[nounId].(amount := value, bidder := Some(sender))])
  }

  function OnAuctionExtended(s: Store, nounId: nat, endTime: nat): Store {
    if nounId !in s.auctions then s
    else s.(auctions := s.auctions[nounId := s.auctions[nounId].(endTime := endTime)])
  }

  function OnAuctionSettled(s: Store, nounId: nat): Store {
    if nounId !in s.auctions then s
    else s.(auctions := s.auctions[nounId := s.auctions[nounId].(settled := true)])
  }

  function On(s: Store, e: Event): Store {
    match e
    case Transfer(from, to, id) => OnTransfer(s, from, to, id)
    case AuctionCreated(nounId, startTime, endTime) => OnAuctionCreated(s, nounId, startTime, endTime)
    case AuctionBid(nounId, sender, value, _) => OnAuctionBid(s, nounId, sender, value)
    case AuctionExtended(nounId, endTime) => OnAuctionExtended(s, nounId, endTime)
    case AuctionSettled(nounId, _, _) => OnAuctionSettled(s, nounId)
  }

  // The store after a log, from nothing.
  function Replay(log: seq<Event>): Store {
    if log == [] then EMPTY else On(Replay(log[..|log| - 1]), log[|log| - 1])
  }

  // The store and its handlers, as they run.
  class Indexer {
    var accounts: map<Address, Account>
    var delegates: map<Address, seq<nat>>
    var governance: Option<Governance>
    var nouns: map<nat, Address>
    var auctions: map<nat, AuctionEntity>

    function View(): Store
      reads this
    {
      Store(accounts, delegates, governance, nouns, auctions)
    }

    constructor ()
      ensures View() == EMPTY
    {
      accounts, delegates, governance, nouns, auctions := map[], map[], None, map[], map[];
    }

    method GetOrCreateAccount(a: Address) returns (holder: Account)
      modifies `accounts
      ensures View() == WithAccount(old(View()), a) && a in accounts && holder == accounts[a]
    {
      if a !in accounts {
        accounts := accounts[a := NEW_ACCOUNT];
      }
      holder := accounts[a];
    }

    method GetGovernanceEntity() returns (g: Governance)
      ensures g == GovernanceOf(View())
    {
      g := if governance.Some? then governance.value else Governance(0, 0, 0);
    }

    method GetOrCreateDelegate(d: Address) returns (represented: seq<nat>)
      modifies `delegates, `governance
      ensures View() == WithDelegate(old(View()), d) && d in delegates && represented == delegates[d]
    {
      if d !in delegates {
        if d != ZERO {
          var g := GetGovernanceEntity();
          g := g.(totalDelegates := g.totalDelegates + 1);
          governance := Some(g);
        }
        delegates := delegates[d := []];
      }
      represented := delegates[d];
    }

    method Filter(list: seq<nat>, id: nat) returns (kept: seq<nat>)
      ensures kept == Without(list, id)
    {
      kept := [];
      for i := 0 to |list|
        invariant kept == Without(list[..i], id)
      {
        assert list[..i + 1][..i] == list[..i];
        if list[i] != id {
          kept := kept + [list[i]];
        }
      }
      assert list[..|list|] == list;
    }

    method HandleTransfer(from: Address, to: Address, id: nat)
      modifies this
      ensures View() == OnTransfer(old(View()), from, to, id)
    {
      var fromHolder := GetOrCreateAccount(from);
      var toHolder := GetOrCreateAccount(to);
      var g := GetGovernanceEntity();
      if from == ZERO {
        g := g.(totalTokenHolders := g.totalTokenHolders + 1);
        governance := Some(g);
      } else {
        g := HandleSender(from, fromHolder, g, id);
      }
      HandleRecipient(to, toHolder, g, id);
    }

    method HandleSender(from: Address, holder: Account, g: Governance, id: nat) returns (g': Governance)
      modifies `accounts, `delegates, `governance
      ensures (View(), g') == FromSide(old(View()), from, holder, g, id)
    {
      g' := g;
      var fromHolder := holder;
      var previousBalance := fromHolder.tokenBalance;
      fromHolder := fromHolder.(tokenBalance := fromHolder.tokenBalance - 1);
      var kept := Filter(fromHolder.nouns, id);
      fromHolder := fromHolder.(nouns := kept);
      if fromHolder.delegate.Some? {
        var d := fromHolder.delegate.value;
        var represented := GetOrCreateDelegate(d);
        represented := Filter(represented, id);
        delegates := delegates[d := represented];
      }
      if fromHolder.tokenBalance == 0 && previousBalance > 0 {
        g' := g'.(currentTokenHolders := g'.currentTokenHolders - 1);
        governance := Some(g');
        fromHolder := fromHolder.(delegate := None);
      }
      accounts := accounts[from := fromHolder];
    }

    method HandleRecipient(to: Address, holder: Account, g: Governance, id: nat)
      modifies this
      ensures View() == ToSide(old(View()), to, holder, g, id)
    {
      var gov := g;
      var toHolder := holder;
      if to == ZERO {
        gov := gov.(totalTokenHolders := gov.totalTokenHolders - 1);
        governance := Some(gov);
      }
      var represented := GetOrCreateDelegate(to);
      delegates := delegates[to := represented + [id]];
      var previousBalance := toHolder.tokenBalance;
      toHolder := toHolder.(tokenBalance := toHolder.tokenBalance + 1, totalTokensHeld := toHolder.totalTokensHeld + 1,
                            nouns := toHolder.nouns + [id]);
      if toHolder.tokenBalance > 0 && previousBalance == 0 {
        gov := gov.(currentTokenHolders := gov.currentTokenHolders + 1);
        governance := Some(gov);
        toHolder := toHolder.(delegate := Some(to));
      }
      nouns := nouns[id := to];
      accounts := accounts[to := toHolder];
    }

    method HandleAuctionCreated(nounId: nat, startTime: nat, endTime: nat)
      modifies `auctions
      ensures View() == OnAuctionCreated(old(View()), nounId, startTime, endTime)
    {
      if nounId in nouns {
        auctions := auctions[nounId := AuctionEntity(0, startTime, endTime, None, false)];
      }
    }

    method HandleAuctionBid(nounId: nat, sender: Address, value: nat)
      modifies `accounts, `auctions
      ensures View() == OnAuctionBid(old(View()), nounId, sender, value)
    {
      var bidder := GetOrCreateAccount(sender);
      if nounId in auctions {
        var auction := auctions[nounId];
        auction := auction.(amount := value, bidder := Some(sender));
        auctions := auctions[nounId := auction];
      }
    }

    method HandleAuctionExtended(nounId: nat, endTime: nat)
      modifies `auctions
      ensures View() == OnAuctionExtended(old(View()), nounId, endTime)
    {
      if nounId in auctions {
        var auction := auctions[nounId];
        auctions := auctions[nounId := auction.(endTime := endTime)];
      }
    }

    method HandleAuctionSettled(nounId: nat)
      modifies `auctions
      ensures View() == OnAuctionSettled(old(View()), nounId)
    {
      if nounId in auctions {
        var auction := auctions[nounId];
        auctions := auctions[nounId := auction.(settled := true)];
      }
    }
  }
}
