// The auction house contract, updating its storage in place and calling the token:
// packages/nouns-contracts/contracts/NounsAuctionHouse.sol. Each external method is proved to be one
// transition of Market.Act.
module AuctionHouseContract {
  import opened Chain
  import opened Token
  import opened TokenContract
  import opened Market

  // The call is over: as the specification says, or as if it had not been made.
  ghost predicate Acted(r: Result<World>, before: World, after: World, st: Status) {
    && st == StatusOf(r)
    && after == if r.Ok? then r.value else before
  }

  // An internal step; when it did not succeed, the caller must revert.
  ghost predicate Went(r: Result<World>, after: World, st: Status) {
    st == StatusOf(r) && (r.Ok? ==> after == r.value)
  }

  class NounsAuctionHouse {
    const chain: Blockchain
    const nouns: NounsToken
    var auction: Auction
    var paused: bool
    var timeBuffer: nat
    var reservePrice: nat
    var minBidIncrementPercentage: nat
    var duration: nat
    var owner: Address
    var balance: nat
    ghost var cash: seq<Cash>

    ghost function State(): House
      reads this
    {
      House(auction, paused, timeBuffer, reservePrice, minBidIncrementPercentage, duration, owner, balance, cash)
    }

    ghost function View(): World
      reads this, nouns, chain
    {
      World(Net(nouns.View(), chain.block, chain.log), State(), chain.time)
    }

    ghost predicate Valid()
      reads this, nouns
    {
      nouns.chain == chain
    }

    constructor (chain: Blockchain, nouns: NounsToken, owner: Address, timeBuffer: nat, reservePrice: nat,
                 minBidIncrementPercentage: nat, duration: nat)
      requires nouns.chain == chain
      ensures this.chain == chain && this.nouns == nouns && Valid()
      ensures State() == House(NO_AUCTION, true, timeBuffer, reservePrice, minBidIncrementPercentage, duration, owner, 0, [])
    {
      this.chain, this.nouns, this.owner := chain, nouns, owner;
      auction, paused, balance, cash := NO_AUCTION, true, 0, [];
      this.timeBuffer, this.reservePrice := timeBuffer, reservePrice;
      this.minBidIncrementPercentage, this.duration := minBidIncrementPercentage, duration;
    }

    // Undoes a call that failed, in this contract and in the token.
    method Revert(h: House, t: Token, log: seq<Event>, ghost spent: seq<Cash>)
      requires Valid() && t.proxies == nouns.proxies
      modifies this, nouns, chain`log
      ensures State() == h.(cash := spent) && nouns.View() == t && chain.log == log
    {
      auction, paused, timeBuffer, reservePrice := h.auction, h.paused, h.timeBuffer, h.reservePrice;
      minBidIncrementPercentage, duration, owner, balance := h.minBidIncrementPercentage, h.duration, h.owner, h.balance;
      cash := spent;
      nouns.Revert(t, log);
    }

    // The storage to return to, should the call fail.
    method Save() returns (h: House, t: Token, log: seq<Event>)
      ensures h == State().(cash := []) && t == nouns.View() && log == chain.log
    {
      h := House(auction, paused, timeBuffer, reservePrice, minBidIncrementPercentage, duration, owner, balance, []);
      t, log := nouns.View(), chain.log;
    }

    // ETH first; if the recipient refuses it, the same amount as WETH.
    method SafeTransferETHWithFallback(to: Address, amount: nat, accepts: bool, ghost refund: bool) returns (st: Status)
      modifies `balance, `cash
      ensures var r := Send(old(State()), to, amount, accepts, refund);
              st == StatusOf(r) && (r.Ok? ==> State() == r.value)
    {
      if balance < amount {
        return Failed;
      }
      var success := accepts && to != HOUSE;
      balance := balance - amount;
      cash := cash + [if refund then Refund(to, amount, !success) else Payout(to, amount, !success)];
      return Succeeded;
    }

    method CreateBid(sender: Address, nounId: nat, value: nat, accepts: bool) returns (st: Status)
      requires Valid()
      modifies this, nouns, chain`log
      ensures Valid() && Acted(Act(old(View()), sender, Action.CreateBid(nounId, value, accepts)), old(View()), View(), st)
    {
      var h, t, log := Save();
      ghost var spent := cash;
      st := PlaceBid(sender, nounId, value, accepts);
      if st != Succeeded {
        Revert(h, t, log, spent);
      }
    }

    method PlaceBid(sender: Address, nounId: nat, value: nat, accepts: bool) returns (st: Status)
      requires Valid()
      modifies this, chain`log
      ensures Valid() && Went(Bid(old(View()), sender, nounId, value, accepts), View(), st)
    {
      hide Times, RecordBid;
      balance := balance + value;
      cash := cash + [BidIn(sender, value)];
      var a := auction;
      if a.nounId != nounId || chain.time >= a.endTime || value < reservePrice {
        return Failed;
      }
      if Times(a.amount, minBidIncrementPercentage) >= U256 || MinimumBid(a.amount, minBidIncrementPercentage) >= U256 {
        return Panicked;
      }
      if value < MinimumBid(a.amount, minBidIncrementPercentage) {
        return Failed;
      }
      if a.bidder != ZERO {
        st := SafeTransferETHWithFallback(a.bidder, a.amount, accepts, true);
        if st != Succeeded {
          return;
        }
      }
      st := RecordLeadingBid(sender, value);
    }

    method RecordLeadingBid(sender: Address, value: nat) returns (st: Status)
      requires Valid()
      modifies `auction, chain`log
      ensures Went(RecordBid(old(View()), sender, value), View(), st)
    {
      var a := auction;
      auction := auction.(amount := value, bidder := sender);
      var extended := a.endTime - chain.time < timeBuffer;
      if extended {
        if chain.time + timeBuffer >= U256 {
          return Panicked;
        }
        auction := auction.(endTime := chain.time + timeBuffer);
      }
      chain.log := chain.log + [AuctionBid(a.nounId, sender, value, extended)];
      if extended {
        chain.log := chain.log + [AuctionExtended(a.nounId, auction.endTime)];
      }
      return Succeeded;
    }

    method SettleInternal(accepts: bool) returns (st: Status)
      requires Valid()
      modifies this, nouns, chain`log
      ensures Valid() && Went(Settle(old(View()), accepts), View(), st)
    {
      hide Exec;
      var a := auction;
      if a.startTime == 0 || a.settled || chain.time < a.endTime {
        return Failed;
      }
      auction := auction.(settled := true);
      if a.bidder == ZERO {
        st := nouns.Burn(HOUSE, a.nounId);
      } else {
        st := nouns.TransferFrom(HOUSE, HOUSE, a.bidder, a.nounId);
      }
      if st != Succeeded {
        return;
      }
      if a.amount > 0 {
        st := SafeTransferETHWithFallback(owner, a.amount, accepts, false);
        if st != Succeeded {
          return;
        }
      }
      chain.log := chain.log + [AuctionSettled(a.nounId, a.bidder, a.amount)];
    }

    method CreateInternal(reward: Seeding, regular: Seeding) returns (st: Status)
      requires Valid()
      modifies this, nouns, chain`log
      ensures Valid() && Went(Create(old(View()), reward, regular), View(), st)
    {
      hide Exec, Begin;
      var nounId;
      st, nounId := nouns.Mint(HOUSE, reward, regular);
      if st == Failed {
        if !paused {
          paused := true;
          st := Succeeded;
        }
      } else if st == Succeeded {
        st := BeginAuction(nounId);
      }
    }

    method BeginAuction(nounId: nat) returns (st: Status)
      requires Valid()
      modifies `auction, chain`log
      ensures Went(Begin(old(View()), nounId), View(), st)
    {
      if chain.time + duration >= U256 {
        return Panicked;
      }
      var startTime, endTime := chain.time, chain.time + duration;
      auction := Auction(nounId, 0, startTime, endTime, ZERO, false);
      chain.log := chain.log + [AuctionCreated(nounId, startTime, endTime)];
      return Succeeded;
    }

    method SettleAuction(sender: Address, accepts: bool) returns (st: Status)
      requires Valid()
      modifies this, nouns, chain`log
      ensures Valid() && Acted(Act(old(View()), sender, Action.SettleAuction(accepts)), old(View()), View(), st)
    {
      hide Settle;
      if !paused {
        return Failed;
      }
      var h, t, log := Save();
      ghost var spent := cash;
      st := SettleInternal(accepts);
      if st != Succeeded {
        Revert(h, t, log, spent);
      }
    }

    method SettleCurrentAndCreateNewAuction(sender: Address, accepts: bool, reward: Seeding, regular: Seeding) returns (st: Status)
      requires Valid()
      modifies this, nouns, chain`log
      ensures Valid() && Acted(Act(old(View()), sender, Action.SettleCurrentAndCreateNewAuction(accepts, reward, regular)),
                               old(View()), View(), st)
    {
      hide Settle, Create, SettleAndCreate;
      if paused {
        return Failed;
      }
      var h, t, log := Save();
      ghost var spent := cash;
      st := SettleThenCreate(accepts, reward, regular);
      if st != Succeeded {
        Revert(h, t, log, spent);
      }
    }

    method SettleThenCreate(accepts: bool, reward: Seeding, regular: Seeding) returns (st: Status)
      requires Valid()
      modifies this, nouns, chain`log
      ensures Valid() && Went(SettleAndCreate(old(View()), accepts, reward, regular), View(), st)
    {
      hide Settle, Create;
      st := SettleInternal(accepts);
      if st == Succeeded {
        st := CreateInternal(reward, regular);
      }
    }

    method Pause(sender: Address) returns (st: Status)
      requires Valid()
      modifies `paused
      ensures Valid() && Acted(Act(old(View()), sender, Action.Pause), old(View()), View(), st)
    {
      if sender != owner || paused {
        return Failed;
      }
      paused := true;
      return Succeeded;
    }

    method Unpause(sender: Address, reward: Seeding, regular: Seeding) returns (st: Status)
      requires Valid()
      modifies this, nouns, chain`log
      ensures Valid() && Acted(Act(old(View()), sender, Action.Unpause(reward, regular)), old(View()), View(), st)
    {
      hide Create;
      if sender != owner || !paused {
        return Failed;
      }
      var h, t, log := Save();
      ghost var spent := cash;
      paused := false;
      st := Succeeded;
      if auction.startTime == 0 || auction.settled {
        st := CreateInternal(reward, regular);
        if st != Succeeded {
          Revert(h, t, log, spent);
        }
      }
    }

    method SetTimeBuffer(sender: Address, v: nat) returns (st: Status)
      requires Valid()
      modifies `timeBuffer
      ensures Valid() && Acted(Act(old(View()), sender, Action.SetTimeBuffer(v)), old(View()), View(), st)
    {
      if sender != owner {
        return Failed;
      }
      timeBuffer := v;
      return Succeeded;
    }

    method SetReservePrice(sender: Address, v: nat) returns (st: Status)
      requires Valid()
      modifies `reservePrice
      ensures Valid() && Acted(Act(old(View()), sender, Action.SetReservePrice(v)), old(View()), View(), st)
    {
      if sender != owner {
        return Failed;
      }
      reservePrice := v;
      return Succeeded;
    }

    method SetMinBidIncrementPercentage(sender: Address, v: nat) returns (st: Status)
      requires Valid()
      modifies `minBidIncrementPercentage
      ensures Valid() && Acted(Act(old(View()), sender, Action.SetMinBidIncrementPercentage(v)), old(View()), View(), st)
    {
      if sender != owner {
        return Failed;
      }
      minBidIncrementPercentage := v;
      return Succeeded;
    }

    method TransferOwnership(sender: Address, newOwner: Address) returns (st: Status)
      requires Valid()
      modifies `owner
      ensures Valid() && Acted(Act(old(View()), sender, Action.TransferHouseOwnership(newOwner)), old(View()), View(), st)
    {
      if sender != owner || newOwner == ZERO {
        return Failed;
      }
      owner := newOwner;
      return Succeeded;
    }

    method RenounceOwnership(sender: Address) returns (st: Status)
      requires Valid()
      modifies `owner
      ensures Valid() && Acted(Act(old(View()), sender, Action.RenounceHouseOwnership), old(View()), View(), st)
    {
      if sender != owner {
        return Failed;
      }
      owner := ZERO;
      return Succeeded;
    }
  }
}
