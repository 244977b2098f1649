// Every payment the auction house makes: to whom, how much, and in what form.
module Payments {
  import opened Chain
  import opened Token
  import opened Market
  import opened MarketRuns

  // Whether the account paid during a move takes ETH. The house itself never does.
  predicate Takes(m: Move, to: Address)
    requires m.Do?
  {
    && to != HOUSE
    && match m.action
       case CreateBid(_, _, accepts) => accepts
       case SettleAuction(accepts) => accepts
       case SettleCurrentAndCreateNewAuction(accepts, _, _) => accepts
       case _ => false
  }

  // The money one move brings in and sends out: a bid comes in and the bid it beats goes back; a
  // settlement pays the winning amount, if any, to the owner of the house.
  function CashMoved(w: World, m: Move): seq<Cash> {
    var a := w.house.auction;
    if !Accepted(w, m) then []
    else
      match m.action
      case CreateBid(_, value, _) =>
        [BidIn(m.sender, value)] + if a.bidder == ZERO then [] else [Refund(a.bidder, a.amount, !Takes(m, a.bidder))]
      case SettleAuction(_) => if a.amount == 0 then [] else [Payout(w.house.owner, a.amount, !Takes(m, w.house.owner))]
      case SettleCurrentAndCreateNewAuction(_, _, _) =>
        if a.amount == 0 then [] else [Payout(w.house.owner, a.amount, !Takes(m, w.house.owner))]
      case _ => []
  }

  function CashIn(w: World, moves: seq<Move>): seq<Cash> {
    if moves == [] then w.house.cash
    else
      var k := |moves| - 1;
      CashIn(w, moves[..k]) + CashMoved(Play(w, moves[..k]), moves[k])
  }

  lemma BidCash(w: World, sender: Address, nounId: nat, value: nat, accepts: bool)
    requires Bid(w, sender, nounId, value, accepts).Ok?
    ensures var a, h := w.house.auction, Bid(w, sender, nounId, value, accepts).value.house;
            h.cash == w.house.cash
                      + ([BidIn(sender, value)] + if a.bidder == ZERO then [] else [Refund(a.bidder, a.amount, !(accepts && a.bidder != HOUSE))])
  {
    hide Times, MinimumBid;
  }

  lemma SettleCash(w: World, accepts: bool)
    requires Settle(w, accepts).Ok?
    ensures var a, to, h := w.house.auction, w.house.owner, Settle(w, accepts).value.house;
            h.cash == w.house.cash + if a.amount == 0 then [] else [Payout(to, a.amount, !(accepts && to != HOUSE))]
  {
    hide Exec;
  }

  lemma CreateCash(w: World, reward: Seeding, regular: Seeding)
    requires Create(w, reward, regular).Ok?
    ensures Create(w, reward, regular).value.house.cash == w.house.cash
  {
    hide Exec;
  }

  lemma CashStep(w: World, m: Move)
    ensures Advance(w, m).house.cash == w.house.cash + CashMoved(w, m)
  {
    hide Bid, Settle, Create, Exec;
    if Accepted(w, m) {
      match m.action {
        case CreateBid(nounId, value, accepts) => BidCash(w, m.sender, nounId, value, accepts);
        case SettleAuction(accepts) => SettleCash(w, accepts);
        case SettleCurrentAndCreateNewAuction(accepts, reward, regular) =>
          SettleCash(w, accepts);
          CreateCash(Settle(w, accepts).value, reward, regular);
        case Unpause(reward, regular) =>
          if w.house.auction.startTime == 0 || w.house.auction.settled {
            CreateCash(w.(house := w.house.(paused := false)), reward, regular);
          }
        case _ =>
      }
    }
  }

  // In any run each bid, refund and payout happens once, in its move, and nothing else moves money. A
  // payment goes out as WETH exactly when its recipient does not take it.
  lemma {:induction false} CashExact(w: World, moves: seq<Move>)
    ensures Play(w, moves).house.cash == CashIn(w, moves)
  {
    if moves != [] {
      hide Advance, CashMoved;
      var k := |moves| - 1;
      CashExact(w, moves[..k]);
      CashStep(Play(w, moves[..k]), moves[k]);
    }
  }

  // ----- To whom the price of an auction is paid

  function PaidTo(cash: seq<Cash>, a: Address): nat {
    if cash == [] then 0
    else
      var c := cash[|cash| - 1];
      PaidTo(cash[..|cash| - 1], a) + if c.Payout? && c.to == a then c.amount else 0
  }

  // The winning amounts of the auctions settled while a owned the house.
  function Earned(w: World, moves: seq<Move>, a: Address): int {
    if moves == [] then 0
    else
      var k := |moves| - 1;
      var before := Play(w, moves[..k]);
      Earned(w, moves[..k], a)
      + if before.house.owner == a then SettledTotal(Play(w, moves).net.log) - SettledTotal(before.net.log) else 0
  }

  lemma PaidConcat(cash: seq<Cash>, more: seq<Cash>, a: Address)
    requires |more| <= 2
    ensures PaidTo(cash + more, a) == PaidTo(cash, a) + PaidTo(more, a)
  {
    if |more| == 0 {
      assert cash + more == cash;
    } else if |more| == 1 {
      assert (cash + more)[..|cash|] == cash;
      assert more[..0] == [];
    } else {
      assert (cash + more)[..|cash| + 1] == cash + more[..1];
      assert (cash + more[..1])[..|cash|] == cash;
      assert more[..1][..0] == [];
    }
  }

  lemma CreateSettlesNone(w: World, reward: Seeding, regular: Seeding)
    requires Create(w, reward, regular).Ok?
    ensures SettledTotal(Create(w, reward, regular).value.net.log) == SettledTotal(w.net.log)
  {
    CreateLog(w, reward, regular, 0);
    hide Create;
  }

  lemma TransfersSettleNone(log: seq<Event>, more: seq<Event>)
    requires forall e <- more :: !e.AuctionSettled?
    ensures SettledTotal(log + more) == SettledTotal(log)
  {
    NothingWon(more, 0);
    WonConcat(log, more, 0);
  }

  lemma BidSettlesNone(w: World, sender: Address, nounId: nat, value: nat, accepts: bool)
    requires Bid(w, sender, nounId, value, accepts).Ok?
    ensures SettledTotal(Bid(w, sender, nounId, value, accepts).value.net.log) == SettledTotal(w.net.log)
  {
    hide Times, MinimumBid, SettledTotal;
    var w' := Bid(w, sender, nounId, value, accepts).value;
    var events := w'.net.log[|w.net.log|..];
    assert w'.net.log == w.net.log + events;
    TransfersSettleNone(w.net.log, events);
  }

  // What a move settles is what it pays out.
  lemma SettledIsPaid(w: World, m: Move)
    ensures SettledTotal(Advance(w, m).net.log) == SettledTotal(w.net.log) + PaidTo(CashMoved(w, m), w.house.owner)
    ensures forall a :: a != w.house.owner ==> PaidTo(CashMoved(w, m), a) == 0
  {
    CashMovedPays(w, m);
    hide Bid, Settle, Create, Exec, SettledTotal, PaidTo, CashMoved;
    if Accepted(w, m) {
      match m.action {
        case CreateBid(nounId, value, accepts) => BidSettlesNone(w, m.sender, nounId, value, accepts);
        case SettleAuction(accepts) => SettleLog(w, accepts, 0);
        case SettleCurrentAndCreateNewAuction(accepts, reward, regular) =>
          SettleLog(w, accepts, 0);
          CreateSettlesNone(Settle(w, accepts).value, reward, regular);
        case Unpause(reward, regular) =>
          if w.house.auction.startTime == 0 || w.house.auction.settled {
            CreateSettlesNone(w.(house := w.house.(paused := false)), reward, regular);
          }
        case OnToken(call) =>
          TokenEvents(w.net.token, w.net.block, m.sender, call);
          TransfersSettleNone(w.net.log, Exec(w.net.token, w.net.block, m.sender, call).value.events);
        case _ =>
      }
    }
  }

  predicate Settles(w: World, m: Move) {
    Accepted(w, m) && (m.action.SettleAuction? || m.action.SettleCurrentAndCreateNewAuction?)
  }

  lemma CashMovedPays(w: World, m: Move)
    ensures forall a :: PaidTo(CashMoved(w, m), a) == if Settles(w, m) && a == w.house.owner then w.house.auction.amount else 0
  {
    var cash := CashMoved(w, m);
    FewPayments(w, m);
    hide Accepted, PaidTo;
    forall a
      ensures PaidTo(cash, a) == if Settles(w, m) && a == w.house.owner then w.house.auction.amount else 0
    {
      PaidFew(cash, a);
    }
  }

  lemma PaidFew(cash: seq<Cash>, a: Address)
    ensures cash == [] ==> PaidTo(cash, a) == 0
    ensures |cash| == 1 ==> PaidTo(cash, a) == if cash[0].Payout? && cash[0].to == a then cash[0].amount else 0
    ensures |cash| == 2 && !cash[0].Payout? && !cash[1].Payout? ==> PaidTo(cash, a) == 0
  {
    if |cash| == 2 {
      assert cash[..1][..0] == [];
    }
  }

  // In any run an account has been paid exactly the winning amounts of the auctions settled while it
  // owned the house.
  lemma {:induction false} PayeesExact(w: World, moves: seq<Move>, a: Address)
    requires Initial(w)
    ensures PaidTo(Play(w, moves).house.cash, a) == Earned(w, moves, a)
  {
    if moves != [] {
      hide Advance, CashMoved, SettledTotal, Initial;
      var k := |moves| - 1;
      var before := Play(w, moves[..k]);
      PayeesExact(w, moves[..k], a);
      CashStep(before, moves[k]);
      FewPayments(before, moves[k]);
      PaidConcat(before.house.cash, CashMoved(before, moves[k]), a);
      SettledIsPaid(before, moves[k]);
      hide PaidTo;
    }
  }

  lemma FewPayments(w: World, m: Move)
    ensures |CashMoved(w, m)| <= 2
  {
    hide Accepted;
  }
}
