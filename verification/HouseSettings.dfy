// Who may change the auction house's settings, and what they are after any run: read off the moves
// alone.
module HouseSettings {
  import opened Chain
  import opened Token
  import opened Market

  datatype Settings = Settings(owner: Address, timeBuffer: nat, reservePrice: nat, minBidIncrementPercentage: nat)

  // A move that the owner of the moment makes.
  predicate ByOwner(s: Settings, m: Move) {
    m.Do? && m.sender == s.owner && m.sender != ZERO && m.sender != HOUSE
  }

  // The owner sets what it likes, and may hand the house to anyone but the zero address, or to nobody.
  // No other move, and nobody else, changes a setting.
  function AfterMove(s: Settings, m: Move): Settings {
    if !ByOwner(s, m) then s
    else
      match m.action
      case SetTimeBuffer(v) => s.(timeBuffer := v)
      case SetReservePrice(v) => s.(reservePrice := v)
      case SetMinBidIncrementPercentage(v) => s.(minBidIncrementPercentage := v)
      case TransferHouseOwnership(owner) => if owner == ZERO then s else s.(owner := owner)
      case RenounceHouseOwnership => s.(owner := ZERO)
      case _ => s
  }

  function SettingsAfter(s: Settings, moves: seq<Move>): Settings {
    if moves == [] then s else AfterMove(SettingsAfter(s, moves[..|moves| - 1]), moves[|moves| - 1])
  }

  function SettingsOf(h: House): Settings {
    Settings(h.owner, h.timeBuffer, h.reservePrice, h.minBidIncrementPercentage)
  }

  // Bids, settlements and creations leave every setting alone.
  ghost predicate SameSettings(w: World, w': World) {
    SettingsOf(w'.house) == SettingsOf(w.house) && w'.house.duration == w.house.duration
  }

  lemma BidKeepsSettings(w: World, sender: Address, nounId: nat, value: nat, accepts: bool)
    requires Bid(w, sender, nounId, value, accepts).Ok?
    ensures SameSettings(w, Bid(w, sender, nounId, value, accepts).value)
    ensures Bid(w, sender, nounId, value, accepts).value.house.paused == w.house.paused
  {
    hide Times, MinimumBid;
  }

  lemma SettleKeepsSettings(w: World, accepts: bool)
    requires Settle(w, accepts).Ok?
    ensures SameSettings(w, Settle(w, accepts).value)
    ensures Settle(w, accepts).value.house.paused == w.house.paused
  {
    hide Exec;
  }

  lemma CreateKeepsSettings(w: World, reward: Seeding, regular: Seeding)
    requires Create(w, reward, regular).Ok?
    ensures SameSettings(w, Create(w, reward, regular).value)
  {
    hide Exec;
  }

  lemma StepSettings(w: World, m: Move)
    ensures SettingsOf(Advance(w, m).house) == AfterMove(SettingsOf(w.house), m)
    ensures Advance(w, m).house.duration == w.house.duration
  {
    hide Bid, Settle, Create, Exec;
    if Accepted(w, m) {
      match m.action {
        case CreateBid(nounId, value, accepts) => BidKeepsSettings(w, m.sender, nounId, value, accepts);
        case SettleAuction(accepts) => SettleKeepsSettings(w, accepts);
        case SettleCurrentAndCreateNewAuction(accepts, reward, regular) =>
          SettleKeepsSettings(w, accepts);
          CreateKeepsSettings(Settle(w, accepts).value, reward, regular);
        case Unpause(reward, regular) =>
          if w.house.auction.startTime == 0 || w.house.auction.settled {
            CreateKeepsSettings(w.(house := w.house.(paused := false)), reward, regular);
          }
        case _ =>
      }
    }
  }

  // After any run the owner and the settings are those the moves say, each value kept as given.
  lemma {:induction false} SettingsExact(w: World, moves: seq<Move>)
    ensures SettingsOf(Play(w, moves).house) == SettingsAfter(SettingsOf(w.house), moves)
    ensures Play(w, moves).house.duration == w.house.duration
  {
    if moves != [] {
      hide Advance, AfterMove, SettingsOf;
      var k := |moves| - 1;
      SettingsExact(w, moves[..k]);
      StepSettings(Play(w, moves[..k]), moves[k]);
    }
  }
}
