// What the contracts share: addresses, the event log, and how a call can end.
module Chain {
  type Address = nat

  const ZERO: Address := 0
  const U256: nat := 0x1_0000000000000000_0000000000000000_0000000000000000_0000000000000000
  const U96: nat := 0x1_00000000_00000000_00000000
  const U32: nat := 0x1_0000_0000

  datatype Event =
    | Transfer(from: Address, to: Address, id: nat)
    | AuctionCreated(nounId: nat, startTime: nat, endTime: nat)
    | AuctionBid(nounId: nat, sender: Address, value: nat, extended: bool)
    | AuctionExtended(nounId: nat, endTime: nat)
    | AuctionSettled(nounId: nat, winner: Address, amount: nat)

  // Error is a revert with a message; Panic is any other, such as checked arithmetic overflowing.
  datatype Result<+T> = Ok(value: T) | Error | Panic

  datatype Status = Succeeded | Failed | Panicked

  function StatusOf<T>(r: Result<T>): Status {
    match r
    case Ok(_) => Succeeded
    case Error => Failed
    case Panic => Panicked
  }
}
