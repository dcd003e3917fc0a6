/** The values the scheduler works on: task packages, C integer ranges and status codes. */
module Structures {
  /** `unsigned int` has 32 bits and wraps around. */
  const UINT_RANGE := 0x1_0000_0000

  function Increment(n: nat): nat {
    if n + 1 < UINT_RANGE then n + 1 else 0
  }

  function Decrement(n: nat): nat {
    if n == 0 then UINT_RANGE - 1 else n - 1
  }

  /** `long int` has 64 bits; leaving its range is undefined, so the model never does. */
  const LONG_MAX := 0x7FFF_FFFF_FFFF_FFFF
  const LONG_MIN := -0x8000_0000_0000_0000

  type Long = x: int | LONG_MIN <= x <= LONG_MAX

  /** Addresses and function pointers; zero is the null pointer. */
  const NULL := 0

  /** What one slot of a pool's queue holds. A copy of the structure copies every field. */
  datatype Package = Package(
    flag: nat,
    index: nat,
    callback: nat,
    size: nat,
    offset: nat,
    begin: nat,
    end: nat,
    puser: nat)

  datatype Status =
    | Ok
    | InvalidArgument
    | InvalidState
    | PoolFull
    | SignalError
  {
    /** The two results that follow the enqueue. */
    predicate Accepted() {
      Ok? || SignalError?
    }
  }
}
