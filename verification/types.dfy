/**
 Shared vocabulary of the periodic sender model: the fixed-width integers the
 application works with, simulated time, and the faults that end a run.
 */
module Types {

  /** `uint8_t`: the width of the configured base packet size. */
  type Byte = x: int | 0 <= x < 0x100

  /** `uint32_t`: the width of node ids, random draws and packet sizes. */
  type Uint32 = x: int | 0 <= x < 0x1_0000_0000

  const Uint32Modulus: int := 0x1_0000_0000

  /** Simulated time, counted in ticks of one nanosecond (the simulator's
      default resolution). Signed, like the simulator's time type: a
      configured interval may be negative. */
  type Time = int

  /** `Seconds(n)` for a whole number of seconds. */
  function Seconds(n: int): (t: Time)
    ensures n >= 0 ==> t >= 0
    ensures n > 0 ==> t > 0
  {
    n * 1_000_000_000
  }

  datatype Option<T> = None | Some(value: T)

  /** Why a run stops; none is retried or recovered from. In ns-3's
      `CustomPeriodicSender` each aborts the simulation process, except that
      `OffsetUnsupported` also covers words the text-to-number conversion
      would accept (a sign, a fraction, trailing text) and that this model
      does not. */
  datatype Fault =
    | NoMac                           // no MAC could be resolved when starting
    | NegativeDelay                   // the clock refuses to schedule in the past
    | OffsetMissing                   // the offset text read was empty
    | OffsetUnsupported(text: string) // the offset text is not a decimal digit string

  datatype Result<T> = Ok(value: T) | Err(fault: Fault)
}
