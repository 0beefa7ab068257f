/** Fixed-width C/C++ integer behaviour, written out explicitly over Dafny's
    unbounded integers. Signed overflow is undefined in C; the plugin is built
    for two's-complement targets, and the model takes the wrap-around those
    targets produce. */
module CTypes {

  const TWO_16: int := 0x1_0000
  const TWO_31: int := 0x8000_0000
  const TWO_32: int := 0x1_0000_0000
  const TWO_63: int := 0x8000_0000_0000_0000
  const TWO_64: int := 0x1_0000_0000_0000_0000

  type uint16 = x: int | 0 <= x < TWO_16
  type uint32 = x: int | 0 <= x < TWO_32
  type uint64 = x: int | 0 <= x < TWO_64
  type int32 = x: int | -TWO_31 <= x < TWO_31
  type int64 = x: int | -TWO_63 <= x < TWO_63

  /** Conversion of any integer to `uint32_t` (reduction modulo 2^32). */
  function ToUint32(x: int): (r: uint32)
    ensures (r - x) % TWO_32 == 0
  {
    x % TWO_32
  }

  /** Conversion of any integer to `int32_t` on a two's-complement target. */
  function ToInt32(x: int): (r: int32)
    ensures (r - x) % TWO_32 == 0
    ensures -TWO_31 <= x < TWO_31 ==> r == x
  {
    var u := x % TWO_32;
    if u < TWO_31 then u else u - TWO_32
  }

  /** Conversion of a `uint64_t` to `int64_t` on a two's-complement target. */
  function ToInt64(x: uint64): (r: int64)
    ensures x < TWO_63 ==> r == x
    ensures x >= TWO_63 ==> r == x - TWO_64
  {
    if x < TWO_63 then x else x - TWO_64
  }

  /** C's `/` on signed operands: the quotient is truncated toward zero. */
  function TruncDiv(a: int, b: int): (q: int)
    requires b > 0
    ensures a >= 0 ==> q == a / b
    ensures a >= 0 ==> q * b <= a < q * b + b
    ensures a < 0 ==> q * b >= a > q * b - b
  {
    if a >= 0 then a / b else -((-a) / b)
  }

  /** C's `abs` on an `int`: |x|, except that abs(INT_MIN) wraps back to INT_MIN. */
  function Abs32(x: int32): (r: int32)
    ensures x != -TWO_31 ==> r >= 0 && (r == x || r == -x)
    ensures x == -TWO_31 ==> r == x
  {
    if x >= 0 then x else ToInt32(-(x as int))
  }

  /** `++x` on a `uint16_t`: the incremented value, wrapping 65535 to 0. */
  function PreIncrement16(x: uint16): (r: uint16)
    ensures x < TWO_16 - 1 ==> r == x + 1
    ensures x == TWO_16 - 1 ==> r == 0
  {
    (x + 1) % TWO_16
  }

  /** The value a `uint16_t` counter holds after `n` pre-increments from `start`. */
  function Increments16(start: uint16, n: nat): uint16
  {
    if n == 0 then start else PreIncrement16(Increments16(start, n - 1))
  }

  /** Incrementing n times is addition of n modulo 2^16: the counter never
      raises an error, it only wraps. */
  lemma {:induction false} Increments16IsAddition(start: uint16, n: nat)
    ensures Increments16(start, n) == (start + n) % TWO_16
  {
    if n > 0 {
      Increments16IsAddition(start, n - 1);
      PreIncrementOfRemainder(start + n - 1, Increments16(start, n - 1));
    } else {
      ModOfDecomposition(start, 0, start);
    }
  }

  /** Incrementing the remainder of `a` gives the remainder of `a + 1`. */
  lemma PreIncrementOfRemainder(a: nat, b: uint16)
    requires b == a % TWO_16
    ensures PreIncrement16(b) == (a + 1) % TWO_16
  {
    var q := a / TWO_16;
    ModOfDecomposition(a, q, b);
    if b + 1 < TWO_16 {
      ModOfDecomposition(a + 1, q, b + 1);
    } else {
      ModOfDecomposition(a + 1, q + 1, 0);
    }
  }

  /** The remainder of `q * 2^16 + r` for `r` in range is `r`. */
  lemma ModOfDecomposition(x: int, q: int, r: int)
    requires 0 <= r < TWO_16 && x == TWO_16 * q + r
    ensures x % TWO_16 == r
  {
  }
}

/** The host (libobs) side of the plugin boundary: nullable C strings,
    stop codes and the signals an output raises. */
module Host {

  /** A `const char *` that may be NULL. */
  datatype CString = Null | Str(s: string)

  /** `p ? p : ""`: the coercion the outputs apply to every service getter. */
  function OrEmpty(p: CString): (r: string)
    ensures p.Str? ==> r == p.s
    ensures p.Null? ==> r == ""
  {
    match p
    case Null => ""
    case Str(s) => s
  }

  /** Stop codes passed to `obs_output_signal_stop`. */
  datatype StopCode = ConnectFailed | OutputError

  /** The two `obs_output_set_last_error` messages the outputs use. */
  const UNEXPECTED_ERROR: string := "An unexpected error occurred during stream startup."
  const INCOMPLETE_SETTINGS: string :=
    "Your service settings are not complete. Open the settings => stream window and complete them."

  /** Observable effects on the host output. */
  datatype HostSignal =
    | LastError(message: string)
    | SignalStop(code: StopCode)
    | EndDataCapture

  /** The signals raised when a start is refused for the given reason. */
  function RefusedStart(message: string): seq<HostSignal>
  {
    [LastError(message), SignalStop(ConnectFailed)]
  }
}

/** A value that may be absent (a NULL pointer, an unset optional). */
module Optional {
  datatype Option<T> = None | Some(value: T)
}
