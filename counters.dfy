/**
 * Windows time counters as the monitors see them: a FILETIME is a pair of
 * 32-bit halves, combined into one unsigned 64-bit count of 100-ns intervals.
 * Subtraction and addition of such counts happen in C++ `unsigned long long`,
 * so they wrap modulo 2^64; Sub64 and Add64 write that wrap out.
 */
module Counters {

  const TwoTo32: nat := 0x1_0000_0000
  const TwoTo64: nat := 0x1_0000_0000_0000_0000

  /** A Windows DWORD. */
  type U32 = x: nat | x < 0x1_0000_0000
  /** A C++ `unsigned long long` / 64-bit `size_t`. */
  type U64 = x: nat | x < 0x1_0000_0000_0000_0000

  datatype Option<+T> = None | Some(value: T)

  /** FILETIME: dwHighDateTime and dwLowDateTime. */
  datatype FileTime = FileTime(high: U32, low: U32)

  /** What GetSystemTimes reports when it succeeds. */
  datatype SystemTimes = SystemTimes(idle: FileTime, kernel: FileTime, user: FileTime)

  /** `(high << 32) | low`: the two halves occupy disjoint bits, so the
      shift-or is the sum high * 2^32 + low. */
  function FileTimeToInt64(ft: FileTime): (r: U64)
    ensures r / TwoTo32 == ft.high && r % TwoTo32 == ft.low
  {
    ft.high * TwoTo32 + ft.low
  }

  /** The inverse of FileTimeToInt64: the FILETIME holding a 64-bit count. */
  function SplitInt64(n: U64): (ft: FileTime)
    ensures FileTimeToInt64(ft) == n
  {
    FileTime(n / TwoTo32, n % TwoTo32)
  }

  lemma FileTimeRoundTrip(ft: FileTime)
    ensures SplitInt64(FileTimeToInt64(ft)) == ft
  {
  }

  /** Two FILETIMEs with the same 64-bit count are the same FILETIME. */
  lemma FileTimeToInt64Injective(a: FileTime, b: FileTime)
    requires FileTimeToInt64(a) == FileTimeToInt64(b)
    ensures a == b
  {
    FileTimeRoundTrip(a);
    FileTimeRoundTrip(b);
  }

  /** `a - b` on unsigned 64-bit operands. */
  function Sub64(a: U64, b: U64): (r: U64)
    ensures (r + b) % TwoTo64 == a
    ensures a >= b ==> r == a - b
  {
    if a >= b then a - b else a - b + TwoTo64
  }

  /** `a + b` on unsigned 64-bit operands. */
  function Add64(a: U64, b: U64): (r: U64)
    ensures r == (a + b) % TwoTo64
    ensures a + b < TwoTo64 ==> r == a + b
  {
    if a + b < TwoTo64 then a + b else a + b - TwoTo64
  }

  /** The delta of one counter between two readings. */
  function Delta(prev: FileTime, cur: FileTime): U64
  {
    Sub64(FileTimeToInt64(cur), FileTimeToInt64(prev))
  }

  /** A counter that has not moved backwards (no wrap in its delta). */
  predicate NotBehind(prev: FileTime, cur: FileTime)
  {
    FileTimeToInt64(prev) <= FileTimeToInt64(cur)
  }
}
