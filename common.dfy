/** Values shared by the three benchmark programs: an optional value, the way a
    program run ends, and the tolerance of the "Results match" comparison. */
module Common {

  datatype Option<T> = None | Some(value: T)

  /** How one run of a benchmark program ends: a process exit status, or a fault
      of the C++ program (integer division by zero, a read past the end of the
      access pattern) that the program does not guard against. */
  datatype Outcome = Exit(code: nat) | DivisionByZero | OutOfBounds

  /** The absolute tolerance of the "Results match" comparison (`1e-10`). */
  const TOLERANCE: real := 0.0000000001

  function Abs(x: real): (r: real)
    ensures r >= 0.0 && (r == x || r == -x)
  {
    if x < 0.0 then -x else x
  }

  /** The "Results match" comparison of two reduction values. */
  predicate ResultsMatch(a: real, b: real)
  {
    Abs(a - b) < TOLERANCE
  }
}
