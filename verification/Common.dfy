/** Small datatypes and real-number helpers shared by the other modules. */
module Common {
  datatype Option<+T> = None | Some(value: T)

  datatype Result<+T, +E> = Ok(value: T) | Err(error: E)

  /** A JavaScript number: finite, or one of NaN and the infinities. */
  datatype Num = Finite(v: real) | NonFinite

  function Min(a: real, b: real): real {
    if a <= b then a else b
  }

  function Max(a: real, b: real): real {
    if a >= b then a else b
  }

  /** Math.max(lo, Math.min(hi, v)): when the bounds cross, the lower one wins. */
  function Clamp(v: real, lo: real, hi: real): real {
    Max(lo, Min(hi, v))
  }

  /** Math.round: halves go up. */
  function Round(v: real): int {
    (v + 0.5).Floor
  }

  /** The nearest integer, and of two that are equally near the greater one. */
  lemma RoundIsNearest(v: real)
    ensures v - 0.5 < Round(v) as real <= v + 0.5
  {
  }

  function Abs(i: int): nat {
    if i < 0 then -i else i
  }

  /** slice(-n). */
  function LastN<T>(s: seq<T>, n: nat): (r: seq<T>)
    ensures |r| <= n
  {
    if |s| <= n then s else s[|s| - n..]
  }

  lemma ProductMonotone(a: real, b: real, k: real)
    requires a <= b && k >= 0.0
    ensures a * k <= b * k
  {
  }

  lemma ProductIncreasing(a: real, b: real, k: real)
    requires a < b && k > 0.0
    ensures a * k < b * k
  {
  }
}
