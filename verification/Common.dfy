/** What several components share: optional values, bytes and words, powers of two and
    division with remainder. */
module Common {
  datatype Option<T> = None | Some(value: T)

  type Byte = b: int | 0 <= b < 0x100

  type Word = w: int | 0 <= w < 0x10000

  /** A number cut to 16 bits. */
  function Wrap(x: int): Word {
    x % 0x10000
  }

  lemma WrapAdd(x: int, y: int)
    ensures Wrap(Wrap(x) + y) == Wrap(x + y)
  {
  }

  function Pow2(n: nat): (p: nat)
    ensures p >= 1
  {
    if n == 0 then 1 else 2 * Pow2(n - 1)
  }

  lemma {:induction false} Pow2Monotone(a: nat, b: nat)
    requires a <= b
    ensures 1 <= Pow2(a) <= Pow2(b)
    decreases b
  {
    if a < b { Pow2Monotone(a, b - 1); } else if a > 0 { Pow2Monotone(a - 1, b - 1); }
  }

  lemma MultipleReaches(k: int, d: nat)
    ensures k >= 1 ==> k * d >= d
    ensures k <= -1 ==> k * d <= 0 - d
  {
  }

  lemma NoMultipleBetween(k: int, d: nat)
    requires 0 - d < k * d < d
    ensures k == 0
  {
    MultipleReaches(k, d);
  }

  /** Quotient and remainder are unique. */
  lemma Decompose(q: nat, r: nat, d: nat)
    requires r < d
    ensures (q * d + r) / d == q && (q * d + r) % d == r
  {
    var x := q * d + r;
    var p, e := x / d, x % d;
    assert x == p * d + e;
    assert (q - p) * d == e - r;
    NoMultipleBetween(q - p, d);
  }
}
