/** Shared vocabulary: optional values (the source's nullable references),
    32-bit integers as the .NET runtime has them, and instants. */
module Common {

  /** A nullable reference: `None` stands for C#'s `null`. */
  datatype Option<+T> = None | Some(value: T) {
    function GetOr(default: T): T {
      match this
      case Some(v) => v
      case None => default
    }
  }

  const MinInt32: int := -0x8000_0000
  const MaxInt32: int := 0x7FFF_FFFF

  /** Values of C#'s `int`. */
  type Int32 = x: int | MinInt32 <= x <= MaxInt32

  /** Unchecked C# `int` arithmetic: the exact result reduced into the 32-bit range. */
  function Wrap32(x: int): (r: Int32)
    ensures (r - x) % 0x1_0000_0000 == 0
    ensures MinInt32 <= x <= MaxInt32 ==> r == x
  {
    var m := (x - MinInt32) % 0x1_0000_0000;
    m + MinInt32
  }

  /** Unchecked addition accumulates like exact addition wrapped once at the end. */
  lemma Wrap32Add(a: int, b: int)
    ensures Wrap32(Wrap32(a) + b) == Wrap32(a + b)
  {
    var M := 0x1_0000_0000;
    var w := Wrap32(a);
    var q := (a - MinInt32) / M;
    assert a - MinInt32 == q * M + (a - MinInt32) % M;
    assert w == a - q * M;
    Wrap32Shift(a + b, q);
  }

  /** Wrapping ignores multiples of 2^32. */
  lemma Wrap32Shift(x: int, q: int)
    ensures Wrap32(x - q * 0x1_0000_0000) == Wrap32(x)
  {
    var M := 0x1_0000_0000;
    var z := x - MinInt32;
    var p := z / M;
    assert z == p * M + z % M;
    assert z - q * M == (p - q) * M + z % M;
    assert 0 <= z % M < M;
    DivModUnique(z - q * M, p - q, z % M, M);
  }

  /** Euclidean division has one quotient and remainder. */
  lemma DivModUnique(n: int, p: int, r: int, m: int)
    requires m > 0 && 0 <= r < m && n == p * m + r
    ensures n % m == r
  {
    var p' := n / m;
    var r' := n % m;
    var d := p - p';
    assert d * m == p * m - p' * m;
    assert d * m == r' - r;
    if d >= 1 {
      MulAtLeast(d, m);
    } else if d <= -1 {
      MulAtLeast(-d, m);
    }
  }

  lemma MulAtLeast(k: int, m: int)
    requires k >= 1 && m > 0
    ensures k * m >= m
  {
  }

  /** An instant (a `DateTime`/`DateTimeOffset`) as a tick count. */
  type Instant = int

  /** `DateTimeOffset.MinValue`, the value an unset syndication date carries. */
  const MinInstant: Instant := 0
}
