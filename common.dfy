/**
 * Shared vocabulary: optional values, error results, the unsigned machine
 * integers the Go code uses, and explicit wrap-around arithmetic for them.
 */
module Common {

  datatype Option<T> = None | Some(value: T)

  /** A Go `error` is modelled by its text. */
  datatype Error = Error(msg: string)

  datatype Result<T> = Ok(value: T) | Err(error: Error)
  {
    predicate IsFailure() { Err? }
  }

  const UINT8_LIMIT: int := 0x100
  const UINT16_LIMIT: int := 0x1_0000
  const UINT64_LIMIT: int := 0x1_0000_0000_0000_0000
  const INT64_MIN: int := -0x8000_0000_0000_0000
  const INT64_LIMIT: int := 0x8000_0000_0000_0000

  type uint8 = x: int | 0 <= x < UINT8_LIMIT
  type uint16 = x: int | 0 <= x < UINT16_LIMIT
  type uint64 = x: int | 0 <= x < UINT64_LIMIT
  /** Go's `int` on a 64-bit platform. */
  type int64 = x: int | INT64_MIN <= x < INT64_LIMIT

  function IntAbs(x: int): (r: nat)
    ensures r == x || r == -x
  {
    if x < 0 then -x else x
  }

  /** uint64 addition: wraps modulo 2^64. */
  function AddWrap64(x: uint64, y: uint64): (r: uint64)
    ensures x + y < UINT64_LIMIT ==> r == x + y
    ensures x + y >= UINT64_LIMIT ==> r == x + y - UINT64_LIMIT
  {
    (x + y) % UINT64_LIMIT
  }

  /** uint64 subtraction: wraps modulo 2^64 when y > x. */
  function SubWrap64(x: uint64, y: uint64): (r: uint64)
    ensures y <= x ==> r == x - y
    ensures x < y ==> r == x - y + UINT64_LIMIT
  {
    (x - y) % UINT64_LIMIT
  }

  /** uint64 multiplication: wraps modulo 2^64. */
  function MulWrap64(x: uint64, y: uint64): (r: uint64)
    ensures x * y < UINT64_LIMIT ==> r == x * y
    ensures y == 2 && 2 * x >= UINT64_LIMIT ==> r == 2 * x - UINT64_LIMIT
  {
    var p := x * y;
    assert 0 <= p;
    WrapOnce(p);
    p % UINT64_LIMIT
  }

  /** Below 2^64 a value is its own remainder; below 2^65 one 2^64 is taken off. */
  lemma WrapOnce(p: int)
    requires 0 <= p
    ensures p < UINT64_LIMIT ==> p % UINT64_LIMIT == p
    ensures UINT64_LIMIT <= p < 2 * UINT64_LIMIT ==> p % UINT64_LIMIT == p - UINT64_LIMIT
  {
  }

  /** uint8 addition: wraps modulo 2^8. */
  function AddWrap8(x: uint8, y: uint8): (r: uint8)
    ensures x + y < UINT8_LIMIT ==> r == x + y
    ensures x + y >= UINT8_LIMIT ==> r == x + y - UINT8_LIMIT
  {
    (x + y) % UINT8_LIMIT
  }

  /** uint8 subtraction: wraps modulo 2^8 when y > x. */
  function SubWrap8(x: uint8, y: uint8): (r: uint8)
    ensures y <= x ==> r == x - y
    ensures x < y ==> r == x - y + UINT8_LIMIT
  {
    (x - y) % UINT8_LIMIT
  }

  /** Number of UTF-8 bytes that encode a code point: Go's `len` counts these. */
  function Utf8Len(c: char): (n: nat)
    ensures 1 <= n <= 4
  {
    if c as int < 0x80 then 1
    else if c as int < 0x800 then 2
    else if c as int < 0x1_0000 then 3
    else 4
  }

  /** Byte length of a string, as Go's `len(s)` reports it. */
  function ByteLen(s: string): (n: nat)
    ensures n >= |s|
    ensures n <= 4 * |s|
  {
    if s == [] then 0 else Utf8Len(s[0]) + ByteLen(s[1..])
  }

  lemma {:induction false} ByteLenAppend(a: string, b: string)
    ensures ByteLen(a + b) == ByteLen(a) + ByteLen(b)
  {
    if a != [] {
      assert (a + b)[1..] == a[1..] + b;
      ByteLenAppend(a[1..], b);
    } else {
      assert a + b == b;
    }
  }

  /** Decimal text of a natural number, as `%d`/`%v` format it. */
  function NatToString(n: nat): (s: string)
    ensures |s| >= 1
    ensures forall i :: 0 <= i < |s| ==> '0' <= s[i] <= '9'
    decreases n
  {
    if n < 10 then [DigitChar(n)] else NatToString(n / 10) + [DigitChar(n % 10)]
  }

  function DigitChar(d: nat): (c: char)
    requires d < 10
    ensures '0' <= c <= '9'
    ensures c as int - '0' as int == d
  {
    ('0' as int + d) as char
  }

  /** Decimal text of an integer, with a leading '-' when negative. */
  function IntToString(n: int): (s: string)
    ensures |s| >= 1
  {
    if n < 0 then "-" + NatToString(-n) else NatToString(n)
  }

  /** Adding a multiple of 2^64 does not change a value modulo 2^64. */
  lemma {:induction false} ModAddMultiple(x: int, k: int)
    ensures (x + k * UINT64_LIMIT) % UINT64_LIMIT == x % UINT64_LIMIT
  {
  }

  /** Reducing the left operand of a sum first does not change the sum modulo 2^64. */
  lemma ModAddLeft(a: int, b: int)
    ensures ((a % UINT64_LIMIT) + b) % UINT64_LIMIT == (a + b) % UINT64_LIMIT
  {
    var q := a / UINT64_LIMIT;
    assert a == q * UINT64_LIMIT + a % UINT64_LIMIT;
    ModAddMultiple(a % UINT64_LIMIT + b, q);
  }

  /** Reducing a factor first does not change a product modulo 2^64. */
  lemma ModMulLeft(a: int, n: int)
    ensures ((a % UINT64_LIMIT) * n) % UINT64_LIMIT == (a * n) % UINT64_LIMIT
  {
    var q := a / UINT64_LIMIT;
    var r := a % UINT64_LIMIT;
    assert a == q * UINT64_LIMIT + r;
    assert a * n == (q * n) * UINT64_LIMIT + r * n by {
      assert a * n == (q * UINT64_LIMIT + r) * n;
    }
    ModAddMultiple(r * n, q * n);
  }

  function Pow2(k: nat): (r: nat)
    ensures r >= 1
  {
    if k == 0 then 1 else 2 * Pow2(k - 1)
  }

  lemma {:induction false} Pow2Add(a: nat, b: nat)
    ensures Pow2(a + b) == Pow2(a) * Pow2(b)
  {
    if b > 0 {
      Pow2Add(a, b - 1);
      assert Pow2(a + b) == 2 * Pow2(a + b - 1);
    }
  }

  lemma {:induction false} Pow2Below(a: nat, b: nat)
    requires a < b
    ensures Pow2(a) < Pow2(b)
  {
    if a + 1 < b {
      Pow2Below(a, b - 1);
    }
  }

  lemma Pow2Fits(k: nat)
    requires k < 64
    ensures Pow2(k) < UINT64_LIMIT
  {
    assert Pow2(8) == 0x100;
    Pow2Add(8, 8);
    assert Pow2(16) == 0x1_0000;
    Pow2Add(16, 16);
    assert Pow2(32) == 0x1_0000_0000;
    Pow2Add(32, 32);
    assert Pow2(64) == UINT64_LIMIT;
    Pow2Below(k, 64);
  }

  /** Bit k of x, as Go's `x & (1 << k) != 0` reads it. */
  predicate BitSet(x: nat, k: nat)
  {
    (x / Pow2(k)) % 2 == 1
  }

  /** A power of two has exactly one bit set. */
  lemma SingleBit(k: nat, j: nat)
    ensures BitSet(Pow2(k), j) <==> j == k
  {
    if j < k {
      Pow2Add(j, k - j);
      var m := Pow2(k - j);
      assert m == 2 * Pow2(k - j - 1);
      DivOfProduct(Pow2(j), m);
      assert Pow2(k) / Pow2(j) == m;
    } else if j > k {
      Pow2Below(k, j);
      SmallDiv(Pow2(k), Pow2(j));
    } else {
      DivOfProduct(Pow2(k), 1);
    }
  }

  lemma DivOfProduct(d: nat, m: nat)
    requires d > 0
    ensures (d * m) / d == m
  {
    var q := (d * m) / d;
    var r := (d * m) % d;
    assert d * m == d * q + r;
    assert d * (m - q) == r by {
      assert d * (m - q) == d * m - d * q;
    }
    if m - q >= 1 {
      MulAtLeast(d, m - q);
    }
  }

  lemma MulAtLeast(d: nat, c: int)
    requires c >= 1
    ensures d * c >= d
  {
    assert d * c == d + d * (c - 1);
    assert d * (c - 1) >= 0;
  }

  lemma SmallDiv(x: nat, y: nat)
    requires x < y
    ensures x / y == 0
  {
  }

  /** `x & mask != 0` where the mask is the or of the single-bit tags in `tags`. */
  predicate HasAny(x: uint64, tags: set<int>)
  {
    exists k :: 0 <= k < 64 && BitSet(x, k) && Pow2(k) in tags
  }

  /** A single-bit value meets a mask of single bits exactly when it is one of them. */
  lemma TagInMask(k: nat, tags: set<int>)
    requires k < 64 && Pow2(k) < UINT64_LIMIT
    ensures HasAny(Pow2(k), tags) <==> Pow2(k) in tags
  {
    SingleBit(k, k);
    forall j | 0 <= j < 64 && BitSet(Pow2(k), j)
      ensures j == k
    {
      SingleBit(k, j);
    }
  }

  /** Zero meets no mask. */
  lemma ZeroHasNone(tags: set<int>)
    ensures !HasAny(0, tags)
  {
    forall k | 0 <= k < 64
      ensures !BitSet(0, k)
    {
    }
  }

  /** Masks or together: `x & (a | b) != 0` exactly when `x & a != 0` or `x & b != 0`. */
  lemma HasAnyUnion(x: uint64, a: set<int>, b: set<int>)
    ensures HasAny(x, a + b) <==> HasAny(x, a) || HasAny(x, b)
  {
  }

  /** strings.HasPrefix. */
  predicate HasPrefix(s: string, prefix: string) {
    |prefix| <= |s| && s[..|prefix|] == prefix
  }
}
