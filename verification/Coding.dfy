/** Byte-level integer coding (util/coding.h): ZigZag, base-128 varints, little-endian
    fixed-width integers. Machine integers are mathematical integers kept in range by
    subset types; every truncation the code performs is written out. Where the code ORs
    disjoint bit fields, shifts or masks, the model uses +, * and % on powers of two. */
module Coding {
  const P7 := 128
  const P8 := 0x100
  const P32 := 0x1_0000_0000
  const P63 := 0x8000_0000_0000_0000
  const P64 := 0x1_0000_0000_0000_0000

  type Byte = x: int | 0 <= x < 0x100
  type Bytes = seq<Byte>
  type Int8 = x: int | -0x80 <= x < 0x80
  type Int16 = x: int | -0x8000 <= x < 0x8000
  type Int32 = x: int | -0x8000_0000 <= x < 0x8000_0000
  type Int64 = x: int | -0x8000_0000_0000_0000 <= x < 0x8000_0000_0000_0000
  type UInt32 = x: int | 0 <= x < 0x1_0000_0000
  type UInt64 = x: int | 0 <= x < 0x1_0000_0000_0000_0000

  datatype Option<+T> = None | Some(value: T)

  /** The low bits of x read as two's complement in `modulus` values. */
  function Signed(x: int, modulus: int): int
    requires modulus > 0
  {
    (x + modulus / 2) % modulus - modulus / 2
  }

  /** It differs from x by a multiple of the modulus and lies in the upper or lower half. */
  lemma SignedIs(x: int, modulus: int)
    requires modulus > 0 && modulus % 2 == 0
    ensures (Signed(x, modulus) - x) % modulus == 0 && -modulus <= 2 * Signed(x, modulus) < modulus
  {
    var y := x + modulus / 2;
    var q := y / modulus;
    assert y == q * modulus + y % modulus;
    assert Signed(x, modulus) - x == -q * modulus;
    MultipleOf(-q, modulus);
  }

  lemma MultipleOf(q: int, m: int)
    requires m > 0
    ensures q * m % m == 0
  {
    var d := q - q * m / m;
    assert q * m % m == d * m;
    assert d * m >= m || d * m <= -m || d == 0;
  }

  /** int64_t arithmetic wraps around. */
  function Wrap64(x: int): Int64 { Signed(x, P64) }

  lemma WrapIs(x: Int64)
    ensures Wrap64(x) == x
  {
  }

  lemma WrapSum(x: int, y: int)
    ensures Wrap64(x + Wrap64(y)) == Wrap64(x + y)
  {
  }

  lemma {:induction false} Pow2Monotone(a: nat, b: nat)
    requires a <= b
    ensures Pow2(a) <= Pow2(b)
  {
    if a < b { Pow2Monotone(a, b - 1); }
  }

  lemma MulGrows(t: nat, p: nat)
    requires t >= 1
    ensures t * p >= p
  {
  }

  function Pow2(k: nat): (r: nat)
    ensures r >= 1
  {
    if k == 0 then 1 else 2 * Pow2(k - 1)
  }

  lemma {:induction false} Pow2Add(a: nat, b: nat)
    ensures Pow2(a + b) == Pow2(a) * Pow2(b)
  {
    if a > 0 { Pow2Add(a - 1, b); }
  }

  // ---------------------------------------------------------------- ZigZag

  /** (n << 1) ^ (n >> 63): the second operand is all ones for a negative n, so the XOR is
      a bitwise complement there. */
  function ZigzagEncode64(n: Int64): UInt64 {
    var shifted := (2 * n) % P64;
    if n < 0 then P64 - 1 - shifted else shifted
  }

  /** (n >> 1) ^ -(n & 1). */
  function ZigzagDecode64(n: UInt64): Int64 {
    if n % 2 == 1 then -1 - n / 2 else n / 2
  }

  lemma ZigzagNegative(n: Int64)
    requires n < 0
    ensures ZigzagEncode64(n) == 2 * (-1 - n) + 1
  {
    ModShift(2 * n + P64);
  }

  lemma ModShift(x: int)
    requires 0 <= x < P64
    ensures (x - P64) % P64 == x
  {
  }

  lemma ZigzagPositive(n: Int64)
    requires n >= 0
    ensures ZigzagEncode64(n) == 2 * n
  {
    SmallMod(2 * n, P64);
  }

  lemma ZigzagOdd(k: nat)
    requires 2 * k + 1 < P64
    ensures ZigzagDecode64(2 * k + 1) == -1 - k
  {
  }

  lemma ZigzagEven(k: nat)
    requires 2 * k < P64
    ensures ZigzagDecode64(2 * k) == k
  {
  }

  lemma ZigzagRoundTrip(n: Int64)
    ensures ZigzagDecode64(ZigzagEncode64(n)) == n
  {
    hide ZigzagEncode64, ZigzagDecode64;
    if n < 0 {
      ZigzagNegative(n);
      ZigzagOdd(-1 - n);
    } else {
      ZigzagPositive(n);
      ZigzagEven(n);
    }
  }

  // ---------------------------------------------------------------- varints

  function Varint(v: nat): (r: Bytes)
    ensures |r| >= 1
  {
    if v < P7 then [v] else [v % P7 + P7] + Varint(v / P7)
  }

  /** Byte i holds the i-th seven bits from below, and its highest bit tells that another byte
      follows. */
  lemma {:induction false} VarintByte(v: nat, i: nat)
    requires i < |Varint(v)|
    ensures Varint(v)[i] == v / Pow2(7 * i) % 128 + if i + 1 < |Varint(v)| then 128 else 0
  {
    if i > 0 {
      VarintByte(v / P7, i - 1);
      Pow2Of7();
      Pow2Add(7, 7 * (i - 1));
      DivDiv(v, P7, Pow2(7 * (i - 1)));
    } else {
      assert Pow2(0) == 1;
    }
  }

  lemma DivDiv(n: nat, a: nat, b: nat)
    requires a > 0 && b > 0 && a * b > 0
    ensures n / a / b == n / (a * b)
  {
    DivMod(n, a);
    DivMod(n / a, b);
    Nested(n, a, b, n / a, n % a, n / a / b, n / a % b);
    QuotientIs(n, a * b, n / a / b, n / a % b * a + n % a);
  }

  lemma DivMod(n: nat, a: nat)
    requires a > 0
    ensures n == n / a * a + n % a && n % a < a
  {
  }

  lemma Nested(n: nat, a: nat, b: nat, m: nat, s: nat, q: nat, r: nat)
    requires n == m * a + s && s < a && m == q * b + r && r < b
    ensures n == q * (a * b) + (r * a + s) && r * a + s < a * b
  {
    MulSplit(q, b, r, a);
    MulBelow(r, b, a);
  }

  lemma MulSplit(q: nat, b: nat, r: nat, a: nat)
    ensures (q * b + r) * a == q * (a * b) + r * a
  {
  }

  lemma MulBelow(r: nat, b: nat, a: nat)
    requires r < b
    ensures r * a + a <= a * b
  {
    var d: nat := b - r - 1;
    assert b == r + 1 + d;
    assert a * b == r * a + a + d * a;
  }

  lemma QuotientIs(n: nat, d: nat, q: nat, r: nat)
    requires d > 0 && n == q * d + r && r < d
    ensures n / d == q
  {
    if n / d < q { MulBelow(n / d, q, d); }
    if n / d > q { MulBelow(q, n / d, d); }
  }

  /** The lowest seven bits come first. */
  lemma KnownVarints()
    ensures Varint(1) == [1] && Varint(2) == [2] && Varint(127) == [127]
    ensures Varint(149) == [0x95, 1] && Varint(200) == [0xC8, 1]
  {
  }

  /** A value of 7g bits takes at most g bytes. */
  lemma {:induction false} VarintLength(v: nat, g: nat)
    requires g >= 1 && v < Pow2(7 * g)
    ensures |Varint(v)| <= g
  {
    Pow2Add(7, 7 * (g - 1));
    assert Pow2(7) == P7;
    if v >= P7 {
      VarintLength(v / P7, g - 1);
    }
  }

  /** VarintDecode32/64 from position p with `shift` bits already read: fails (nullptr)
      at the end of the buffer or when the shift passes `maxShift`; bits past `modulus`
      are lost. */
  function DecodeVarint(s: Bytes, p: nat, shift: nat, acc: nat, maxShift: nat, modulus: nat): (r: Option<(nat, nat)>)
    requires p <= |s| && modulus > 0
    ensures r.Some? ==> r.value.0 < modulus && p < r.value.1 <= |s|
    decreases |s| - p
  {
    if shift > maxShift || p == |s| then None
    else
      var acc' := (acc + s[p] % P7 * Pow2(shift)) % modulus;
      if s[p] >= P7 then DecodeVarint(s, p + 1, shift + 7, acc', maxShift, modulus)
      else Some((acc', p + 1))
  }

  function DecodeVarint64(s: Bytes, p: nat): Option<(UInt64, nat)>
    requires p <= |s|
  {
    DecodeVarint(s, p, 0, 0, 63, P64)
  }

  function DecodeVarint32(s: Bytes, p: nat): Option<(UInt32, nat)>
    requires p <= |s|
  {
    DecodeVarint(s, p, 0, 0, 28, P32)
  }

  lemma Pow2Of7()
    ensures Pow2(7) == P7
  {
    assert Pow2(3) == 8;
    Pow2Add(3, 3);
  }

  lemma SplitProduct(w: nat, r: nat, p: nat)
    ensures (w * P7 + r) * p == w * (P7 * p) + r * p
    ensures 0 <= r * p <= (w * P7 + r) * p
  {
    MulSum(w * P7, r, p);
    MulNat(w, P7 * p);
    MulNat(r, p);
  }

  lemma MulSum(a: nat, b: nat, p: nat)
    ensures (a + b) * p == a * p + b * p
  {
  }

  lemma MulNat(a: nat, b: nat)
    ensures a * b >= 0
  {
  }

  lemma Pow2Step(v: nat, shift: nat)
    ensures v * Pow2(shift) == v / P7 * Pow2(shift + 7) + v % P7 * Pow2(shift)
    ensures 0 <= v % P7 * Pow2(shift) <= v * Pow2(shift)
  {
    hide Pow2;
    Pow2Add(7, shift);
    Pow2Of7();
    var w, r := v / P7, v % P7;
    assert v == w * P7 + r;
    SplitProduct(w, r, Pow2(shift));
  }

  lemma SmallMod(x: nat, m: nat)
    requires x < m
    ensures x % m == x
  {
  }

  /** One unfolding of the decoder that loses no bits. */
  lemma DecodeStep(s: Bytes, p: nat, shift: nat, acc: nat, maxShift: nat, modulus: nat, part: nat)
    requires p < |s| && shift <= maxShift && part == s[p] % P7 * Pow2(shift) && acc + part < modulus
    ensures DecodeVarint(s, p, shift, acc, maxShift, modulus)
         == if s[p] >= P7 then DecodeVarint(s, p + 1, shift + 7, acc + part, maxShift, modulus)
            else Some((acc + part, p + 1))
  {
    SmallMod(acc + part, modulus);
  }

  /** Decoding the bytes of v adds v, at bit `shift`, to what was read before. */
  lemma {:induction false} VarintRoundTrip(v: nat, shift: nat, acc: nat, maxShift: nat, modulus: nat, pre: Bytes, post: Bytes)
    requires acc + v * Pow2(shift) < modulus
    requires shift + 7 * (|Varint(v)| - 1) <= maxShift
    ensures DecodeVarint(pre + Varint(v) + post, |pre|, shift, acc, maxShift, modulus)
         == Some((acc + v * Pow2(shift), |pre| + |Varint(v)|))
    decreases v
  {
    hide Pow2, DecodeVarint;
    var s := pre + Varint(v) + post;
    var part := v % P7 * Pow2(shift);
    Pow2Step(v, shift);
    FirstByte(v, pre, post);
    DecodeStep(s, |pre|, shift, acc, maxShift, modulus, part);
    if v >= P7 {
      VarintRoundTrip(v / P7, shift + 7, acc + part, maxShift, modulus, pre + [v % P7 + P7], post);
    }
  }

  lemma FirstByte(v: nat, pre: Bytes, post: Bytes)
    ensures var s := pre + Varint(v) + post;
            && |pre| < |s| && s[|pre|] % P7 == v % P7 && (s[|pre|] >= P7 <==> v >= P7)
            && (v >= P7 ==> s == (pre + [v % P7 + P7]) + Varint(v / P7) + post && |Varint(v)| == 1 + |Varint(v / P7)|)
  {
    assert (pre + Varint(v) + post)[|pre|] == Varint(v)[0];
  }

  lemma VarintFromStart(v: nat, maxShift: nat, modulus: nat, pre: Bytes, post: Bytes)
    requires v < modulus && 7 * (|Varint(v)| - 1) <= maxShift
    ensures DecodeVarint(pre + Varint(v) + post, |pre|, 0, 0, maxShift, modulus)
         == Some((v, |pre| + |Varint(v)|))
  {
    assert Pow2(0) == 1;
    VarintRoundTrip(v, 0, 0, maxShift, modulus, pre, post);
  }

  /** Whatever surrounds the encoding of a 64-bit (32-bit) value, decoding returns the value
      and stops right behind it; it took at most 10 (5) bytes. */
  lemma Varint64RoundTrip(v: UInt64, pre: Bytes, post: Bytes)
    ensures DecodeVarint64(pre + Varint(v) + post, |pre|) == Some((v, |pre| + |Varint(v)|))
    ensures |Varint(v)| <= 10
  {
    Pow2Values();
    Pow2Monotone(64, 70);
    VarintLength(v, 10);
    VarintFromStart(v, 63, P64, pre, post);
  }

  lemma Varint32RoundTrip(v: UInt32, pre: Bytes, post: Bytes)
    ensures DecodeVarint32(pre + Varint(v) + post, |pre|) == Some((v, |pre| + |Varint(v)|))
    ensures |Varint(v)| <= 5
  {
    Pow2Values();
    Pow2Monotone(32, 35);
    VarintLength(v, 5);
    VarintFromStart(v, 28, P32, pre, post);
  }

  /** More than ten (five) bytes are refused. */
  lemma OverlongVarint(s: Bytes, p: nat)
    requires p <= |s|
    ensures p + 10 <= |s| && (forall i :: p <= i < p + 10 ==> s[i] >= 128) ==> DecodeVarint64(s, p) == None
    ensures p + 5 <= |s| && (forall i :: p <= i < p + 5 ==> s[i] >= 128) ==> DecodeVarint32(s, p) == None
  {
    if p + 10 <= |s| && (forall i :: p <= i < p + 10 ==> s[i] >= 128) { Overlong(s, p, 0, 0, 63, P64, 10); }
    if p + 5 <= |s| && (forall i :: p <= i < p + 5 ==> s[i] >= 128) { Overlong(s, p, 0, 0, 28, P32, 5); }
  }

  lemma {:induction false} Overlong(s: Bytes, p: nat, shift: nat, acc: nat, maxShift: nat, modulus: nat, n: nat)
    requires p + n <= |s| && modulus > 0 && shift + 7 * n > maxShift && forall i :: p <= i < p + n ==> s[i] >= 128
    ensures DecodeVarint(s, p, shift, acc, maxShift, modulus) == None
    decreases n
  {
    if n > 0 && shift <= maxShift {
      Overlong(s, p + 1, shift + 7, (acc + s[p] % P7 * Pow2(shift)) % modulus, maxShift, modulus, n - 1);
    }
  }

  lemma Pow2Values()
    ensures Pow2(8) == P8 && Pow2(16) == 0x1_0000 && Pow2(32) == P32 && Pow2(64) == P64
  {
    assert Pow2(8) == P8;
    Pow2Add(8, 8);
    assert Pow2(16) == 0x1_0000;
    Pow2Add(16, 16);
    assert Pow2(32) == P32;
    Pow2Add(32, 32);
  }

  method PutVarint(dst: Bytes, value: nat) returns (r: Bytes)
    ensures r == dst + Varint(value)
  {
    r := dst;
    var v: nat := value;
    while v >= P7
      invariant r + Varint(v) == dst + Varint(value)
    {
      r := r + [v % P7 + P7];
      v := v / P7;
    }
    r := r + [v];
  }

  /** The loop of VarintDecode64 (maxShift 63, 64-bit result) and VarintDecode32 (28, 32). */
  method VarintDecode(s: Bytes, p: nat, maxShift: nat, modulus: nat) returns (r: Option<(nat, nat)>)
    requires p <= |s| && modulus > 0
    ensures r == DecodeVarint(s, p, 0, 0, maxShift, modulus)
  {
    var q, shift, result: nat := p, 0, 0;
    while shift <= maxShift && q < |s|
      invariant p <= q <= |s|
      invariant DecodeVarint(s, q, shift, result, maxShift, modulus) == DecodeVarint(s, p, 0, 0, maxShift, modulus)
      decreases |s| - q
    {
      var b := s[q];
      q := q + 1;
      result := (result + b % P7 * Pow2(shift)) % modulus;
      if b < P7 {
        return Some((result, q));
      }
      shift := shift + 7;
    }
    r := None;
  }

  // ---------------------------------------------------------------- fixed-width integers

  /** The low k bytes of n, least significant first. */
  function Fixed(n: nat, k: nat): (r: Bytes)
    ensures |r| == k
  {
    if k == 0 then [] else [n % P8] + Fixed(n / P8, k - 1)
  }

  /** Byte i holds the i-th eight bits from below. */
  lemma {:induction false} FixedByte(n: nat, k: nat, i: nat)
    requires i < k
    ensures Fixed(n, k)[i] == n / Pow2(8 * i) % P8
  {
    if i > 0 {
      FixedByte(n / P8, k - 1, i - 1);
      Pow2Values();
      Pow2Add(8, 8 * (i - 1));
      DivDiv(n, P8, Pow2(8 * (i - 1)));
    } else {
      assert Pow2(0) == 1;
    }
  }

  /** The lowest byte comes first. */
  lemma KnownFixed()
    ensures Fixed(0x3F80_0001, 4) == [1, 0, 0x80, 0x3F]
    ensures Fixed(0x3FF0_0000_0000_0001, 8) == [1, 0, 0, 0, 0, 0, 0xF0, 0x3F]
  {
    assert Fixed(0x3F80, 2) == [0x80, 0x3F];
    assert Fixed(0x3F_8000, 3) == [0] + Fixed(0x3F80, 2);
    assert Fixed(0x3F80_0001, 4) == [1] + Fixed(0x3F_8000, 3);
    assert Fixed(0x3FF0, 2) == [0xF0, 0x3F];
    assert Fixed(0x3F_F000, 3) == [0] + Fixed(0x3FF0, 2);
    assert Fixed(0x3FF0_0000, 4) == [0] + Fixed(0x3F_F000, 3);
    assert Fixed(0x3F_F000_0000, 5) == [0] + Fixed(0x3FF0_0000, 4);
    assert Fixed(0x3FF0_0000_0000, 6) == [0] + Fixed(0x3F_F000_0000, 5);
    assert Fixed(0x3F_F000_0000_0000, 7) == [0] + Fixed(0x3FF0_0000_0000, 6);
    assert Fixed(0x3FF0_0000_0000_0001, 8) == [1] + Fixed(0x3F_F000_0000_0000, 7);
  }

  function FixedDecode(s: Bytes): nat {
    if s == [] then 0 else s[0] + P8 * FixedDecode(s[1..])
  }

  /** The decoder gives the low 8 * k bits of n back. */
  lemma {:induction false} FixedTruncates(n: nat, k: nat)
    ensures FixedDecode(Fixed(n, k)) == n % Pow2(8 * k)
  {
    if k > 0 {
      FixedTruncates(n / P8, k - 1);
      Pow2Values();
      Pow2Add(8, 8 * (k - 1));
      ModSplit(n, P8, Pow2(8 * (k - 1)));
    } else {
      assert Pow2(0) == 1;
    }
  }

  lemma ModSplit(n: nat, a: nat, b: nat)
    requires a > 0 && b > 0 && a * b > 0
    ensures n % (a * b) == n % a + a * (n / a % b)
  {
    var q := n / a / b;
    DivDiv(n, a, b);
    assert n / a == q * b + n / a % b;
    MulSplit(q, b, n / a % b, a);
    assert n == (q * b + n / a % b) * a + n % a;
  }

  lemma FixedRoundTrip(n: nat, k: nat)
    requires n < Pow2(8 * k)
    ensures FixedDecode(Fixed(n, k)) == n
  {
    hide Pow2;
    FixedTruncates(n, k);
    SmallMod(n, Pow2(8 * k));
  }
}
