/** What the column encoders write and the block decoders read
    (storage/comp_val_builder.h, Decode*Vals of storage/comp_data_part.cpp), as functions
    of the values already encoded. */
module ColumnCodec {
  import opened Coding
  import opened DbValue

  // ---------------------------------------------------------------- integers

  function PreVal(prev: seq<DBVal>): Int64 {
    if prev == [] then 0 else IntOf(prev[|prev| - 1])
  }

  function PreDelta(prev: seq<DBVal>): Int64 {
    if |prev| < 2 then 0 else Wrap64(IntOf(prev[|prev| - 1]) - IntOf(prev[|prev| - 2]))
  }

  /** The value itself, then one delta, then deltas of deltas. */
  function IntToken(prev: seq<DBVal>, cur: Int64): Int64 {
    var delta := Wrap64(cur - PreVal(prev));
    if |prev| == 0 then cur
    else if |prev| == 1 then delta
    else Wrap64(delta - PreDelta(prev))
  }

  function IntFromToken(prev: seq<DBVal>, token: Int64): Int64 {
    if |prev| == 0 then token
    else if |prev| == 1 then Wrap64(PreVal(prev) + token)
    else Wrap64(PreVal(prev) + PreDelta(prev) + token)
  }

  lemma IntTokenRoundTrip(prev: seq<DBVal>, cur: Int64)
    ensures IntFromToken(prev, IntToken(prev, cur)) == cur
  {
    WrapIs(cur);
    if |prev| == 1 {
      WrapSum(PreVal(prev), cur - PreVal(prev));
    } else if |prev| > 1 {
      WrapBack(PreVal(prev), PreDelta(prev), cur);
    }
  }

  lemma WrapBack(p: int, d: int, c: int)
    ensures Wrap64(p + d + Wrap64(Wrap64(c - p) - d)) == Wrap64(c)
  {
    var w: int := Wrap64(c - p);
    WrapSum(p + d, w - d);
    WrapSum(p, c - p);
    assert p + d + (w - d) == p + w;
  }

  // ---------------------------------------------------------------- float and double

  /** Bitwise exclusive or. */
  function Xor(a: nat, b: nat): nat {
    if a == 0 && b == 0 then 0 else XorBit(a % 2, b % 2) + 2 * Xor(a / 2, b / 2)
  }

  function XorBit(p: nat, q: nat): nat { if p == q then 0 else 1 }

  lemma XorParts(a: nat, b: nat)
    ensures Xor(a, b) % 2 == XorBit(a % 2, b % 2)
    ensures Xor(a, b) / 2 == Xor(a / 2, b / 2)
  {
  }

  lemma {:induction false} XorUndo(a: nat, b: nat)
    ensures Xor(b, Xor(a, b)) == a
  {
    if a > 0 || b > 0 {
      hide Xor;
      var x := Xor(a, b);
      XorParts(a, b);
      XorParts(b, x);
      XorUndo(a / 2, b / 2);
      assert Xor(b, x) / 2 == a / 2;
      assert Xor(b, x) % 2 == a % 2;
    }
  }

  lemma {:induction false} XorBound(a: nat, b: nat, k: nat)
    requires a < Pow2(k) && b < Pow2(k)
    ensures Xor(a, b) < Pow2(k)
  {
    if k > 0 {
      XorBound(a / 2, b / 2, k - 1);
    }
  }

  /** The two bit-pattern codecs differ in width and in how the header byte is divided
      into a zero-pair count, a continuation flag and low bits of the pattern. */
  datatype FloatFormat = FloatBits | DoubleBits {
    function Width(): nat { if FloatBits? then 32 else 64 }
    function Modulus(): (m: nat)
      ensures m == Pow2(Width())
    {
      Pow2Values();
      if FloatBits? then P32 else P64
    }
    function MaxShift(): nat { if FloatBits? then 28 else 63 }
    function MaxToken(): nat { if FloatBits? then 6 else 10 }

    // header byte
    function Header(pairs: nat, more: bool, low: nat): nat {
      if FloatBits? then pairs * 16 + (if more then 8 else 0) + low
      else pairs * 8 + (if more then 4 else 0) + low
    }
    function Pairs(header: nat): nat { if FloatBits? then header / 16 else header / 8 }
    predicate More(header: nat) { if FloatBits? then header / 8 % 2 == 1 else header / 4 % 2 == 1 }

    // the bits of a pattern kept in the header, and the others
    function Low(t: nat): nat { if FloatBits? then t % 8 else t % 4 }
    function High(t: nat): nat { if FloatBits? then t / 8 else t / 4 }
    function Join(high: nat, low: nat): nat {
      if FloatBits? then (high * 8) % P32 + low else (high * 4) % P64 + low
    }
  }

  function BitsOf(f: FloatFormat, v: DBVal): (r: nat)
    ensures r < f.Modulus()
  {
    match v
    case Float(x) => if f.FloatBits? then x else 0
    case Double(x) => if f.DoubleBits? then x else 0
    case _ => 0
  }

  /** preVal_: the bits of the value before, zero at the start of a block. */
  function PreBits(f: FloatFormat, prev: seq<DBVal>): (r: nat)
    ensures r < f.Modulus()
  {
    if prev == [] then 0 else BitsOf(f, prev[|prev| - 1])
  }

  function XorWithPrevious(f: FloatFormat, prev: seq<DBVal>, v: DBVal): (r: nat)
    ensures r < f.Modulus()
  {
    XorBound(BitsOf(f, v), PreBits(f, prev), f.Width());
    Xor(BitsOf(f, v), PreBits(f, prev))
  }

  /** Number of trailing zero bit pairs and what is left above them. */
  function StripZeroPairs(x: nat): (r: (nat, nat))
    requires x > 0
    ensures r.1 > 0 && r.1 % 4 != 0
    ensures x == r.1 * Pow2(2 * r.0)
  {
    if x % 4 != 0 then (0, x)
    else
      var (z, t) := StripZeroPairs(x / 4);
      Pow2Add(2, 2 * z);
      assert Pow2(2) == 4;
      (z + 1, t)
  }

  /** The pair count fits the bits that the header byte leaves for it. */
  lemma ZeroPairsFit(x: nat, width: nat)
    requires 0 < x < Pow2(width)
    ensures 2 * StripZeroPairs(x).0 < width
    ensures StripZeroPairs(x).1 <= x
  {
    var (z, t) := StripZeroPairs(x);
    MulGrows(t, Pow2(2 * z));
    MulGrows(Pow2(2 * z), t);
    if 2 * z >= width {
      Pow2Monotone(width, 2 * z);
    }
  }

  function XorToken(f: FloatFormat, x: nat): Bytes
    requires x < f.Modulus()
  {
    if x == 0 then [0]
    else
      var (z, t) := StripZeroPairs(x);
      ZeroPairsFit(x, f.Width());
      if f.High(t) == 0 then [f.Header(z, false, f.Low(t))]
      else [f.Header(z, true, f.Low(t))] + Varint(f.High(t))
  }

  function DecodeXor(f: FloatFormat, s: Bytes, p: nat): (r: Option<(nat, nat)>)
    requires p <= |s|
    ensures r.Some? ==> r.value.0 < f.Modulus() && p < r.value.1 <= |s|
  {
    if p == |s| then None
    else
      var u8 := s[p];
      var high := if f.More(u8) then DecodeVarint(s, p + 1, 0, 0, f.MaxShift(), f.Modulus())
                  else Some((0, p + 1));
      match high
      case None => None
      case Some((u, q)) =>
        Some(((f.Join(u, f.Low(u8)) * Pow2(2 * f.Pairs(u8))) % f.Modulus(), q))
  }

  /** Decoding a header byte whose fields are known. */
  lemma DecodeHeader(f: FloatFormat, s: Bytes, p: nat, z: nat, t: nat, q: nat)
    requires p < |s| && t < f.Modulus() && t * Pow2(2 * z) < f.Modulus()
    requires f.Pairs(s[p]) == z && f.Low(s[p]) == f.Low(t) && f.More(s[p]) == (f.High(t) > 0)
    requires f.Join(f.High(t), f.Low(t)) == t
    requires if f.High(t) > 0 then DecodeVarint(s, p + 1, 0, 0, f.MaxShift(), f.Modulus()) == Some((f.High(t), q))
             else q == p + 1
    ensures DecodeXor(f, s, p) == Some((t * Pow2(2 * z), q))
  {
    SmallMod(t * Pow2(2 * z), f.Modulus());
  }

  /** A token is at most 6 (10) bytes and decodes to the pattern it was made from. */
  lemma XorTokenRoundTrip(f: FloatFormat, x: nat, pre: Bytes, post: Bytes)
    requires x < f.Modulus()
    ensures DecodeXor(f, pre + XorToken(f, x) + post, |pre|) == Some((x, |pre| + |XorToken(f, x)|))
    ensures |XorToken(f, x)| <= f.MaxToken()
  {
    hide DecodeXor, DecodeVarint, StripZeroPairs, Varint;
    var token := XorToken(f, x);
    var s := pre + token + post;
    assert s[|pre|] == token[0];
    if x == 0 {
      DecodeHeader(f, s, |pre|, 0, 0, |pre| + 1);
    } else {
      var (z, t) := StripZeroPairs(x);
      ZeroPairsFit(x, f.Width());
      HeaderParts(f, z, t, f.High(t) > 0);
      if f.High(t) > 0 {
        assert s == (pre + [token[0]]) + Varint(f.High(t)) + post;
        HighFits(f, t);
        VarintFromStart(f.High(t), f.MaxShift(), f.Modulus(), pre + [token[0]], post);
      }
      DecodeHeader(f, s, |pre|, z, t, |pre| + |token|);
    }
  }

  lemma HeaderParts(f: FloatFormat, z: nat, t: nat, more: bool)
    requires 2 * z < f.Width() && t < f.Modulus()
    ensures var h := f.Header(z, more, f.Low(t));
            h < P8 && f.More(h) == more && f.Low(h) == f.Low(t) && f.Pairs(h) == z
    ensures f.Join(f.High(t), f.Low(t)) == t
  {
    var low := f.Low(t);
    if f.FloatBits? {
      FloatHeader(z, low, more);
    } else {
      DoubleHeader(z, low, more);
    }
  }

  lemma FloatHeader(z: nat, low: nat, more: bool)
    requires z < 16 && low < 8
    ensures var h := z * 16 + (if more then 8 else 0) + low;
            h < P8 && (h / 8 % 2 == 1) == more && h % 8 == low && h / 16 == z
  {
    assert (z * 16 + (if more then 8 else 0) + low) / 8 == z * 2 + (if more then 1 else 0);
  }

  lemma DoubleHeader(z: nat, low: nat, more: bool)
    requires z < 32 && low < 4
    ensures var h := z * 8 + (if more then 4 else 0) + low;
            h < P8 && (h / 4 % 2 == 1) == more && h % 4 == low && h / 8 == z
  {
    assert (z * 8 + (if more then 4 else 0) + low) / 4 == z * 2 + (if more then 1 else 0);
  }

  lemma HighFits(f: FloatFormat, t: nat)
    requires t < f.Modulus()
    ensures f.High(t) <= t
    ensures |Varint(f.High(t))| <= f.MaxToken() - 1
    ensures 7 * (|Varint(f.High(t))| - 1) <= f.MaxShift()
  {
    Pow2Values();
    if f.DoubleBits? {
      Pow2Add(63, 1);
      VarintLength(f.High(t), 9);
    } else {
      Pow2Add(32, 3);
      VarintLength(f.High(t), 5);
    }
  }

  // ---------------------------------------------------------------- bool

  /** Bit k of x, and x | (1 << k). */
  predicate BitIsSet(x: nat, k: nat) {
    if k == 0 then x % 2 == 1 else BitIsSet(x / 2, k - 1)
  }

  function SetBit(x: nat, k: nat): nat {
    if k == 0 then 1 + 2 * (x / 2) else x % 2 + 2 * SetBit(x / 2, k - 1)
  }

  lemma {:induction false} SetBitIs(x: nat, k: nat, j: nat)
    ensures BitIsSet(SetBit(x, k), j) == (k == j || BitIsSet(x, j))
  {
    if k > 0 && j > 0 { SetBitIs(x / 2, k - 1, j - 1); }
  }

  lemma {:induction false} SetBitBound(x: nat, k: nat, n: nat)
    requires x < Pow2(n) && k < n
    ensures SetBit(x, k) < Pow2(n)
  {
    assert Pow2(n) == 2 * Pow2(n - 1) && x / 2 < Pow2(n - 1);
    if k > 0 {
      SetBitBound(x / 2, k - 1, n - 1);
      assert SetBit(x, k) == x % 2 + 2 * SetBit(x / 2, k - 1);
    }
  }

  lemma {:induction false} ZeroHasNoBits(k: nat)
    ensures !BitIsSet(0, k)
  {
    if k > 0 { ZeroHasNoBits(k - 1); }
  }

  /** BIT_MAP_IS_SET: the first value of a byte is its highest bit. */
  predicate BitmapHas(data: Bytes, i: nat)
    requires i / 8 < |data|
  {
    BitIsSet(data[i / 8], 7 - i % 8)
  }

  lemma BitInByte(x: Byte, k: nat)
    requires k < 8
    ensures SetBit(x, k) < P8
  {
    Pow2Values();
    SetBitBound(x, k, 8);
  }

  /** The byte of bit n is the last one, and a new one if n is a multiple of 8. */
  lemma BytePlace(n: nat)
    ensures (n + 8) / 8 == n / 8 + 1
    ensures (n + 7) / 8 == if n % 8 == 0 then n / 8 else n / 8 + 1
  {
  }

  /** A byte is appended for every eighth value, then BIT_MAP_SET. */
  function AppendBit(data: Bytes, n: nat, b: bool): (r: Bytes)
    requires |data| == (n + 7) / 8
    ensures |r| == (n + 8) / 8
  {
    BytePlace(n);
    var d := if n % 8 == 0 then data + [0] else data;
    BitInByte(d[n / 8], 7 - n % 8);
    if b then d[n / 8 := SetBit(d[n / 8], 7 - n % 8)] else d
  }

  /** Bits from position n on are still clear in the last byte. */
  predicate ClearFrom(data: Bytes, n: nat) {
    forall i {:trigger BitmapHas(data, i)} :: n <= i < 8 * |data| ==> !BitmapHas(data, i)
  }

  lemma AppendBitReads(data: Bytes, n: nat, b: bool)
    requires |data| == (n + 7) / 8 && ClearFrom(data, n)
    ensures var r := AppendBit(data, n, b);
            ClearFrom(r, n + 1) && forall i :: 0 <= i <= n ==> BitmapHas(r, i) == if i == n then b else BitmapHas(data, i)
  {
    var d := if n % 8 == 0 then data + [0] else data;
    var r := AppendBit(data, n, b);
    forall i: nat | i < 8 * |r|
      ensures BitmapHas(r, i) == if i < n then BitmapHas(data, i) else i == n && b
    {
      SetBitIs(d[n / 8], 7 - n % 8, 7 - i % 8);
      ZeroHasNoBits(7 - i % 8);
      if i / 8 == n / 8 && n % 8 != 0 && i >= n { assert !BitmapHas(data, i); }
    }
  }

  // ---------------------------------------------------------------- one column

  /** The bytes one value of a non-bool column appends. */
  function Token(t: FieldType, prev: seq<DBVal>, v: DBVal): Bytes {
    match t
    case TFloat => XorToken(FloatBits, XorWithPrevious(FloatBits, prev, v))
    case TDouble => XorToken(DoubleBits, XorWithPrevious(DoubleBits, prev, v))
    case TString => if v.String? then Varint(|v.bytes|) + v.bytes else []
    case TBlob => if v.Blob? then Varint(|v.bytes|) + v.bytes else []
    case _ => Varint(ZigzagEncode64(IntToken(prev, IntOf(v))))
  }

  function AppendValue(t: FieldType, data: Bytes, prev: seq<DBVal>, v: DBVal): (r: Bytes)
    requires t.TBool? ==> |data| == (|prev| + 7) / 8
  {
    if t.TBool? then AppendBit(data, |prev|, v.Bool? && v.b) else data + Token(t, prev, v)
  }

  /** The data of a block's column: what the builder holds after these values. */
  function EncodeColumn(t: FieldType, vals: seq<DBVal>): (r: Bytes)
    ensures t.TBool? ==> |r| == (|vals| + 7) / 8
  {
    if vals == [] then []
    else
      var prev := vals[..|vals| - 1];
      AppendValue(t, EncodeColumn(t, prev), prev, vals[|vals| - 1])
  }

  /** Columns, byte for byte: the first of a byte's bits for the first boolean; a value, a delta and
      a delta of deltas; the pattern 25 * 64 of a float or double as three pairs of zeros, the low
      bits of 25, and a varint of its high bits. */
  lemma KnownColumns()
    ensures EncodeColumn(TBool, [Bool(true), Bool(false), Bool(true)]) == [0xA0]
    ensures EncodeColumn(TInt64, [Int64(1000), Int64(1003), Int64(1001)]) == [0xD0, 0x0F, 6, 9]
    ensures EncodeColumn(TFloat, [Float(1600)]) == [57, 3] && EncodeColumn(TDouble, [Double(1600)]) == [29, 6]
    ensures EncodeColumn(TString, [String([65, 66]), String([])]) == [2, 65, 66, 0]
  {
    KnownBools();
    KnownIntegers();
    KnownFloats();
    KnownStrings();
  }

  lemma OneValue(t: FieldType, v: DBVal)
    ensures EncodeColumn(t, [v]) == AppendValue(t, [], [], v)
  {
    assert [v][..0] == [];
  }

  lemma KnownBools()
    ensures EncodeColumn(TBool, [Bool(true), Bool(false), Bool(true)]) == [0xA0]
  {
    hide EncodeColumn, AppendBit;
    OneValue(TBool, Bool(true));
    EncodeColumnStep(TBool, [Bool(true)], Bool(false));
    EncodeColumnStep(TBool, [Bool(true), Bool(false)], Bool(true));
    assert [Bool(true)] + [Bool(false)] == [Bool(true), Bool(false)];
    assert [Bool(true), Bool(false)] + [Bool(true)] == [Bool(true), Bool(false), Bool(true)];
    KnownBits();
  }

  lemma KnownBits()
    ensures AppendBit([], 0, true) == [0x80] && AppendBit([0x80], 1, false) == [0x80] && AppendBit([0x80], 2, true) == [0xA0]
  {
    assert SetBit(0, 7) == 0x80;
    assert SetBit(0x80, 5) == 0xA0;
  }

  lemma KnownIntegers()
    ensures EncodeColumn(TInt64, [Int64(1000), Int64(1003), Int64(1001)]) == [0xD0, 0x0F, 6, 9]
  {
    hide EncodeColumn, ZigzagEncode64;
    var a, b, c := Int64(1000), Int64(1003), Int64(1001);
    OneValue(TInt64, a);
    EncodeColumnStep(TInt64, [a], b);
    EncodeColumnStep(TInt64, [a, b], c);
    assert [a] + [b] == [a, b] && [a, b] + [c] == [a, b, c];
    ZigzagPositive(1000);
    ZigzagPositive(3);
    ZigzagNegative(-5);
    WrapIs(3);
    WrapIs(-2);
    WrapIs(-5);
    assert IntToken([a], 1003) == 3;
    assert IntToken([a, b], 1001) == -5;
    assert Varint(2000) == [0xD0, 0x0F];
  }

  lemma KnownFloats()
    ensures EncodeColumn(TFloat, [Float(1600)]) == [57, 3] && EncodeColumn(TDouble, [Double(1600)]) == [29, 6]
  {
    hide EncodeColumn, Xor, XorToken;
    OneValue(TFloat, Float(1600));
    OneValue(TDouble, Double(1600));
    XorZero(1600);
    KnownPattern();
  }

  lemma KnownPattern()
    ensures XorToken(FloatBits, 1600) == [57, 3] && XorToken(DoubleBits, 1600) == [29, 6]
  {
    assert StripZeroPairs(25) == (0, 25);
    assert StripZeroPairs(100) == (1, 25);
    assert StripZeroPairs(400) == (2, 25);
    assert StripZeroPairs(1600) == (3, 25);
    assert Varint(3) == [3] && Varint(6) == [6];
  }

  lemma {:induction false} XorZero(a: nat)
    ensures Xor(a, 0) == a
  {
    if a > 0 { XorZero(a / 2); }
  }

  lemma KnownStrings()
    ensures EncodeColumn(TString, [String([65, 66]), String([])]) == [2, 65, 66, 0]
  {
    hide EncodeColumn;
    var a, b := String([65, 66]), String([]);
    OneValue(TString, a);
    EncodeColumnStep(TString, [a], b);
    assert [a] + [b] == [a, b];
  }

  /** A value that continues a steady series takes one byte, and so does a float or double that
      repeats the one before. */
  lemma SteadySeries(t: FieldType, prev: seq<DBVal>, v: DBVal)
    ensures IsIntType(t) && |prev| >= 2 && IntOf(v) - IntOf(prev[|prev| - 1]) == IntOf(prev[|prev| - 1]) - IntOf(prev[|prev| - 2])
            ==> Token(t, prev, v) == [0]
    ensures (t.TFloat? || t.TDouble?) && HasType(v, t) && prev != [] && prev[|prev| - 1] == v ==> Token(t, prev, v) == [0]
  {
    XorSame(BitsOf(if t.TFloat? then FloatBits else DoubleBits, v));
    WrapIs(0);
  }

  lemma {:induction false} XorSame(a: nat)
    ensures Xor(a, a) == 0
  {
    if a > 0 { XorSame(a / 2); }
  }

  /** Decoders carry integers of every width at 64 bits (preVal, preDelta) and cast only the
      value they store. */
  function Widened(t: FieldType, vals: seq<DBVal>): (r: seq<DBVal>)
    ensures |r| == |vals|
  {
    if IsIntType(t) then seq(|vals|, i requires 0 <= i < |vals| => Int64(IntOf(vals[i]))) else vals
  }

  function Cast(t: FieldType, v: DBVal): DBVal {
    if IsIntType(t) then MakeInt(t, IntOf(v)) else v
  }

  /** One step of the matching Decode*Vals loop: the next value and the next position.
      A bool is addressed by its index and moves no position. */
  function DecodeValue(t: FieldType, prev: seq<DBVal>, s: Bytes, p: nat): (r: Option<(DBVal, nat)>)
    requires p <= |s|
    ensures r.Some? ==> r.value.1 <= |s|
  {
    match t
    case TBool =>
      if |prev| / 8 < |s| then Some((Bool(BitmapHas(s, |prev|)), p)) else None
    case TFloat =>
      (match DecodeXor(FloatBits, s, p)
       case None => None
       case Some((x, q)) => XorBound(PreBits(FloatBits, prev), x, 32);
                            Some((Float(Xor(PreBits(FloatBits, prev), x)), q)))
    case TDouble =>
      (match DecodeXor(DoubleBits, s, p)
       case None => None
       case Some((x, q)) => XorBound(PreBits(DoubleBits, prev), x, 64);
                            Some((Double(Xor(PreBits(DoubleBits, prev), x)), q)))
    case TString =>
      (match DecodeVarint32(s, p)
       case None => None
       case Some((n, q)) => if q + n <= |s| then Some((String(s[q..q + n]), q + n)) else None)
    case TBlob =>
      (match DecodeVarint32(s, p)
       case None => None
       case Some((n, q)) => if q + n <= |s| then Some((Blob(s[q..q + n]), q + n)) else None)
    case _ =>
      (match DecodeVarint64(s, p)
       case None => None
       case Some((u, q)) => Some((Int64(IntFromToken(prev, ZigzagDecode64(u))), q)))
  }

  function DecodeNext(t: FieldType, s: Bytes, done: Option<(seq<DBVal>, nat)>): (r: Option<(seq<DBVal>, nat)>)
    requires done.Some? ==> done.value.1 <= |s|
    ensures r.Some? ==> r.value.1 <= |s|
  {
    match done
    case None => None
    case Some((prev, p)) =>
      match DecodeValue(t, prev, s, p)
      case None => None
      case Some((v, q)) => Some((prev + [v], q))
  }

  /** The first n values of a column block and the position behind them. */
  function DecodeColumn(t: FieldType, s: Bytes, n: nat): (r: Option<(seq<DBVal>, nat)>)
    ensures r.Some? ==> |r.value.0| == n && r.value.1 <= |s|
  {
    if n == 0 then Some(([], 0)) else DecodeNext(t, s, DecodeColumn(t, s, n - 1))
  }

  /** Decoding the token of v, whatever stands around it, gives v and stops behind the token. */
  ghost predicate TokenDecodes(t: FieldType, prev: seq<DBVal>, v: DBVal, pre: Bytes, post: Bytes) {
    DecodeValue(t, Widened(t, prev), pre + Token(t, prev, v) + post, |pre|)
    == Some((Widened(t, [v])[0], |pre| + |Token(t, prev, v)|))
  }

  lemma TokenRoundTrip(t: FieldType, prev: seq<DBVal>, v: DBVal, pre: Bytes, post: Bytes)
    requires !t.TBool? && Storable(v, t)
    ensures TokenDecodes(t, prev, v, pre, post)
  {
    hide DecodeValue, Token;
    if IsIntType(t) {
      IntTokenDecodes(t, prev, v, pre, post);
    } else if t.TFloat? {
      FloatTokenDecodes(prev, v, pre, post);
    } else if t.TDouble? {
      DoubleTokenDecodes(prev, v, pre, post);
    } else if t.TString? {
      StringTokenDecodes(prev, v, pre, post);
    } else {
      BlobTokenDecodes(prev, v, pre, post);
    }
  }

  lemma IntTokenDecodes(t: FieldType, prev: seq<DBVal>, v: DBVal, pre: Bytes, post: Bytes)
    requires IsIntType(t) && HasType(v, t)
    ensures TokenDecodes(t, prev, v, pre, post)
  {
    hide Varint, DecodeVarint, ZigzagEncode64, ZigzagDecode64, Wrap64, PreVal, PreDelta;
    var n := IntToken(prev, IntOf(v));
    Varint64RoundTrip(ZigzagEncode64(n), pre, post);
    ZigzagRoundTrip(n);
    IntTokenRoundTrip(prev, IntOf(v));
    WidenedPrevious(t, prev);
  }

  lemma WidenedPrevious(t: FieldType, prev: seq<DBVal>)
    requires IsIntType(t)
    ensures PreVal(Widened(t, prev)) == PreVal(prev) && PreDelta(Widened(t, prev)) == PreDelta(prev)
  {
    hide Wrap64;
  }

  lemma FloatTokenDecodes(prev: seq<DBVal>, v: DBVal, pre: Bytes, post: Bytes)
    requires v.Float?
    ensures TokenDecodes(TFloat, prev, v, pre, post)
  {
    XorTokenRoundTrip(FloatBits, XorWithPrevious(FloatBits, prev, v), pre, post);
    XorUndo(v.f32, PreBits(FloatBits, prev));
  }

  lemma DoubleTokenDecodes(prev: seq<DBVal>, v: DBVal, pre: Bytes, post: Bytes)
    requires v.Double?
    ensures TokenDecodes(TDouble, prev, v, pre, post)
  {
    XorTokenRoundTrip(DoubleBits, XorWithPrevious(DoubleBits, prev, v), pre, post);
    XorUndo(v.f64, PreBits(DoubleBits, prev));
  }

  lemma StringTokenDecodes(prev: seq<DBVal>, v: DBVal, pre: Bytes, post: Bytes)
    requires v.String? && Storable(v, TString)
    ensures TokenDecodes(TString, prev, v, pre, post)
  {
    BytesRoundTrip(v.bytes, pre, post);
  }

  lemma BlobTokenDecodes(prev: seq<DBVal>, v: DBVal, pre: Bytes, post: Bytes)
    requires v.Blob? && Storable(v, TBlob)
    ensures TokenDecodes(TBlob, prev, v, pre, post)
  {
    BytesRoundTrip(v.bytes, pre, post);
  }

  lemma BytesRoundTrip(bytes: Bytes, pre: Bytes, post: Bytes)
    requires |bytes| < P32
    ensures var s := pre + (Varint(|bytes|) + bytes) + post; var q := |pre| + |Varint(|bytes|)|;
            DecodeVarint32(s, |pre|) == Some((|bytes|, q)) && q + |bytes| <= |s| && s[q..q + |bytes|] == bytes
  {
    Varint32RoundTrip(|bytes|, pre, bytes + post);
    assert pre + (Varint(|bytes|) + bytes) + post == pre + Varint(|bytes|) + (bytes + post);
  }

  /** How much one value can add to its column. */
  lemma TokenSize(t: FieldType, prev: seq<DBVal>, v: DBVal)
    requires !t.TBool? && Storable(v, t)
    ensures |Token(t, prev, v)| <= if v.String? || v.Blob? then |v.bytes| + 5 else 10
  {
    match t
    case TBool =>
    case TFloat => XorTokenRoundTrip(FloatBits, XorWithPrevious(FloatBits, prev, v), [], []);
    case TDouble => XorTokenRoundTrip(DoubleBits, XorWithPrevious(DoubleBits, prev, v), [], []);
    case TString => Varint32RoundTrip(|v.bytes|, [], []);
    case TBlob => Varint32RoundTrip(|v.bytes|, [], []);
    case _ => Varint64RoundTrip(ZigzagEncode64(IntToken(prev, IntOf(v))), [], []);
  }

  ghost predicate AllStorable(vals: seq<DBVal>, t: FieldType) {
    forall i :: 0 <= i < |vals| ==> Storable(vals[i], t)
  }

  /** The column a block decoder delivers. */
  function DecodeBlock(t: FieldType, s: Bytes, n: nat): (r: Option<seq<DBVal>>)
    ensures r.Some? ==> |r.value| == n
  {
    match DecodeColumn(t, s, n)
    case None => None
    case Some((vals, _)) => Some(seq(n, i requires 0 <= i < n => Cast(t, vals[i])))
  }

  /** A whole column: decoding returns the encoded values and consumes exactly their bytes. */
  ghost predicate ColumnDecodes(t: FieldType, vals: seq<DBVal>, post: Bytes) {
    DecodeColumn(t, EncodeColumn(t, vals) + post, |vals|)
    == Some((Widened(t, vals), if t.TBool? then 0 else |EncodeColumn(t, vals)|))
  }

  lemma ColumnRoundTrip(t: FieldType, vals: seq<DBVal>, post: Bytes)
    requires AllStorable(vals, t)
    ensures ColumnDecodes(t, vals, post)
    ensures DecodeBlock(t, EncodeColumn(t, vals) + post, |vals|) == Some(vals)
  {
    hide DecodeColumn, EncodeColumn;
    if t.TBool? {
      BoolColumnRoundTrip(vals, post);
    } else {
      TokenColumnRoundTrip(t, vals, post);
    }
    forall i | 0 <= i < |vals| ensures Cast(t, Widened(t, vals)[i]) == vals[i] {
      assert Storable(vals[i], t);
      if IsIntType(t) { MakeIntOf(t, vals[i]); }
    }
    assert DecodeBlock(t, EncodeColumn(t, vals) + post, |vals|).value == vals;
  }

  lemma {:induction false} TokenColumnRoundTrip(t: FieldType, vals: seq<DBVal>, post: Bytes)
    requires !t.TBool? && AllStorable(vals, t)
    ensures ColumnDecodes(t, vals, post)
  {
    hide ColumnDecodes, TokenDecodes, Token, EncodeColumn, Widened;
    if vals == [] {
      NothingDecodes(t, vals, post);
    } else {
      var prev, v := vals[..|vals| - 1], vals[|vals| - 1];
      TokenColumnRoundTrip(t, prev, Token(t, prev, v) + post);
      TokenRoundTrip(t, prev, v, EncodeColumn(t, prev), post);
      ColumnStep(t, prev, v, post);
      assert vals == prev + [v];
    }
  }

  lemma NothingDecodes(t: FieldType, vals: seq<DBVal>, post: Bytes)
    requires vals == []
    ensures ColumnDecodes(t, vals, post)
  {
  }

  lemma ColumnStep(t: FieldType, prev: seq<DBVal>, v: DBVal, post: Bytes)
    requires !t.TBool? && ColumnDecodes(t, prev, Token(t, prev, v) + post)
    requires TokenDecodes(t, prev, v, EncodeColumn(t, prev), post)
    ensures ColumnDecodes(t, prev + [v], post)
  {
    hide DecodeValue, Token, AppendBit, EncodeColumn, Widened;
    var data, token := EncodeColumn(t, prev), Token(t, prev, v);
    EncodeColumnStep(t, prev, v);
    WidenedStep(t, prev, v);
    assert data + (token + post) == data + token + post;
  }

  lemma WidenedStep(t: FieldType, prev: seq<DBVal>, v: DBVal)
    ensures Widened(t, prev + [v]) == Widened(t, prev) + [Widened(t, [v])[0]]
  {
  }

  lemma EncodeColumnStep(t: FieldType, prev: seq<DBVal>, v: DBVal)
    ensures EncodeColumn(t, prev + [v]) == AppendValue(t, EncodeColumn(t, prev), prev, v)
  {
    assert (prev + [v])[..|prev|] == prev;
  }

  /** What the fields preVal_ and preDelta_ become when v is appended. */
  lemma PreviousStep(prev: seq<DBVal>, v: DBVal)
    ensures PreVal(prev + [v]) == IntOf(v)
    ensures PreDelta(prev + [v]) == if prev == [] then 0 else Wrap64(IntOf(v) - PreVal(prev))
    ensures forall f :: PreBits(f, prev + [v]) == BitsOf(f, v)
  {
    var all := prev + [v];
    assert all[|all| - 1] == v && (prev != [] ==> all[|all| - 2] == prev[|prev| - 1]);
  }

  lemma BoolColumnRoundTrip(vals: seq<DBVal>, post: Bytes)
    requires AllStorable(vals, TBool)
    ensures ColumnDecodes(TBool, vals, post)
  {
    BitmapReads(vals);
    var data := EncodeColumn(TBool, vals);
    assert forall i {:trigger BitmapHas(data + post, i)} :: 0 <= i < |vals| ==> BitmapHas(data + post, i) == BitmapHas(data, i);
    BitmapRoundTrip(vals, data + post, |vals|);
    assert vals[..|vals|] == vals;
  }

  lemma {:induction false} BitmapReads(vals: seq<DBVal>)
    requires AllStorable(vals, TBool)
    ensures var data := EncodeColumn(TBool, vals);
            ClearFrom(data, |vals|) && forall i :: 0 <= i < |vals| ==> BitmapHas(data, i) == vals[i].b
  {
    if vals != [] {
      var prev := vals[..|vals| - 1];
      BitmapReads(prev);
      AppendBitReads(EncodeColumn(TBool, prev), |prev|, vals[|vals| - 1].b);
    }
  }

  lemma {:induction false} BitmapRoundTrip(vals: seq<DBVal>, data: Bytes, k: nat)
    requires k <= |vals| <= 8 * |data| && AllStorable(vals, TBool)
    requires forall i :: 0 <= i < |vals| ==> BitmapHas(data, i) == vals[i].b
    ensures DecodeColumn(TBool, data, k) == Some((vals[..k], 0))
  {
    if k > 0 {
      BitmapRoundTrip(vals, data, k - 1);
      assert BitmapHas(data, k - 1) == vals[k - 1].b && Storable(vals[k - 1], TBool);
      assert vals[..k] == vals[..k - 1] + [vals[k - 1]];
    }
  }
}
