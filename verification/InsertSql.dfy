/** Records of an INSERT (expr/insert_sql.cpp): values taken from a flat list, converted to the
    column types and stored in a binary record of fixed slots followed by strings. */
module InsertSqls {
  import opened Coding
  import opened DbValue
  import opened CompFormat

  const MAX_REC_LEN := 8192

  // ---------------------------------------------------------------- record layout

  /** Bytes of a slot (TableInfo::AddField); strings and blobs have a 16-bit offset there. */
  function Width(t: FieldType): nat {
    match t
    case TBool => 1 case TInt8 => 1 case TInt16 => 2 case TInt32 => 4 case TInt64 => 8
    case TDateTime => 8 case TFloat => 4 case TDouble => 8 case TString => 2 case TBlob => 2
  }

  ghost predicate TableOK(types: seq<FieldType>) {
    |types| > TSTAMP_INDEX && types[DEVID_INDEX] == TInt64 && types[TSTAMP_INDEX] == TDateTime
  }

  /** The slot of column i. The first two bytes are the record length; the device id has no
      slot. With i == |types| this is the size of the fixed part. */
  function StorePos(types: seq<FieldType>, i: nat): nat
    requires i <= |types|
  {
    if i == DEVID_INDEX then 0
    else if i == TSTAMP_INDEX then 2
    else StorePos(types, i - 1) + Width(types[i - 1])
  }

  lemma {:induction false} SlotsApart(types: seq<FieldType>, i: nat, j: nat)
    requires TableOK(types) && TSTAMP_INDEX <= i < j <= |types|
    ensures 2 <= StorePos(types, i) && StorePos(types, i) + Width(types[i]) <= StorePos(types, j)
  {
    if i < j - 1 { SlotsApart(types, i, j - 1); }
    if i > TSTAMP_INDEX { SlotsApart(types, TSTAMP_INDEX, i); }
  }

  /** The layout of a table with a column of every type. */
  lemma KnownLayout()
    ensures var types := [TInt64, TDateTime, TBool, TInt8, TInt16, TInt32, TInt64, TFloat, TDouble, TString, TBlob];
            && StorePos(types, 1) == 2 && StorePos(types, 2) == 10 && StorePos(types, 3) == 11 && StorePos(types, 4) == 12
            && StorePos(types, 5) == 14 && StorePos(types, 6) == 18 && StorePos(types, 7) == 26 && StorePos(types, 8) == 30
            && StorePos(types, 9) == 38 && StorePos(types, 10) == 40 && StorePos(types, 11) == 42
  {
  }

  // ---------------------------------------------------------------- conversion

  /** Conversions whose arithmetic is not modelled: date parsing and floating point. */
  datatype Convert = Convert(parse: Bytes -> Option<Int64>, intToFloat: Int64 -> UInt32, doubleToFloat: UInt64 -> UInt32,
                             intToDouble: Int64 -> UInt64)

  function ConvertDBVal(conv: Convert, v: DBVal, t: FieldType): (r: Option<DBVal>)
    ensures r.Some? ==> HasType(r.value, t)
  {
    match t
    case TInt8 => if v.Int64? && -0x80 <= v.i64 <= 0x7F then Some(Int8(v.i64)) else None
    case TInt16 => if v.Int64? && -0x8000 <= v.i64 <= 0x7FFF then Some(Int16(v.i64)) else None
    case TInt32 => if v.Int64? && -0x8000_0000 <= v.i64 <= 0x7FFF_FFFF then Some(Int32(v.i64)) else None
    case TDateTime =>
      if v.String? then (match conv.parse(v.bytes) case None => None case Some(ts) => Some(DateTime(ts)))
      else if v.Int64? && MIN_MICROSECOND <= v.i64 <= MAX_MICROSECOND then Some(DateTime(v.i64)) else None
    case TFloat =>
      if v.Int64? then Some(Float(conv.intToFloat(v.i64)))
      else if v.Double? then Some(Float(conv.doubleToFloat(v.f64))) else None
    case TDouble => if v.Int64? then Some(Double(conv.intToDouble(v.i64))) else None
    case _ => None
  }

  /** The value as it is stored: unchanged when it has the column's type already. */
  function Stored(conv: Convert, v: DBVal, t: FieldType): (r: Option<DBVal>)
    ensures r.Some? ==> HasType(r.value, t)
  {
    if HasType(v, t) then Some(v) else ConvertDBVal(conv, v, t)
  }

  /** Conversion of an integer literal keeps its value, and fails exactly outside the range of
      the type; for a time that range ends with 30 December 2999. */
  lemma IntegerKept(conv: Convert, x: Int64, t: FieldType)
    requires IsIntType(t)
    ensures Stored(conv, Int64(x), t).Some?
       <==> IntOf(MakeInt(t, x)) == x && (t.TDateTime? ==> 0 <= x <= 32_503_593_599_999_999)
    ensures Stored(conv, Int64(x), t).Some? ==> IntOf(Stored(conv, Int64(x), t).value) == x
  {
  }

  /** The literals that a column takes: those of its own type; integers inside the range of an
      integer column, and every integer for FLOAT and DOUBLE; doubles for FLOAT; strings that
      can be read as a time for DATETIME; and nothing else. */
  lemma LiteralsTaken(conv: Convert, v: DBVal, t: FieldType)
    ensures Stored(conv, v, t).Some?
       <==> || HasType(v, t)
            || (v.Int64? && IsIntType(t) && IntOf(MakeInt(t, v.i64)) == v.i64 && (t.TDateTime? ==> 0 <= v.i64 <= 32_503_593_599_999_999))
            || (v.Int64? && (t.TFloat? || t.TDouble?))
            || (v.Double? && t.TFloat?)
            || (v.String? && t.TDateTime? && conv.parse(v.bytes).Some?)
  {
  }

  /** What they become: a value of the column's type stays as it is, a string is the time it is
      read as, and a number for FLOAT or DOUBLE is converted by the matching conversion. */
  lemma LiteralsStored(conv: Convert, v: DBVal, t: FieldType)
    requires Stored(conv, v, t).Some?
    ensures var x := Stored(conv, v, t).value;
            && HasType(x, t)
            && (HasType(v, t) ==> x == v)
            && (v.Int64? && IsIntType(t) ==> IntOf(x) == v.i64)
            && (v.String? && t.TDateTime? ==> Some(x.ts) == conv.parse(v.bytes))
            && (v.Int64? && t.TFloat? ==> x.f32 == conv.intToFloat(v.i64))
            && (v.Double? && t.TFloat? ==> x.f32 == conv.doubleToFloat(v.f64))
            && (v.Int64? && t.TDouble? ==> x.f64 == conv.intToDouble(v.i64))
  {
  }

  // ---------------------------------------------------------------- reading a record

  /** Column of type t in a record: its slot, or the string its slot points to. */
  function FieldAt(rec: Bytes, pos: nat, t: FieldType): Option<DBVal>
    requires pos + Width(t) <= |rec|
  {
    var n := UIntAt(rec, pos, Width(t));
    match t
    case TBool => Some(Bool(n != 0))
    case TInt8 => Some(Int8(Signed(n, 0x100)))
    case TInt16 => Some(Int16(Signed(n, 0x1_0000)))
    case TInt32 => Some(Int32(Signed(n, P32)))
    case TInt64 => Some(Int64(Wrap64(n)))
    case TDateTime => Some(DateTime(Wrap64(n)))
    case TFloat => Some(Float(n % P32))
    case TDouble => Some(Double(n % P64))
    case TString => BytesAt(rec, n, t)
    case TBlob => BytesAt(rec, n, t)
  }

  /** Offset 0 stands for the empty string. */
  function BytesAt(rec: Bytes, off: nat, t: FieldType): Option<DBVal> {
    if off == 0 then Some(OfBytes(t, []))
    else if off > |rec| then None
    else match DecodeVarint64(rec, off)
      case None => None
      case Some((len, q)) => if q + len <= |rec| then Some(OfBytes(t, rec[q..q + len])) else None
  }

  function OfBytes(t: FieldType, s: Bytes): DBVal {
    if t.TString? then String(s) else Blob(s)
  }

  /** The bits in the slot of a scalar. */
  function SlotBits(v: DBVal): nat {
    match v
    case Bool(b) => if b then 1 else 0
    case Int8(i) => i % 0x100
    case Int16(i) => i % 0x1_0000
    case Int32(i) => i % P32
    case Int64(i) => i % P64
    case DateTime(i) => i % P64
    case Float(x) => x
    case Double(x) => x
    case _ => 0
  }

  /** How a stored value stands in a record with a fixed part of the given size. */
  ghost predicate Holds(rec: Bytes, fixed: nat, pos: nat, v: DBVal, t: FieldType) {
    && HasType(v, t) && pos + Width(t) <= fixed <= |rec|
    && if (v.String? || v.Blob?) && v.bytes != [] then
         exists off: nat :: fixed <= off < MAX_REC_LEN && HoldsBytes(rec, pos, v, off)
       else At(rec, pos, Fixed(SlotBits(v), Width(t)))
  }

  ghost predicate HoldsBytes(rec: Bytes, pos: nat, v: DBVal, off: nat)
    requires v.String? || v.Blob?
  {
    At(rec, pos, Fixed(off, 2)) && |v.bytes| < MAX_REC_LEN && At(rec, off, Varint(|v.bytes|) + v.bytes)
  }

  lemma HoldsReads(rec: Bytes, fixed: nat, pos: nat, v: DBVal, t: FieldType)
    requires Holds(rec, fixed, pos, v, t)
    ensures FieldAt(rec, pos, t) == Some(v)
  {
    hide Fixed, Varint, DecodeVarint, At, UIntAt, Pow2;
    Pow2Values();
    if (v.String? || v.Blob?) && v.bytes != [] {
      var off: nat :| fixed <= off < MAX_REC_LEN && HoldsBytes(rec, pos, v, off);
      SlotReads(rec, pos, off, 2);
      BytesBack(rec, off, v.bytes, t);
    } else {
      ScalarReads(rec, pos, v, t);
    }
  }

  lemma SlotReads(rec: Bytes, pos: nat, n: nat, k: nat)
    requires At(rec, pos, Fixed(n, k)) && n < Pow2(8 * k)
    ensures pos + k <= |rec| && UIntAt(rec, pos, k) == n
  {
    hide Fixed, FixedDecode;
    FixedRoundTrip(n, k);
  }

  lemma BytesBackIn(pre: Bytes, s: Bytes, post: Bytes, t: FieldType)
    requires pre != [] && |s| < MAX_REC_LEN
    ensures BytesAt(pre + Varint(|s|) + (s + post), |pre|, t) == Some(OfBytes(t, s))
  {
    hide Varint, DecodeVarint64, BytesAt;
    LengthAt(pre, s, post);
    TailAt(pre, Varint(|s|), s, post);
    BytesFound(pre + Varint(|s|) + (s + post), |pre|, |s|, |pre| + |Varint(|s|)|, s, t);
  }

  lemma BytesFound(rec: Bytes, off: nat, len: nat, q: nat, s: Bytes, t: FieldType)
    requires 0 < off <= |rec| && DecodeVarint64(rec, off) == Some((len, q))
    requires q + len <= |rec| && rec[q..q + len] == s
    ensures BytesAt(rec, off, t) == Some(OfBytes(t, s))
  {
    hide DecodeVarint64;
  }

  lemma LengthAt(pre: Bytes, s: Bytes, post: Bytes)
    requires |s| < MAX_REC_LEN
    ensures DecodeVarint64(pre + Varint(|s|) + (s + post), |pre|) == Some((|s|, |pre| + |Varint(|s|)|))
  {
    hide Varint, DecodeVarint;
    Varint64RoundTrip(|s|, pre, s + post);
  }

  lemma TailAt(pre: Bytes, code: Bytes, s: Bytes, post: Bytes)
    ensures var rec, q := pre + code + (s + post), |pre| + |code|;
            |pre| <= |rec| && q + |s| <= |rec| && rec[q..q + |s|] == s
  {
  }

  lemma BytesBack(rec: Bytes, off: nat, s: Bytes, t: FieldType)
    requires off > 0 && |s| < MAX_REC_LEN && At(rec, off, Varint(|s|) + s)
    ensures BytesAt(rec, off, t) == Some(OfBytes(t, s))
  {
    hide Varint, BytesAt;
    AtSplit(rec, off, Varint(|s|), s);
    BytesBackIn(rec[..off], s, rec[off + |Varint(|s|) + s|..], t);
  }

  lemma AtSplit(rec: Bytes, off: nat, a: Bytes, b: Bytes)
    requires At(rec, off, a + b)
    ensures rec == rec[..off] + a + (b + rec[off + |a + b|..])
  {
    assert rec == rec[..off] + (a + b) + rec[off + |a + b|..];
  }

  lemma ScalarReads(rec: Bytes, pos: nat, v: DBVal, t: FieldType)
    requires HasType(v, t) && pos + Width(t) <= |rec| && At(rec, pos, Fixed(SlotBits(v), Width(t)))
    requires v.String? || v.Blob? ==> v.bytes == []
    ensures FieldAt(rec, pos, t) == Some(v)
  {
    hide Fixed, At, UIntAt, Pow2;
    Pow2Values();
    BitsFit(v, t);
    SlotReads(rec, pos, SlotBits(v), Width(t));
    SignedBits(v, t);
  }

  lemma BitsFit(v: DBVal, t: FieldType)
    requires HasType(v, t)
    ensures SlotBits(v) < Pow2(8 * Width(t))
  {
    hide Pow2;
    Pow2Values();
  }

  /** Slots byte for byte. */
  lemma KnownSlots()
    ensures Fixed(SlotBits(Bool(true)), Width(TBool)) == [1] && Fixed(SlotBits(Int8(-2)), Width(TInt8)) == [0xFE]
    ensures Fixed(SlotBits(Int16(-2)), Width(TInt16)) == [0xFE, 0xFF]
  {
  }

  lemma KnownWideSlots()
    ensures Fixed(SlotBits(Float(0x3F80_0001)), Width(TFloat)) == Fixed(SlotBits(Int32(0x3F80_0001)), Width(TInt32)) == [1, 0, 0x80, 0x3F]
    ensures Fixed(SlotBits(Double(0x3FF0_0000_0000_0001)), Width(TDouble)) == Fixed(SlotBits(Int64(0x3FF0_0000_0000_0001)), Width(TInt64))
         == Fixed(SlotBits(DateTime(0x3FF0_0000_0000_0001)), Width(TDateTime)) == [1, 0, 0, 0, 0, 0, 0xF0, 0x3F]
  {
    hide Fixed;
    KnownFixed();
  }

  lemma SignedBits(v: DBVal, t: FieldType)
    requires HasType(v, t)
    ensures v.Int8? ==> Signed(SlotBits(v), 0x100) == v.i8
    ensures v.Int16? ==> Signed(SlotBits(v), 0x1_0000) == v.i16
    ensures v.Int32? ==> Signed(SlotBits(v), P32) == v.i32
    ensures v.Int64? ==> Wrap64(SlotBits(v)) == v.i64
    ensures v.DateTime? ==> Wrap64(SlotBits(v)) == v.ts
  {
  }

  // ---------------------------------------------------------------- building a record

  /** A slot nothing was stored in. */
  ghost predicate ZeroSlot(rec: Bytes, fixed: nat, pos: nat, t: FieldType) {
    pos + Width(t) <= fixed <= |rec| && At(rec, pos, Fixed(0, Width(t)))
  }

  /** The slot of a column after its value was processed: NULL leaves it zero. */
  ghost predicate SlotDone(conv: Convert, rec: Bytes, fixed: nat, pos: nat, v: DBVal, t: FieldType) {
    if v.Null? then ZeroSlot(rec, fixed, pos, t)
    else Stored(conv, v, t).Some? && Holds(rec, fixed, pos, Stored(conv, v, t).value, t)
  }

  /** `next` was made from `rec` by writing one slot and appending. */
  ghost predicate OneSlotWritten(rec: Bytes, next: Bytes, fixed: nat, pos: nat, w: nat) {
    && pos + w <= fixed <= |rec| <= |next|
    && forall i :: 0 <= i < |rec| && !(pos <= i < pos + w) ==> next[i] == rec[i]
  }

  lemma AtUntouched(rec: Bytes, next: Bytes, fixed: nat, pos: nat, w: nat, at: nat, bytes: Bytes)
    requires OneSlotWritten(rec, next, fixed, pos, w) && At(rec, at, bytes)
    requires at + |bytes| <= pos || pos + w <= at
    ensures At(next, at, bytes)
  {
    assert next[at..at + |bytes|] == rec[at..at + |bytes|];
  }

  /** Other slots keep what they hold. */
  lemma SlotKept(conv: Convert, rec: Bytes, next: Bytes, fixed: nat, pos: nat, w: nat, at: nat, v: DBVal, t: FieldType)
    requires OneSlotWritten(rec, next, fixed, pos, w) && SlotDone(conv, rec, fixed, at, v, t)
    requires at + Width(t) <= pos || pos + w <= at
    ensures SlotDone(conv, next, fixed, at, v, t)
  {
    hide At, OneSlotWritten, Stored, Fixed, Varint;
    WrittenSizes(rec, next, fixed, pos, w);
    if v.Null? {
      AtUntouched(rec, next, fixed, pos, w, at, Fixed(0, Width(t)));
    } else {
      var x := Stored(conv, v, t).value;
      if (x.String? || x.Blob?) && x.bytes != [] {
        var off: nat :| fixed <= off < MAX_REC_LEN && HoldsBytes(rec, at, x, off);
        AtUntouched(rec, next, fixed, pos, w, at, Fixed(off, 2));
        AtUntouched(rec, next, fixed, pos, w, off, Varint(|x.bytes|) + x.bytes);
        assert HoldsBytes(next, at, x, off);
      } else {
        AtUntouched(rec, next, fixed, pos, w, at, Fixed(SlotBits(x), Width(t)));
      }
    }
  }

  lemma WrittenSizes(rec: Bytes, next: Bytes, fixed: nat, pos: nat, w: nat)
    requires OneSlotWritten(rec, next, fixed, pos, w)
    ensures pos + w <= fixed <= |rec| <= |next|
  {
  }

  /** Bytes a value adds behind the fixed part. */
  function Added(v: DBVal): nat {
    if (v.String? || v.Blob?) && v.bytes != [] then |Varint(|v.bytes|)| + |v.bytes| else 0
  }

  /** The source's test for a value that would make the record too long. */
  predicate TooLong(size: nat, v: DBVal) {
    (v.String? || v.Blob?) && v.bytes != [] && size + |v.bytes| + 2 >= MAX_REC_LEN
  }

  /** Writes k bytes of n at an offset of the buffer (FixedEncode16/32/64). */
  method FixedEncode(buf: array<Byte>, pos: nat, n: nat, k: nat)
    requires pos + k <= buf.Length
    modifies buf
    ensures At(buf[..], pos, Fixed(n, k))
    ensures forall i :: 0 <= i < buf.Length && !(pos <= i < pos + k) ==> buf[i] == old(buf[i])
  {
    var bytes := Fixed(n, k);
    for i := 0 to k
      invariant buf[pos..pos + i] == bytes[..i]
      invariant forall j :: 0 <= j < buf.Length && !(pos <= j < pos + k) ==> buf[j] == old(buf[j])
    {
      buf[pos + i] := bytes[i];
    }
    assert buf[..][pos..pos + k] == bytes;
  }

  method CopyBytes(buf: array<Byte>, pos: nat, bytes: Bytes)
    requires pos + |bytes| <= buf.Length
    modifies buf
    ensures At(buf[..], pos, bytes)
    ensures forall i :: 0 <= i < buf.Length && !(pos <= i < pos + |bytes|) ==> buf[i] == old(buf[i])
  {
    for i := 0 to |bytes|
      invariant buf[pos..pos + i] == bytes[..i]
      invariant forall j :: 0 <= j < buf.Length && !(pos <= j < pos + |bytes|) ==> buf[j] == old(buf[j])
    {
      buf[pos + i] := bytes[i];
    }
    assert buf[..][pos..pos + |bytes|] == bytes;
  }

  lemma AtTaken(all: Bytes, n: nat, pos: nat, bytes: Bytes)
    requires At(all, pos, bytes) && pos + |bytes| <= n <= |all|
    ensures At(all[..n], pos, bytes)
  {
    assert all[..n][pos..pos + |bytes|] == all[pos..pos + |bytes|];
  }

  lemma ShortVarint(n: nat)
    requires n < MAX_REC_LEN
    ensures |Varint(n)| <= 2
  {
    Pow2Add(7, 7);
    assert Pow2(7) == P7;
    VarintLength(n, 2);
  }

  /** Offset into the slot, length and bytes behind the record. */
  lemma BytesStored(start: Bytes, slot: Bytes, next: Bytes, fixed: nat, pos: nat, v: DBVal, t: FieldType)
    requires HasType(v, t) && (v.String? || v.Blob?) && v.bytes != [] && |v.bytes| < MAX_REC_LEN
    requires OneSlotWritten(start, slot, fixed, pos, 2) && |slot| == |start| < MAX_REC_LEN
    requires At(slot, pos, Fixed(|start|, 2))
    requires |next| >= |slot| && (forall i :: 0 <= i < |slot| ==> next[i] == slot[i])
    requires At(next, |start|, Varint(|v.bytes|) + v.bytes)
    ensures OneSlotWritten(start, next, fixed, pos, 2) && Holds(next, fixed, pos, v, t)
  {
    hide At, Fixed, Varint;
    AtUntouched(slot, next, fixed, pos, 0, pos, Fixed(|start|, 2));
    assert HoldsBytes(next, pos, v, |start|);
  }

  method StoreBytes(buf: array<Byte>, size: nat, fixed: nat, pos: nat, v: DBVal, t: FieldType) returns (newSize: nat)
    requires buf.Length == MAX_REC_LEN && HasType(v, t) && pos + Width(t) <= fixed <= size < MAX_REC_LEN
    requires (v.String? || v.Blob?) && v.bytes != [] && !TooLong(size, v)
    modifies buf
    ensures newSize == size + Added(v) < MAX_REC_LEN
    ensures OneSlotWritten(old(buf[..size]), buf[..newSize], fixed, pos, Width(t))
    ensures Holds(buf[..newSize], fixed, pos, v, t)
  {
    hide At, Fixed, Varint, Holds;
    ghost var start := buf[..size];
    var code := Varint(|v.bytes|);
    ShortVarint(|v.bytes|);
    FixedEncode(buf, pos, size, 2);
    AtTaken(buf[..], size, pos, Fixed(size, 2));
    ghost var slot := buf[..size];
    CopyBytes(buf, size, code + v.bytes);
    newSize := size + |code| + |v.bytes|;
    AtTaken(buf[..], newSize, size, code + v.bytes);
    BytesStored(start, slot, buf[..newSize], fixed, pos, v, t);
  }

  method StoreScalar(buf: array<Byte>, size: nat, fixed: nat, pos: nat, v: DBVal, t: FieldType)
    requires buf.Length == MAX_REC_LEN && HasType(v, t) && pos + Width(t) <= fixed <= size < MAX_REC_LEN
    requires v.String? || v.Blob? ==> v.bytes == []
    modifies buf
    ensures OneSlotWritten(old(buf[..size]), buf[..size], fixed, pos, Width(t)) && Holds(buf[..size], fixed, pos, v, t)
  {
    hide At, Fixed;
    FixedEncode(buf, pos, SlotBits(v), Width(t));
    AtTaken(buf[..], size, pos, Fixed(SlotBits(v), Width(t)));
  }

  /** The switch over the type of a converted value. The buffer has its final capacity from the
      beginning: a value is refused before it could make the record outgrow it. */
  method StoreValue(buf: array<Byte>, size: nat, fixed: nat, pos: nat, v: DBVal, t: FieldType) returns (newSize: nat, ok: bool)
    requires buf.Length == MAX_REC_LEN && HasType(v, t) && pos + Width(t) <= fixed <= size < MAX_REC_LEN
    modifies buf
    ensures ok <==> !TooLong(size, v)
    ensures newSize == if ok then size + Added(v) else size
    ensures newSize < MAX_REC_LEN && OneSlotWritten(old(buf[..size]), buf[..newSize], fixed, pos, Width(t))
    ensures ok && At(old(buf[..size]), pos, Fixed(0, Width(t))) ==> Holds(buf[..newSize], fixed, pos, v, t)
    ensures !ok ==> buf[..newSize] == old(buf[..size])
  {
    hide At, Fixed, Varint;
    newSize, ok := size, true;
    if v.String? || v.Blob? {
      if |v.bytes| > 0 {
        if size + |v.bytes| + 2 >= MAX_REC_LEN {
          return size, false;
        }
        newSize := StoreBytes(buf, size, fixed, pos, v, t);
      }
    } else {
      StoreScalar(buf, size, fixed, pos, v, t);
    }
  }

  // ---------------------------------------------------------------- the value cursor

  datatype InsertErr = OK | VALUE_MISMATCH | RECORD_TOO_LONG

  ghost predicate Distinct(cols: seq<nat>) {
    forall i, j :: 0 <= i < j < |cols| ==> cols[i] != cols[j]
  }

  /** Bytes behind the fixed part after the first k values. */
  function AddedBy(conv: Convert, vals: seq<DBVal>, types: seq<FieldType>, k: nat): nat
    requires k <= |vals| == |types|
  {
    if k == 0 then 0
    else AddedBy(conv, vals, types, k - 1)
         + match Stored(conv, vals[k - 1], types[k - 1]) case None => 0 case Some(v) => if vals[k - 1].Null? then 0 else Added(v)
  }

  /** Value k can be stored behind the values before it: it is null, or it can be converted and
      is not a string or blob that, with two bytes for its length, would make the record reach
      8192 bytes. */
  ghost predicate Fits(conv: Convert, vals: seq<DBVal>, types: seq<FieldType>, fixed: nat, k: nat)
    requires k < |vals| == |types|
  {
    vals[k].Null? || match Stored(conv, vals[k], types[k])
                     case None => false
                     case Some(v) => (v.String? || v.Blob?) && v.bytes != [] ==> fixed + AddedBy(conv, vals, types, k) + 2 + |v.bytes| < 8192
  }

  /** The error of the first value that cannot be stored; later values do not change it. */
  function FirstError(conv: Convert, vals: seq<DBVal>, types: seq<FieldType>, fixed: nat, k: nat): InsertErr
    requires k <= |vals| == |types|
  {
    if k == 0 then OK
    else
      var before := FirstError(conv, vals, types, fixed, k - 1);
      if before != OK || vals[k - 1].Null? then before
      else match Stored(conv, vals[k - 1], types[k - 1])
        case None => VALUE_MISMATCH
        case Some(v) => if TooLong(fixed + AddedBy(conv, vals, types, k - 1), v) then RECORD_TOO_LONG else OK
  }

  /** The error is that of the first value that does not fit: a mismatch if it cannot be
      converted, otherwise the record is too long. */
  lemma {:induction false} ErrorMeans(conv: Convert, vals: seq<DBVal>, types: seq<FieldType>, fixed: nat, k: nat)
    requires k <= |vals| == |types|
    ensures FirstError(conv, vals, types, fixed, k) == OK <==> forall j :: 0 <= j < k ==> Fits(conv, vals, types, fixed, j)
    ensures FirstError(conv, vals, types, fixed, k) != OK ==>
              exists j :: 0 <= j < k && FailsFirst(conv, vals, types, fixed, j)
                && FirstError(conv, vals, types, fixed, k)
                   == if Stored(conv, vals[j], types[j]).None? then VALUE_MISMATCH else RECORD_TOO_LONG
  {
    hide Stored, AddedBy;
    if k > 0 {
      ErrorMeans(conv, vals, types, fixed, k - 1);
      var fits := Fits(conv, vals, types, fixed, k - 1);
      if FirstError(conv, vals, types, fixed, k - 1) == OK && !fits {
        assert FailsFirst(conv, vals, types, fixed, k - 1);
      }
    }
  }

  /** Value j does not fit, and all values before it do. */
  ghost predicate FailsFirst(conv: Convert, vals: seq<DBVal>, types: seq<FieldType>, fixed: nat, j: nat)
    requires j < |vals| == |types|
  {
    !Fits(conv, vals, types, fixed, j) && forall i :: 0 <= i < j ==> Fits(conv, vals, types, fixed, i)
  }

  class InsertSql {
    const conv: Convert
    const table: seq<FieldType>
    const fieldCnt: nat
    const recCnt: nat
    const fixedSize: nat
    const fieldVec: seq<nat>
    const storeVec: seq<nat>
    const typeVec: seq<FieldType>
    const valList: seq<DBVal>
    var valIter: nat

    /** What InitTableInfo sets up. */
    ghost predicate Inited() {
      && TableOK(table) && |fieldVec| == |storeVec| == |typeVec| == fieldCnt
      && fixedSize == StorePos(table, |table|) < MAX_REC_LEN
      && (forall k :: 0 <= k < fieldCnt ==>
            fieldVec[k] < |table| && storeVec[k] == StorePos(table, fieldVec[k]) && typeVec[k] == table[fieldVec[k]])
    }

    /** The values of the record the cursor stands at. */
    ghost function Current(): seq<DBVal>
      requires valIter + fieldCnt <= |valList|
      reads this
    {
      valList[valIter..valIter + fieldCnt]
    }

    predicate Valid() { |valList| == fieldCnt * recCnt }

    /** InitTableInfo for columns that were found in the table. */
    constructor (conv: Convert, table: seq<FieldType>, cols: seq<nat>, recCnt: nat, vals: seq<DBVal>)
      requires TableOK(table) && StorePos(table, |table|) < MAX_REC_LEN
      requires forall k :: 0 <= k < |cols| ==> cols[k] < |table|
      ensures Inited() && valIter == 0
      ensures this.conv == conv && this.table == table && fieldVec == cols && this.recCnt == recCnt && valList == vals
    {
      var stores: seq<nat>, types: seq<FieldType> := [], [];
      for k := 0 to |cols|
        invariant |stores| == |types| == k
        invariant forall j :: 0 <= j < k ==> stores[j] == StorePos(table, cols[j]) && types[j] == table[cols[j]]
      {
        stores, types := stores + [StorePos(table, cols[k])], types + [table[cols[k]]];
      }
      this.conv, this.table, fieldCnt, this.recCnt := conv, table, |cols|, recCnt;
      fixedSize, fieldVec, storeVec, typeVec := StorePos(table, |table|), cols, stores, types;
      valList, valIter := vals, 0;
    }

    method IsEnd() returns (b: bool)
      ensures b == (valIter == |valList|)
    {
      return valIter == |valList|;
    }

    /** The slots after k values of a record of distinct columns were stored. */
    ghost predicate SlotsDone(rec: Bytes, vals: seq<DBVal>, k: nat)
      requires Inited() && k <= |vals| == fieldCnt
    {
      forall j :: 0 <= j < fieldCnt && fieldVec[j] != DEVID_INDEX ==>
        if j < k then SlotDone(conv, rec, fixedSize, storeVec[j], vals[j], typeVec[j])
        else ZeroSlot(rec, fixedSize, storeVec[j], typeVec[j])
    }

    lemma Sizes()
      requires Inited()
      ensures |fieldVec| == |storeVec| == |typeVec| == fieldCnt
      ensures 2 <= fixedSize < MAX_REC_LEN
    {
      SlotsApart(table, TSTAMP_INDEX, |table|);
    }

    lemma SlotInside(k: nat)
      requires Inited() && k < fieldCnt && fieldVec[k] != DEVID_INDEX
      ensures 2 <= storeVec[k] && storeVec[k] + Width(typeVec[k]) <= fixedSize
    {
      SlotsApart(table, fieldVec[k], |table|);
    }

    lemma SlotsDisjoint(j: nat, k: nat)
      requires Inited() && j < fieldCnt && k < fieldCnt && fieldVec[j] != fieldVec[k]
      requires fieldVec[j] != DEVID_INDEX && fieldVec[k] != DEVID_INDEX
      ensures storeVec[j] + Width(typeVec[j]) <= storeVec[k] || storeVec[k] + Width(typeVec[k]) <= storeVec[j]
    {
      if fieldVec[j] < fieldVec[k] {
        SlotsApart(table, fieldVec[j], fieldVec[k]);
      } else {
        SlotsApart(table, fieldVec[k], fieldVec[j]);
      }
    }

    lemma SlotsStart(rec: Bytes, vals: seq<DBVal>)
      requires Inited() && |vals| == fieldCnt && |rec| == fixedSize && forall i :: 0 <= i < |rec| ==> rec[i] == 0
      ensures SlotsDone(rec, vals, 0)
    {
      hide Fixed;
      forall j | 0 <= j < fieldCnt && fieldVec[j] != DEVID_INDEX ensures ZeroSlot(rec, fixedSize, storeVec[j], typeVec[j]) {
        SlotInside(j);
        ZeroBytes(Width(typeVec[j]));
        assert rec[storeVec[j]..storeVec[j] + Width(typeVec[j])] == Fixed(0, Width(typeVec[j]));
      }
    }

    /** Storing value k in its slot leaves the slots of the other columns alone. */
    lemma SlotsStep(rec: Bytes, next: Bytes, vals: seq<DBVal>, k: nat)
      requires Inited() && Distinct(fieldVec) && k < |vals| == fieldCnt && fieldVec[k] != DEVID_INDEX
      requires SlotsDone(rec, vals, k) && OneSlotWritten(rec, next, fixedSize, storeVec[k], Width(typeVec[k]))
      requires SlotDone(conv, next, fixedSize, storeVec[k], vals[k], typeVec[k])
      ensures SlotsDone(next, vals, k + 1)
    {
      hide SlotDone, OneSlotWritten, InsertSql.Inited, ZeroSlot;
      Sizes();
      forall j | 0 <= j < fieldCnt && fieldVec[j] != DEVID_INDEX && j != k
        ensures if j < k then SlotDone(conv, next, fixedSize, storeVec[j], vals[j], typeVec[j])
                else ZeroSlot(next, fixedSize, storeVec[j], typeVec[j])
      {
        Different(j, k);
        SlotsDisjoint(j, k);
        if j < k {
          SlotKept(conv, rec, next, fixedSize, storeVec[k], Width(typeVec[k]), storeVec[j], vals[j], typeVec[j]);
        } else {
          NullSlot(conv, rec, fixedSize, storeVec[j], typeVec[j]);
          NullSlot(conv, next, fixedSize, storeVec[j], typeVec[j]);
          SlotKept(conv, rec, next, fixedSize, storeVec[k], Width(typeVec[k]), storeVec[j], Null, typeVec[j]);
        }
      }
    }

    lemma Different(j: nat, k: nat)
      requires Distinct(fieldVec) && j != k && j < |fieldVec| && k < |fieldVec|
      ensures fieldVec[j] != fieldVec[k]
    {
    }

    /** The length at the start of the record is outside of every slot. */
    lemma SlotsSealed(rec: Bytes, next: Bytes, vals: seq<DBVal>)
      requires Inited() && |vals| == fieldCnt && SlotsDone(rec, vals, fieldCnt)
      requires OneSlotWritten(rec, next, fixedSize, 0, 2)
      ensures SlotsDone(next, vals, fieldCnt)
    {
      hide SlotDone, OneSlotWritten, InsertSql.Inited, ZeroSlot;
      Sizes();
      forall j | 0 <= j < fieldCnt && fieldVec[j] != DEVID_INDEX
        ensures SlotDone(conv, next, fixedSize, storeVec[j], vals[j], typeVec[j])
      {
        SlotInside(j);
        SlotKept(conv, rec, next, fixedSize, 0, 2, storeVec[j], vals[j], typeVec[j]);
      }
    }

    /** What devId and tstamp must be after k values. */
    ghost predicate KeyIs(col: nat, key: Int64, vals: seq<DBVal>, k: nat)
      requires Inited() && k <= |vals| == fieldCnt
    {
      && ((forall j :: 0 <= j < k && fieldVec[j] == col ==> vals[j].Null?) ==> key == 0)
      && (Distinct(fieldVec) ==> forall j :: 0 <= j < k && fieldVec[j] == col && !vals[j].Null? ==>
            Stored(conv, vals[j], typeVec[j]).Some? && key == IntOf(Stored(conv, vals[j], typeVec[j]).value))
    }

    /** A value that is not stored in a slot. */
    lemma SlotsSkip(rec: Bytes, vals: seq<DBVal>, k: nat)
      requires Inited() && k < |vals| == fieldCnt && (fieldVec[k] == DEVID_INDEX || vals[k].Null?)
      requires SlotsDone(rec, vals, k)
      ensures SlotsDone(rec, vals, k + 1)
    {
      hide SlotDone, InsertSql.Inited, ZeroSlot;
      Sizes();
      if fieldVec[k] != DEVID_INDEX { NullSlot(conv, rec, fixedSize, storeVec[k], typeVec[k]); }
    }

    lemma KeySkip(col: nat, key: Int64, vals: seq<DBVal>, k: nat)
      requires Inited() && k < |vals| == fieldCnt && KeyIs(col, key, vals, k) && (fieldVec[k] != col || vals[k].Null?)
      ensures KeyIs(col, key, vals, k + 1)
    {
      hide Stored;
    }

    lemma KeySet(col: nat, key: Int64, vals: seq<DBVal>, k: nat)
      requires Inited() && k < |vals| == fieldCnt && fieldVec[k] == col && !vals[k].Null?
      requires Stored(conv, vals[k], typeVec[k]).Some? && key == IntOf(Stored(conv, vals[k], typeVec[k]).value)
      ensures KeyIs(col, key, vals, k + 1)
    {
      hide Stored;
    }

    /** The slot of value k before it is stored. */
    lemma SlotReady(rec: Bytes, vals: seq<DBVal>, k: nat)
      requires Inited() && k < |vals| == fieldCnt && fieldVec[k] != DEVID_INDEX && SlotsDone(rec, vals, k)
      ensures At(rec, storeVec[k], Fixed(0, Width(typeVec[k])))
    {
      hide At, Fixed, SlotDone;
    }

    /** Value idx, the record being in order so far. */
    method StoreNext(buf: array<Byte>, size: nat, idx: nat, val: DBVal, ghost vals: seq<DBVal>) returns (newSize: nat, ok: bool)
      requires Inited() && idx < |vals| == fieldCnt && fieldVec[idx] != DEVID_INDEX && !vals[idx].Null?
      requires buf.Length == MAX_REC_LEN && fixedSize <= size < MAX_REC_LEN
      requires Stored(conv, vals[idx], typeVec[idx]) == Some(val)
      requires Distinct(fieldVec) ==> SlotsDone(buf[..size], vals, idx)
      modifies buf
      ensures ok <==> !TooLong(size, val)
      ensures newSize == if ok then size + Added(val) else size
      ensures newSize < MAX_REC_LEN
      ensures ok && Distinct(fieldVec) ==> SlotsDone(buf[..newSize], vals, idx + 1)
    {
      hide At, Fixed, OneSlotWritten, ZeroSlot, Holds, Added, TooLong, InsertSql.SlotsDone, Stored, StorePos;
      SlotInside(idx);
      ghost var before := buf[..size];
      if Distinct(fieldVec) { SlotReady(before, vals, idx); }
      newSize, ok := StoreValue(buf, size, fixedSize, storeVec[idx], val, typeVec[idx]);
      if ok && Distinct(fieldVec) {
        SlotsStep(before, buf[..newSize], vals, idx);
      }
    }

    /** One binary record. Whether it succeeds or not, it takes exactly fieldCnt_ values. */
    method GetNextRecBinary() returns (err: InsertErr, rec: Bytes, devId: Int64, tstamp: Int64)
      requires Inited() && valIter + fieldCnt <= |valList|
      modifies this`valIter
      ensures valIter == old(valIter) + fieldCnt
      ensures fixedSize <= |rec| < MAX_REC_LEN && At(rec, 0, Fixed(|rec|, 2))
      ensures err == FirstError(conv, old(Current()), typeVec, fixedSize, fieldCnt)
      ensures err == OK ==> |rec| == fixedSize + AddedBy(conv, old(Current()), typeVec, fieldCnt)
      ensures err == OK && Distinct(fieldVec) ==> SlotsDone(rec, old(Current()), fieldCnt)
      ensures err == OK ==> KeyIs(DEVID_INDEX, devId, old(Current()), fieldCnt) && KeyIs(TSTAMP_INDEX, tstamp, old(Current()), fieldCnt)
    {
      hide At, Fixed, SlotDone, OneSlotWritten, ZeroSlot, Holds, Added, TooLong, InsertSql.SlotsDone, InsertSql.KeyIs,
           InsertSql.Inited, Stored, StorePos;
      Sizes();
      ghost var vals := Current();
      err, devId, tstamp := OK, 0, 0;
      var buf := new Byte[MAX_REC_LEN](_ => 0);
      var size := fixedSize;
      SlotsStart(buf[..size], vals);
      KeysStart(vals);
      for idx := 0 to fieldCnt
        invariant valIter == old(valIter) + idx && fixedSize <= size < MAX_REC_LEN
        invariant err == FirstError(conv, vals, typeVec, fixedSize, idx)
        invariant err == OK ==> size == fixedSize + AddedBy(conv, vals, typeVec, idx)
        invariant err == OK && Distinct(fieldVec) ==> SlotsDone(buf[..size], vals, idx)
        invariant err == OK ==> KeyIs(DEVID_INDEX, devId, vals, idx) && KeyIs(TSTAMP_INDEX, tstamp, vals, idx)
      {
        var v := valList[valIter];
        assert v == vals[idx];
        valIter := valIter + 1;
        if v.Null? || err != OK {
          if err == OK { SkipValue(buf[..size], vals, idx, devId, tstamp); }
          continue;
        }
        var val := Stored(conv, v, typeVec[idx]);
        if val.None? {
          err := VALUE_MISMATCH;
          continue;
        }
        if fieldVec[idx] == DEVID_INDEX {
          devId := IntOf(val.value);
          DeviceValue(buf[..size], vals, idx, devId, tstamp);
          continue;
        }
        KeySkip(DEVID_INDEX, devId, vals, idx);
        if fieldVec[idx] == TSTAMP_INDEX {
          tstamp := IntOf(val.value);
          KeySet(TSTAMP_INDEX, tstamp, vals, idx);
        } else {
          KeySkip(TSTAMP_INDEX, tstamp, vals, idx);
        }
        var ok;
        size, ok := StoreNext(buf, size, idx, val.value, vals);
        if !ok {
          err := RECORD_TOO_LONG;
        }
      }
      ghost var before := buf[..size];
      FixedEncode(buf, 0, size, 2);
      AtTaken(buf[..], size, 0, Fixed(size, 2));
      rec := buf[..size];
      if err == OK && Distinct(fieldVec) {
        SealedIs(before, rec);
        SlotsSealed(before, rec, vals);
      }
    }

    lemma KeysStart(vals: seq<DBVal>)
      requires Inited() && |vals| == fieldCnt
      ensures KeyIs(DEVID_INDEX, 0, vals, 0) && KeyIs(TSTAMP_INDEX, 0, vals, 0)
    {
    }

    lemma SkipValue(rec: Bytes, vals: seq<DBVal>, k: nat, devId: Int64, tstamp: Int64)
      requires Inited() && k < |vals| == fieldCnt && vals[k].Null?
      requires KeyIs(DEVID_INDEX, devId, vals, k) && KeyIs(TSTAMP_INDEX, tstamp, vals, k)
      requires Distinct(fieldVec) ==> SlotsDone(rec, vals, k)
      ensures KeyIs(DEVID_INDEX, devId, vals, k + 1) && KeyIs(TSTAMP_INDEX, tstamp, vals, k + 1)
      ensures Distinct(fieldVec) ==> SlotsDone(rec, vals, k + 1)
      ensures AddedBy(conv, vals, typeVec, k + 1) == AddedBy(conv, vals, typeVec, k)
    {
      hide Stored, InsertSql.SlotsDone, InsertSql.KeyIs, Added;
      KeySkip(DEVID_INDEX, devId, vals, k);
      KeySkip(TSTAMP_INDEX, tstamp, vals, k);
      if Distinct(fieldVec) { SlotsSkip(rec, vals, k); }
    }

    lemma DeviceValue(rec: Bytes, vals: seq<DBVal>, k: nat, devId: Int64, tstamp: Int64)
      requires Inited() && k < |vals| == fieldCnt && fieldVec[k] == DEVID_INDEX && !vals[k].Null?
      requires Stored(conv, vals[k], typeVec[k]).Some? && devId == IntOf(Stored(conv, vals[k], typeVec[k]).value)
      requires KeyIs(TSTAMP_INDEX, tstamp, vals, k) && (Distinct(fieldVec) ==> SlotsDone(rec, vals, k))
      ensures KeyIs(DEVID_INDEX, devId, vals, k + 1) && KeyIs(TSTAMP_INDEX, tstamp, vals, k + 1)
      ensures Distinct(fieldVec) ==> SlotsDone(rec, vals, k + 1)
      ensures AddedBy(conv, vals, typeVec, k + 1) == AddedBy(conv, vals, typeVec, k)
      ensures forall size: nat :: !TooLong(size, Stored(conv, vals[k], typeVec[k]).value)
    {
      hide Stored, InsertSql.SlotsDone, InsertSql.KeyIs, StorePos;
      assert typeVec[k] == TInt64;
      assert Stored(conv, vals[k], typeVec[k]).value.Int64?;
      KeySet(DEVID_INDEX, devId, vals, k);
      KeySkip(TSTAMP_INDEX, tstamp, vals, k);
      if Distinct(fieldVec) { SlotsSkip(rec, vals, k); }
    }

    lemma SealedIs(before: Bytes, rec: Bytes)
      requires Inited() && |rec| == |before| >= fixedSize && forall i :: 2 <= i < |rec| ==> rec[i] == before[i]
      ensures OneSlotWritten(before, rec, fixedSize, 0, 2)
    {
      Sizes();
    }

    /** Reading a finished record gives back every value it was made from. */
    lemma RecordReads(rec: Bytes, vals: seq<DBVal>, k: nat)
      requires Inited() && |vals| == fieldCnt && SlotsDone(rec, vals, fieldCnt)
      requires k < fieldCnt && fieldVec[k] != DEVID_INDEX
      ensures storeVec[k] + Width(typeVec[k]) <= |rec|
      ensures FieldAt(rec, storeVec[k], typeVec[k]) == Some(Entry(conv, vals[k], typeVec[k]))
    {
      hide Stored, FieldAt, Holds, At, Fixed, StorePos;
      SlotInside(k);
      if vals[k].Null? {
        ZeroReads(rec, fixedSize, storeVec[k], typeVec[k]);
      } else {
        HoldsInside(rec, fixedSize, storeVec[k], Stored(conv, vals[k], typeVec[k]).value, typeVec[k]);
        HoldsReads(rec, fixedSize, storeVec[k], Stored(conv, vals[k], typeVec[k]).value, typeVec[k]);
      }
    }

    /** The columns of an array of values after n values were entered; of several values for one
        column the last one counts. */
    ghost predicate EntriesDone(was: seq<DBVal>, now: seq<DBVal>, vals: seq<DBVal>, n: nat)
      requires Inited() && n <= |vals| == fieldCnt && |table| <= |was| == |now|
    {
      && (forall k :: 0 <= k < n && Settled(k, n) ==>
            now[fieldVec[k]] == if vals[k].Null? then Zero(typeVec[k])
                                else match Stored(conv, vals[k], typeVec[k]) case None => vals[k] case Some(x) => x)
      && (forall c :: 0 <= c < |now| && c !in fieldVec ==> now[c] == was[c])
    }

    lemma EntriesStep(was: seq<DBVal>, now: seq<DBVal>, vals: seq<DBVal>, n: nat)
      requires Inited() && n < |vals| == fieldCnt && |table| <= |was| == |now| && EntriesDone(was, now, vals, n)
      ensures EntriesDone(was, now[fieldVec[n] := Entry(conv, vals[n], typeVec[n])], vals, n + 1)
    {
      hide Stored, Zero, StorePos;
      var next := now[fieldVec[n] := Entry(conv, vals[n], typeVec[n])];
      forall k | 0 <= k < n + 1 && Settled(k, n + 1)
        ensures next[fieldVec[k]] == if vals[k].Null? then Zero(typeVec[k])
                                     else match Stored(conv, vals[k], typeVec[k]) case None => vals[k] case Some(x) => x
      {
        if k < n {
          assert fieldVec[n] != fieldVec[k];
          assert Settled(k, n);
        }
      }
    }

    /** The record as an array of values. A value that cannot be converted is left as it is and
        reported at the end; all values of the record are taken in any case. */
    method GetNextRec(pVals: array<DBVal>) returns (err: InsertErr)
      requires Inited() && valIter + fieldCnt <= |valList| && |table| <= pVals.Length
      modifies this`valIter, pVals
      ensures valIter == old(valIter) + fieldCnt
      ensures err == if forall k :: 0 <= k < fieldCnt ==> Entered(conv, old(Current())[k], typeVec[k]) then OK else VALUE_MISMATCH
      ensures EntriesDone(old(pVals[..]), pVals[..], old(Current()), fieldCnt)
    {
      hide Stored, Zero, StorePos, InsertSql.EntriesDone;
      ghost var vals, was := Current(), pVals[..];
      err := OK;
      EntriesStart(was, vals);
      for idx := 0 to fieldCnt
        invariant valIter == old(valIter) + idx
        invariant err == if forall k :: 0 <= k < idx ==> Entered(conv, vals[k], typeVec[k]) then OK else VALUE_MISMATCH
        invariant EntriesDone(was, pVals[..], vals, idx)
      {
        var fieldPos, v := fieldVec[idx], valList[valIter];
        assert v == vals[idx];
        ghost var entered := Entered(conv, vals[idx], typeVec[idx]);
        EntriesStep(was, pVals[..], vals, idx);
        if v.Null? {
          pVals[fieldPos] := Zero(typeVec[idx]);
        } else {
          var val := Stored(conv, v, typeVec[idx]);
          if val.None? {
            err := VALUE_MISMATCH;
            pVals[fieldPos] := v;
          } else {
            pVals[fieldPos] := val.value;
          }
        }
        valIter := valIter + 1;
      }
    }

    lemma EntriesStart(was: seq<DBVal>, vals: seq<DBVal>)
      requires Inited() && |vals| == fieldCnt && |table| <= |was|
      ensures EntriesDone(was, was, vals, 0)
    {
    }

    /** No column after k, up to n, is the same. */
    ghost predicate Settled(k: nat, n: nat)
      requires k < n <= |fieldVec|
    {
      forall j :: k < j < n ==> fieldVec[j] != fieldVec[k]
    }

    /** A batch of recCnt_ records stays in frame, whichever of them fail: the cursor reaches the
        end of the list with the last record, not earlier and not later. */
    method RunBatch() returns (errs: seq<InsertErr>, recs: seq<Bytes>)
      requires Inited() && Valid() && valIter == 0 && fieldCnt > 0
      modifies this`valIter
      ensures |errs| == |recs| == recCnt && valIter == |valList|
      ensures forall n :: 0 <= n < recCnt ==> RecordOf(n, errs[n], recs[n])
    {
      hide InsertSql.SlotsDone, StorePos, InsertSql.RecordOf, InsertSql.KeyIs, FirstError, AddedBy, At, Fixed;
      errs, recs := [], [];
      var end := IsEnd();
      while !end
        invariant valIter == |errs| * fieldCnt <= |valList| && |recs| == |errs| && end == (valIter == |valList|)
        invariant forall n :: 0 <= n < |errs| ==> RecordOf(n, errs[n], recs[n])
        decreases |valList| - valIter
      {
        ghost var n := |errs|;
        FrameInside(n);
        var err, rec, devId, tstamp := GetNextRecBinary();
        MadeFrom(n, err, rec);
        errs, recs := errs + [err], recs + [rec];
        assert valIter == (n + 1) * fieldCnt;
        end := IsEnd();
      }
      FrameEnd(|errs|);
    }

    /** The values of record n. */
    ghost function Frame(n: nat): seq<DBVal> {
      if n * fieldCnt + fieldCnt <= |valList| then valList[n * fieldCnt..n * fieldCnt + fieldCnt] else []
    }

    /** Record n was made from its own values. */
    ghost predicate RecordOf(n: nat, err: InsertErr, rec: Bytes)
      requires Inited()
    {
      && |Frame(n)| == fieldCnt
      && err == FirstError(conv, Frame(n), typeVec, fixedSize, fieldCnt)
      && (err == OK && Distinct(fieldVec) ==> SlotsDone(rec, Frame(n), fieldCnt))
    }

    lemma MadeFrom(n: nat, err: InsertErr, rec: Bytes)
      requires Inited() && n * fieldCnt + fieldCnt <= |valList|
      requires var vals := valList[n * fieldCnt..n * fieldCnt + fieldCnt];
               err == FirstError(conv, vals, typeVec, fixedSize, fieldCnt)
               && (err == OK && Distinct(fieldVec) ==> SlotsDone(rec, vals, fieldCnt))
      ensures RecordOf(n, err, rec)
    {
      hide FirstError, InsertSql.SlotsDone;
    }

    lemma FrameInside(n: nat)
      requires Valid() && fieldCnt > 0 && n * fieldCnt < |valList|
      ensures n * fieldCnt + fieldCnt <= |valList| && (n + 1) * fieldCnt == n * fieldCnt + fieldCnt
    {
      MulOrder(n, recCnt, fieldCnt);
      MulOrder(recCnt, n, fieldCnt);
    }

    lemma FrameEnd(n: nat)
      requires Valid() && fieldCnt > 0 && n * fieldCnt == |valList|
      ensures n == recCnt
    {
      MulOrder(n, recCnt, fieldCnt);
      MulOrder(recCnt, n, fieldCnt);
    }
  }

  lemma MulOrder(a: nat, b: nat, c: nat)
    requires c > 0
    ensures (a + 1) * c == a * c + c
    ensures a < b ==> a * c + c <= b * c
    ensures a == b ==> a * c == b * c
  {
    if a < b {
      var d: nat := b - a - 1;
      assert b == a + 1 + d;
      assert b * c == a * c + c + d * c;
    }
  }

  lemma {:induction false} ZeroBytes(k: nat)
    ensures forall i :: 0 <= i < k ==> Fixed(0, k)[i] == 0
  {
    if k > 0 { ZeroBytes(k - 1); }
  }

  lemma NullSlot(conv: Convert, rec: Bytes, fixed: nat, pos: nat, t: FieldType)
    ensures SlotDone(conv, rec, fixed, pos, Null, t) <==> ZeroSlot(rec, fixed, pos, t)
  {
  }

  /** What a NULL becomes. */
  function Zero(t: FieldType): DBVal {
    match t
    case TBool => Bool(false) case TInt8 => Int8(0) case TInt16 => Int16(0) case TInt32 => Int32(0) case TInt64 => Int64(0)
    case TDateTime => DateTime(0) case TFloat => Float(0) case TDouble => Double(0) case TString => String([]) case TBlob => Blob([])
  }

  predicate Entered(conv: Convert, v: DBVal, t: FieldType) {
    v.Null? || Stored(conv, v, t).Some?
  }

  /** The value of a column of the record. */
  function Entry(conv: Convert, v: DBVal, t: FieldType): DBVal {
    if v.Null? then Zero(t) else match Stored(conv, v, t) case None => v case Some(x) => x
  }

  lemma ZeroReads(rec: Bytes, fixed: nat, pos: nat, t: FieldType)
    requires ZeroSlot(rec, fixed, pos, t)
    ensures pos + Width(t) <= |rec| && FieldAt(rec, pos, t) == Some(Zero(t))
  {
    hide At, Fixed, FieldAt;
    assert SlotBits(Zero(t)) == 0 && HasType(Zero(t), t);
    ScalarReads(rec, pos, Zero(t), t);
  }

  lemma HoldsInside(rec: Bytes, fixed: nat, pos: nat, v: DBVal, t: FieldType)
    requires Holds(rec, fixed, pos, v, t)
    ensures pos + Width(t) <= |rec|
  {
  }
}
