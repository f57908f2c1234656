/** The value encoding shared by insert packets, query results and both client libraries:
    a type byte and the value (PushBackToResult of query/iquery.h, Write* of
    PDB.DotNetSDK/IntTool.cs). Rows follow each other without separators. */
module WireFormat {
  import opened Coding
  import opened DbValue
  import opened CompFormat

  function EncodeValue(v: DBVal): (r: Bytes)
    ensures |r| >= 1
  {
    match v
    case Null => [0]
    case Bool(b) => [1, if b then 1 else 0]
    case Int8(i) => [2] + Varint(ZigzagEncode64(i))
    case Int16(i) => [3] + Varint(ZigzagEncode64(i))
    case Int32(i) => [4] + Varint(ZigzagEncode64(i))
    case Int64(i) => [5] + Varint(ZigzagEncode64(i))
    case DateTime(i) => [6] + Varint(ZigzagEncode64(i))
    case Float(x) => [7] + Fixed(x, 4)
    case Double(x) => [8] + Fixed(x, 8)
    case String(s) => [9] + (Varint(|s|) + s)
    case Blob(s) => [10] + (Varint(|s|) + s)
  }

  /** Values on the wire, byte for byte: type, then a byte for a boolean, a zigzag varint for an
      integer, the bits of a float with the lowest byte first, length and bytes of a string. */
  lemma KnownValues()
    ensures EncodeValue(Null) == [0] && EncodeValue(Bool(true)) == [1, 1] && EncodeValue(Bool(false)) == [1, 0]
    ensures EncodeValue(Int8(-1)) == [2, 1] && EncodeValue(Int16(1)) == [3, 2] && EncodeValue(Int32(-75)) == [4, 0x95, 1]
    ensures EncodeValue(Int64(100)) == [5, 0xC8, 1] && EncodeValue(DateTime(-64)) == [6, 0x7F]
    ensures EncodeValue(Float(0x3F80_0001)) == [7, 1, 0, 0x80, 0x3F]
    ensures EncodeValue(Double(0x3FF0_0000_0000_0001)) == [8, 1, 0, 0, 0, 0, 0, 0xF0, 0x3F]
    ensures EncodeValue(String([65, 66])) == [9, 2, 65, 66] && EncodeValue(Blob([7])) == [10, 1, 7]
  {
    hide ZigzagEncode64, Varint, Fixed;
    ZigzagNegative(-1);
    ZigzagPositive(1);
    ZigzagNegative(-75);
    ZigzagPositive(100);
    ZigzagNegative(-64);
    KnownVarints();
    KnownFixed();
  }

  /** The type byte is the type code of the partition files. */
  lemma SameCodes(v: DBVal, t: FieldType)
    requires HasType(v, t)
    ensures EncodeValue(v)[0] == TypeCode(t)
  {
    hide Varint, ZigzagEncode64, Fixed;
  }

  function EncodeRow(row: Row): (r: Bytes)
    ensures |r| >= |row|
  {
    if row == [] then [] else EncodeRow(row[..|row| - 1]) + EncodeValue(row[|row| - 1])
  }

  function EncodeRows(rows: seq<Row>): Bytes {
    if rows == [] then [] else EncodeRows(rows[..|rows| - 1]) + EncodeRow(rows[|rows| - 1])
  }

  /** Rows and their values follow each other in order, without separators. */
  lemma KnownRows(a: DBVal, b: DBVal, c: DBVal, d: DBVal)
    ensures EncodeRows([[a, b], [c, d]]) == EncodeValue(a) + EncodeValue(b) + EncodeValue(c) + EncodeValue(d)
  {
    hide EncodeValue, EncodeRow;
    TwoValues(a, b);
    TwoValues(c, d);
    var one: seq<Row>, two: seq<Row> := [[a, b]], [[a, b], [c, d]];
    assert two[..1] == one && one[..0] == [];
    assert EncodeRows(one) == [] + EncodeRow([a, b]);
    var x, y := EncodeValue(c), EncodeValue(d);
    assert EncodeRow([a, b]) + (x + y) == EncodeRow([a, b]) + x + y;
  }

  lemma TwoValues(a: DBVal, b: DBVal)
    ensures EncodeRow([a, b]) == EncodeValue(a) + EncodeValue(b)
  {
    hide EncodeValue;
    var one, two: Row := [a], [a, b];
    assert two[..1] == one && one[..0] == [];
    assert EncodeRow(one) == [] + EncodeValue(a);
  }

  /** dataLen_ is an int32_t. */
  predicate Sendable(v: DBVal) {
    v.String? || v.Blob? ==> |v.bytes| < 0x8000_0000
  }

  // ---------------------------------------------------------------- the format, read strictly

  function DecodeInt(buf: Bytes, p: nat): (r: Option<(Int64, nat)>)
    requires p <= |buf|
    ensures r.Some? ==> p < r.value.1 <= |buf|
  {
    match DecodeVarint64(buf, p)
    case None => None
    case Some((u, q)) => Some((ZigzagDecode64(u), q))
  }

  function DecodeBytes(buf: Bytes, p: nat): (r: Option<(Bytes, nat)>)
    requires p <= |buf|
    ensures r.Some? ==> p < r.value.1 <= |buf|
  {
    match DecodeVarint32(buf, p)
    case None => None
    case Some((n, q)) => if n < 0x8000_0000 && q + n <= |buf| then Some((buf[q..q + n], q + n)) else None
  }

  function DecodeFixed(buf: Bytes, p: nat, k: nat): (r: Option<(nat, nat)>)
    requires p <= |buf|
    ensures r.Some? ==> p + k == r.value.1 <= |buf|
  {
    if p + k <= |buf| then Some((FixedDecode(buf[p..p + k]), p + k)) else None
  }

  function ReadInt(t: FieldType, buf: Bytes, p: nat): (r: Option<(DBVal, nat)>)
    requires p <= |buf|
    ensures r.Some? ==> p < r.value.1 <= |buf|
  {
    match DecodeInt(buf, p)
    case None => None
    case Some((x, q)) => if IntOf(MakeInt(t, x)) == x then Some((MakeInt(t, x), q)) else None
  }

  /** A value as the format defines it: everything else, such as a boolean other than 0 and 1,
      an integer wider than its type or an unknown type, is not a value. */
  function ReadValue(buf: Bytes, p: nat): (r: Option<(DBVal, nat)>)
    requires p <= |buf|
    ensures r.Some? ==> p < r.value.1 <= |buf|
  {
    if p == |buf| then None
    else match buf[p]
      case 0 => Some((Null, p + 1))
      case 1 => if p + 1 < |buf| && buf[p + 1] < 2 then Some((Bool(buf[p + 1] == 1), p + 2)) else None
      case 2 => ReadInt(TInt8, buf, p + 1)
      case 3 => ReadInt(TInt16, buf, p + 1)
      case 4 => ReadInt(TInt32, buf, p + 1)
      case 5 => ReadInt(TInt64, buf, p + 1)
      case 6 => ReadInt(TDateTime, buf, p + 1)
      case 7 => (match DecodeFixed(buf, p + 1, 4)
                 case None => None
                 case Some((x, q)) => if x < P32 then Some((Float(x), q)) else None)
      case 8 => (match DecodeFixed(buf, p + 1, 8)
                 case None => None
                 case Some((x, q)) => if x < P64 then Some((Double(x), q)) else None)
      case 9 => (match DecodeBytes(buf, p + 1)
                 case None => None
                 case Some((s, q)) => Some((String(s), q)))
      case 10 => (match DecodeBytes(buf, p + 1)
                  case None => None
                  case Some((s, q)) => Some((Blob(s), q)))
      case _ => None
  }

  function ReadNext(buf: Bytes, done: Option<(Row, nat)>): (r: Option<(Row, nat)>)
    requires done.Some? ==> done.value.1 <= |buf|
    ensures r.Some? ==> done.Some? && done.value.1 < r.value.1 <= |buf|
  {
    match done
    case None => None
    case Some((row, p)) =>
      match ReadValue(buf, p)
      case None => None
      case Some((v, q)) => Some((row + [v], q))
  }

  /** The next cnt values. */
  function ReadRow(buf: Bytes, p: nat, cnt: nat): (r: Option<(Row, nat)>)
    requires p <= |buf|
    ensures r.Some? ==> |r.value.0| == cnt && p <= r.value.1 <= |buf| && (cnt > 0 ==> p < r.value.1)
  {
    if cnt == 0 then Some(([], p)) else ReadNext(buf, ReadRow(buf, p, cnt - 1))
  }

  /** The next n rows. */
  function ReadRows(buf: Bytes, p: nat, cnt: nat, n: nat): (r: Option<(seq<Row>, nat)>)
    requires p <= |buf|
    ensures r.Some? ==> |r.value.0| == n && p <= r.value.1 <= |buf|
  {
    if n == 0 then Some(([], p))
    else match ReadRows(buf, p, cnt, n - 1)
      case None => None
      case Some((rows, q)) =>
        match ReadRow(buf, q, cnt)
        case None => None
        case Some((row, e)) => Some((rows + [row], e))
  }

  // ---------------------------------------------------------------- round trip

  lemma IntReads(x: Int64, pre: Bytes, post: Bytes)
    ensures var code := Varint(ZigzagEncode64(x));
            DecodeInt(pre + code + post, |pre|) == Some((x, |pre| + |code|))
  {
    hide Varint, DecodeVarint, ZigzagEncode64, ZigzagDecode64;
    Varint64RoundTrip(ZigzagEncode64(x), pre, post);
    ZigzagRoundTrip(x);
  }

  lemma BytesRead(s: Bytes, pre: Bytes, post: Bytes)
    requires |s| < 0x8000_0000
    ensures var code := Varint(|s|) + s;
            DecodeBytes(pre + code + post, |pre|) == Some((s, |pre| + |code|))
  {
    hide Varint, DecodeVarint;
    Varint32RoundTrip(|s|, pre, s + post);
    assert pre + (Varint(|s|) + s) + post == pre + Varint(|s|) + (s + post);
    var q := |pre| + |Varint(|s|)|;
    assert (pre + Varint(|s|) + (s + post))[q..q + |s|] == s;
  }

  lemma FixedReads(n: nat, k: nat, pre: Bytes, post: Bytes)
    requires n < Pow2(8 * k)
    ensures DecodeFixed(pre + Fixed(n, k) + post, |pre|, k) == Some((n, |pre| + k))
  {
    hide Fixed, FixedDecode;
    FixedRoundTrip(n, k);
    assert (pre + Fixed(n, k) + post)[|pre|..|pre| + k] == Fixed(n, k);
  }

  /** The type byte and what follows it. */
  lemma TypeByte(code: Byte, body: Bytes, pre: Bytes, post: Bytes)
    ensures pre + ([code] + body) + post == (pre + [code]) + body + post
    ensures (pre + ([code] + body) + post)[|pre|] == code && |pre + [code]| == |pre| + 1
  {
  }

  ghost predicate ValueReads(v: DBVal, pre: Bytes, post: Bytes) {
    ReadValue(pre + EncodeValue(v) + post, |pre|) == Some((v, |pre| + |EncodeValue(v)|))
  }

  lemma IntValueReads(v: DBVal, code: Byte, pre: Bytes, post: Bytes)
    requires v.Int8? || v.Int16? || v.Int32? || v.Int64? || v.DateTime?
    requires code == (match v case Int8(_) => 2 case Int16(_) => 3 case Int32(_) => 4 case Int64(_) => 5 case _ => 6)
    ensures ValueReads(v, pre, post)
  {
    hide Varint, DecodeInt, ZigzagEncode64;
    var body := Varint(ZigzagEncode64(IntOf(v)));
    TypeByte(code, body, pre, post);
    IntReads(IntOf(v), pre + [code], post);
    var t := match code case 2 => TInt8 case 3 => TInt16 case 4 => TInt32 case 5 => TInt64 case _ => TDateTime;
    MakeIntOf(t, v);
    assert EncodeValue(v) == [code] + body;
  }

  lemma FixedValueReads(v: DBVal, pre: Bytes, post: Bytes)
    requires v.Float? || v.Double?
    ensures ValueReads(v, pre, post)
  {
    hide Fixed, DecodeFixed, Pow2;
    Pow2Values();
    if v.Float? {
      TypeByte(7, Fixed(v.f32, 4), pre, post);
      FixedReads(v.f32, 4, pre + [7], post);
    } else {
      TypeByte(8, Fixed(v.f64, 8), pre, post);
      FixedReads(v.f64, 8, pre + [8], post);
    }
  }

  lemma BytesValueReads(v: DBVal, pre: Bytes, post: Bytes)
    requires (v.String? || v.Blob?) && Sendable(v)
    ensures ValueReads(v, pre, post)
  {
    hide Varint, DecodeBytes;
    var code := if v.String? then 9 else 10;
    TypeByte(code, Varint(|v.bytes|) + v.bytes, pre, post);
    BytesRead(v.bytes, pre + [code], post);
  }

  lemma ValueRoundTrip(v: DBVal, pre: Bytes, post: Bytes)
    requires Sendable(v)
    ensures ValueReads(v, pre, post)
  {
    hide Varint, ReadValue, EncodeValue;
    match v
    case Null => NullReads(pre, post);
    case Bool(b) => BoolReads(b, pre, post);
    case Int8(_) => IntValueReads(v, 2, pre, post);
    case Int16(_) => IntValueReads(v, 3, pre, post);
    case Int32(_) => IntValueReads(v, 4, pre, post);
    case Int64(_) => IntValueReads(v, 5, pre, post);
    case DateTime(_) => IntValueReads(v, 6, pre, post);
    case Float(_) => FixedValueReads(v, pre, post);
    case Double(_) => FixedValueReads(v, pre, post);
    case String(_) => BytesValueReads(v, pre, post);
    case Blob(_) => BytesValueReads(v, pre, post);
  }

  lemma NullReads(pre: Bytes, post: Bytes)
    ensures ValueReads(Null, pre, post)
  {
  }

  lemma BoolReads(b: bool, pre: Bytes, post: Bytes)
    ensures ValueReads(Bool(b), pre, post)
  {
  }

  ghost predicate RowSendable(row: Row) {
    forall i :: 0 <= i < |row| ==> Sendable(row[i])
  }

  lemma Regroup(pre: Bytes, a: Bytes, b: Bytes, post: Bytes)
    ensures pre + (a + b) + post == pre + a + (b + post) == (pre + a) + b + post
    ensures |pre + a| + |b| == |pre| + |a + b|
  {
  }

  lemma NothingToRead(pre: Bytes, post: Bytes, cnt: nat)
    ensures ReadRow(pre + EncodeRow([]) + post, |pre|, 0) == Some(([], |pre| + |EncodeRow([])|))
    ensures ReadRows(pre + EncodeRows([]) + post, |pre|, cnt, 0) == Some(([], |pre| + |EncodeRows([])|))
  {
  }

  /** A row read back, wherever it stands; the reader stops right behind it. */
  lemma {:induction false} RowRoundTrip(row: Row, pre: Bytes, post: Bytes)
    requires RowSendable(row)
    ensures ReadRow(pre + EncodeRow(row) + post, |pre|, |row|) == Some((row, |pre| + |EncodeRow(row)|))
  {
    hide ReadValue, EncodeValue, Sendable, ReadRow;
    if row == [] {
      NothingToRead(pre, post, 0);
    } else {
      var init, v := row[..|row| - 1], row[|row| - 1];
      var a, b := EncodeRow(init), EncodeValue(v);
      Regroup(pre, a, b, post);
      RowRoundTrip(init, pre, b + post);
      ValueRoundTrip(v, pre + a, post);
      assert row == init + [v];
      NextValue(pre + (a + b) + post, |pre|, init, |pre + a|, v, |pre| + |a + b|);
    }
  }

  lemma NextValue(s: Bytes, p: nat, init: Row, q: nat, v: DBVal, e: nat)
    requires p <= |s| && q <= |s| && ReadRow(s, p, |init|) == Some((init, q)) && ReadValue(s, q) == Some((v, e))
    ensures ReadRow(s, p, |init| + 1) == Some((init + [v], e))
  {
    hide ReadValue;
  }

  /** A table of rows with cnt columns. */
  ghost predicate TableSendable(rows: seq<Row>, cnt: nat) {
    forall i :: 0 <= i < |rows| ==> |rows[i]| == cnt && RowSendable(rows[i])
  }

  lemma {:induction false} RowsRoundTrip(rows: seq<Row>, cnt: nat, pre: Bytes, post: Bytes)
    requires TableSendable(rows, cnt)
    ensures ReadRows(pre + EncodeRows(rows) + post, |pre|, cnt, |rows|) == Some((rows, |pre| + |EncodeRows(rows)|))
  {
    hide ReadRow, EncodeRow, RowSendable;
    if rows == [] {
      NothingToRead(pre, post, cnt);
    } else {
      var init, row := rows[..|rows| - 1], rows[|rows| - 1];
      var a, b := EncodeRows(init), EncodeRow(row);
      Regroup(pre, a, b, post);
      RowsRoundTrip(init, cnt, pre, b + post);
      RowRoundTrip(row, pre + a, post);
      assert rows == init + [row];
    }
  }
}
