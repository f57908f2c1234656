/** The .NET client (PDB.DotNetSDK): writing values into a ByteStream (IntTool.cs) and building
    the body of an insert packet (PDBCommand.cs). An exception is the result false or None. */
module IntTool {
  import opened Coding
  import opened DbValue
  import opened ByteStreams
  import opened WireFormat

  const MAX_STRING := 8192
  /** The first microsecond of the year 3000. */
  const YEAR_3000 := 376200 * MICROSECONDS_PER_DAY

  /** What can be written: strings and blobs below the limit, times from 1970 to 2999. */
  predicate Writable(v: DBVal) {
    match v
    case String(s) => |s| < MAX_STRING
    case Blob(s) => |s| < MAX_STRING
    case DateTime(ts) => 0 <= ts < YEAR_3000
    case _ => true
  }

  // ---------------------------------------------------------------- writing

  method WriteNull(stream: ByteStream)
    requires stream.Valid()
    modifies stream.repr
    ensures stream.Valid() && fresh(stream.repr - old(stream.repr))
    ensures stream.Contents() == old(stream.Contents()) + EncodeValue(Null)
  {
    var buf := new Byte[1];
    buf[0] := 0;
    assert buf[0..1] == [0];
    stream.Write(buf, 0, 1);
  }

  method WriteBool(stream: ByteStream, value: bool)
    requires stream.Valid()
    modifies stream.repr
    ensures stream.Valid() && fresh(stream.repr - old(stream.repr))
    ensures stream.Contents() == old(stream.Contents()) + EncodeValue(Bool(value))
  {
    var buf := new Byte[2];
    buf[0] := 1;
    buf[1] := if value then 1 else 0;
    assert buf[0..2] == EncodeValue(Bool(value));
    stream.Write(buf, 0, 2);
  }

  /** WriteVarint8/16/32/64, which differ in the type byte. The scratch array of 11 bytes is
      enough for every value. */
  method WriteVarint(stream: ByteStream, code: Byte, value: Int64)
    requires stream.Valid()
    modifies stream.repr
    ensures stream.Valid() && fresh(stream.repr - old(stream.repr))
    ensures stream.Contents() == old(stream.Contents()) + ([code] + Varint(ZigzagEncode64(value)))
  {
    hide ByteStream.Valid, ByteStream.Contents, ZigzagEncode64;
    var u := ZigzagEncode64(value);
    Varint64RoundTrip(u, [], []);
    var uVal: nat := u;
    var pos := 0;
    var buf := new Byte[11];
    buf[pos] := code;
    pos := pos + 1;
    while uVal >= P7
      invariant 1 <= pos && pos + |Varint(uVal)| <= 11
      invariant buf[..pos] + Varint(uVal) == [code] + Varint(u)
      invariant stream.Valid() && stream.repr == old(stream.repr) && stream.Contents() == old(stream.Contents())
    {
      ghost var before := buf[..pos];
      buf[pos] := uVal % P7 + P7;
      pos := pos + 1;
      assert buf[..pos] == before + [uVal % P7 + P7];
      uVal := uVal / P7;
    }
    buf[pos] := uVal;
    pos := pos + 1;
    assert buf[0..pos] == [code] + Varint(u);
    stream.Write(buf, 0, pos);
  }

  method WriteFloat(stream: ByteStream, x: UInt32)
    requires stream.Valid()
    modifies stream.repr
    ensures stream.Valid() && fresh(stream.repr - old(stream.repr))
    ensures stream.Contents() == old(stream.Contents()) + EncodeValue(Float(x))
  {
    var tmpBuf := new Byte[5];
    var valBuf := Fixed(x, 4);
    tmpBuf[0] := 7;
    tmpBuf[1] := valBuf[0];
    tmpBuf[2] := valBuf[1];
    tmpBuf[3] := valBuf[2];
    tmpBuf[4] := valBuf[3];
    assert tmpBuf[0..5] == [7] + valBuf;
    stream.Write(tmpBuf, 0, 5);
  }

  method WriteDouble(stream: ByteStream, x: UInt64)
    requires stream.Valid()
    modifies stream.repr
    ensures stream.Valid() && fresh(stream.repr - old(stream.repr))
    ensures stream.Contents() == old(stream.Contents()) + EncodeValue(Double(x))
  {
    hide Fixed, ByteStream.Valid, ByteStream.Contents, ByteStream.Joined, EncodeValue;
    var tmpBuf := new Byte[9];
    var valBuf := Fixed(x, 8);
    tmpBuf[0] := 8;
    tmpBuf[1] := valBuf[0];
    tmpBuf[2] := valBuf[1];
    tmpBuf[3] := valBuf[2];
    tmpBuf[4] := valBuf[3];
    tmpBuf[5] := valBuf[4];
    tmpBuf[6] := valBuf[5];
    tmpBuf[7] := valBuf[6];
    tmpBuf[8] := valBuf[7];
    DoubleBytes(x, tmpBuf[0..9]);
    stream.Write(tmpBuf, 0, 9);
  }

  lemma DoubleBytes(x: UInt64, s: Bytes)
    requires |s| == 9 && s[0] == 8
    requires var b := Fixed(x, 8);
             s[1] == b[0] && s[2] == b[1] && s[3] == b[2] && s[4] == b[3] && s[5] == b[4] && s[6] == b[5] && s[7] == b[6] && s[8] == b[7]
    ensures s == EncodeValue(Double(x))
  {
    hide Fixed;
    var b := Fixed(x, 8);
    forall i | 0 <= i < 8 ensures s[i + 1] == b[i] {
    }
    assert s == [8] + b;
  }

  /** Which values can be written: strings and blobs of less than 8192 bytes, and the times of
      the 376200 days from 1970 to 2999, among them all that the server takes. */
  lemma WhatCanBeWritten(v: DBVal)
    ensures Writable(v) <==> (v.String? || v.Blob? ==> |v.bytes| < 8192)
                             && (v.DateTime? ==> v.ts >= 0 && v.ts / 86_400_000_000 < 376200)
    ensures v.DateTime? && MIN_MICROSECOND <= v.ts <= MAX_MICROSECOND ==> Writable(v)
  {
  }

  /** The client writes times that the server takes for invalid: those of 31 December 2999. */
  lemma LastDay(ts: Int64)
    ensures Writable(DateTime(ts)) && !(MIN_MICROSECOND <= ts <= MAX_MICROSECOND)
       <==> 376199 <= ts / MICROSECONDS_PER_DAY < 376200
  {
  }

  method WriteDatetime(stream: ByteStream, ts: Int64) returns (ok: bool)
    requires stream.Valid()
    modifies stream.repr
    ensures stream.Valid() && fresh(stream.repr - old(stream.repr))
    ensures ok == Writable(DateTime(ts))
    ensures stream.Contents() == if ok then old(stream.Contents()) + EncodeValue(DateTime(ts)) else old(stream.Contents())
  {
    if ts >= YEAR_3000 {
      return false;
    }
    if ts < 0 {
      return false;
    }
    WriteVarint(stream, 6, ts);
    return true;
  }

  /** WriteString and WriteBlob. Below the length limit one continuation byte is enough, so the
      3-byte array holds type and length. */
  method WriteBytes(stream: ByteStream, code: Byte, value: array<Byte>) returns (ok: bool)
    requires stream.Valid() && value !in stream.repr
    modifies stream.repr
    ensures stream.Valid() && fresh(stream.repr - old(stream.repr)) && value[..] == old(value[..])
    ensures ok == (value.Length < MAX_STRING)
    ensures stream.Contents() == old(stream.Contents()) + if ok then [code] + (Varint(value.Length) + value[..]) else []
  {
    hide ByteStream.Valid, ByteStream.Contents;
    var typeBuf := new Byte[3];
    var pos := 0;
    typeBuf[pos] := code;
    pos := pos + 1;
    var uLen: nat := value.Length;
    if uLen >= MAX_STRING {
      return false;
    }
    if uLen >= P7 {
      typeBuf[pos] := uLen % P7 + P7;
      pos := pos + 1;
      uLen := uLen / P7;
    }
    typeBuf[pos] := uLen;
    pos := pos + 1;
    assert typeBuf[0..pos] == [code] + Varint(value.Length);
    stream.Write(typeBuf, 0, pos);
    stream.Write(value, 0, value.Length);
    assert value[0..value.Length] == value[..];
    return true;
  }

  method WriteSeq(stream: ByteStream, code: Byte, s: Bytes) returns (ok: bool)
    requires stream.Valid()
    modifies stream.repr
    ensures stream.Valid() && fresh(stream.repr - old(stream.repr))
    ensures ok == (|s| < MAX_STRING)
    ensures stream.Contents() == old(stream.Contents()) + if ok then [code] + (Varint(|s|) + s) else []
  {
    var value := new Byte[|s|](i requires 0 <= i < |s| => s[i]);
    assert value[..] == s;
    ok := WriteBytes(stream, code, value);
  }

  method WriteValue(stream: ByteStream, v: DBVal) returns (ok: bool)
    requires stream.Valid()
    modifies stream.repr
    ensures stream.Valid() && fresh(stream.repr - old(stream.repr)) && ok == Writable(v)
    ensures ok ==> stream.Contents() == old(stream.Contents()) + EncodeValue(v)
  {
    hide ByteStream.Valid, ByteStream.Contents, Varint, ZigzagEncode64, Fixed;
    ok := true;
    match v
    case Null => WriteNull(stream);
    case Bool(b) => WriteBool(stream, b);
    case Int8(i) => WriteVarint(stream, 2, i);
    case Int16(i) => WriteVarint(stream, 3, i);
    case Int32(i) => WriteVarint(stream, 4, i);
    case Int64(i) => WriteVarint(stream, 5, i);
    case Float(x) => WriteFloat(stream, x);
    case Double(x) => WriteDouble(stream, x);
    case DateTime(ts) => ok := WriteDatetime(stream, ts);
    case String(s) => ok := WriteSeq(stream, 9, s);
    case Blob(s) => ok := WriteSeq(stream, 10, s);
  }

  ghost predicate RowWritable(row: Row) {
    forall i :: 0 <= i < |row| ==> Writable(row[i])
  }

  method WriteRow(stream: ByteStream, row: Row) returns (ok: bool)
    requires stream.Valid()
    modifies stream.repr
    ensures stream.Valid() && fresh(stream.repr - old(stream.repr)) && (ok <==> RowWritable(row))
    ensures ok ==> stream.Contents() == old(stream.Contents()) + EncodeRow(row)
  {
    hide ByteStream.Valid, ByteStream.Contents, EncodeValue, Writable;
    ghost var before := stream.Contents();
    for i := 0 to |row|
      invariant stream.Valid() && fresh(stream.repr - old(stream.repr))
      invariant forall j :: 0 <= j < i ==> Writable(row[j])
      invariant stream.Contents() == before + EncodeRow(row[..i])
    {
      assert row[..i + 1][..i] == row[..i];
      ok := WriteValue(stream, row[i]);
      if !ok {
        return false;
      }
      assert before + EncodeRow(row[..i]) + EncodeValue(row[i]) == before + (EncodeRow(row[..i]) + EncodeValue(row[i]));
    }
    assert row[..|row|] == row;
    return true;
  }

  ghost predicate TableWritable(rows: seq<Row>) {
    forall i :: 0 <= i < |rows| ==> RowWritable(rows[i])
  }

  /** The loops of MakeInsertTableRequestPacket over the rows. */
  method WriteRows(stream: ByteStream, rows: seq<Row>) returns (ok: bool)
    requires stream.Valid()
    modifies stream.repr
    ensures stream.Valid() && fresh(stream.repr - old(stream.repr)) && (ok <==> TableWritable(rows))
    ensures ok ==> stream.Contents() == old(stream.Contents()) + EncodeRows(rows)
  {
    hide ByteStream.Valid, ByteStream.Contents, EncodeRow, RowWritable;
    ghost var before := stream.Contents();
    for i := 0 to |rows|
      invariant stream.Valid() && fresh(stream.repr - old(stream.repr))
      invariant forall j :: 0 <= j < i ==> RowWritable(rows[j])
      invariant stream.Contents() == before + EncodeRows(rows[..i])
    {
      assert rows[..i + 1][..i] == rows[..i];
      ok := WriteRow(stream, rows[i]);
      if !ok {
        return false;
      }
      assert before + EncodeRows(rows[..i]) + EncodeRow(rows[i]) == before + (EncodeRows(rows[..i]) + EncodeRow(rows[i]));
    }
    assert rows[..|rows|] == rows;
    return true;
  }

  /** The packet: room for the head, then table name, column names and rows, flattened from
      the chunks. Fails exactly on a value that cannot be written. */
  method MakePacket(headLen: nat, names: Row, rows: seq<Row>) returns (packet: array?<Byte>)
    requires forall i :: 0 <= i < |names| ==> names[i].String?
    ensures packet != null <==> RowWritable(names) && TableWritable(rows)
    ensures packet != null ==> fresh(packet) && packet[..] == seq(headLen, _ => 0) + (EncodeRow(names) + EncodeRows(rows))
  {
    hide ByteStream.Contents, EncodeRow, EncodeRows, RowWritable, TableWritable, ByteStream.Joined;
    var stream := new ByteStream();
    var ok := WriteRow(stream, names);
    if !ok {
      return null;
    }
    ok := WriteRows(stream, rows);
    if !ok {
      return null;
    }
    ghost var body := EncodeRow(names) + EncodeRows(rows);
    assert stream.Contents() == body;
    var bodyLen := stream.GetTotalLen();
    packet := new Byte[headLen + bodyLen](_ => 0);
    assert packet[..headLen] == seq(headLen, _ => 0) && packet[headLen + bodyLen..] == [];
    ok := stream.Read(packet, headLen);
    if stream.bufList == [] {
      stream.Empty();
    }
  }
}
