/** The two clients that read query results: the .NET client (Read* of IntTool.cs, GetRecord and
    the row loop of DecodePacket in PDBCommand.cs) and the C++ client (ParseTrans of
    pdb_csdk/db_obj.cpp). Both accept more than the format allows, differently; on everything
    the format defines they return what the format says. None is an exception, an error
    return, or a read behind the buffer. */
module WireReaders {
  import opened Coding
  import opened DbValue
  import opened WireFormat

  // ---------------------------------------------------------------- .NET: varints

  /** The weight of the first four bytes of a varint. */
  function Scale(k: nat): nat {
    if k == 0 then 1 else if k == 1 then 0x80 else if k == 2 then 0x4000 else 0x20_0000
  }

  lemma ScaleIs(k: nat)
    requires k < 4
    ensures Scale(k) == Pow2(7 * k)
  {
    Scales();
  }

  /** Byte k, with `acc` collected before it. */
  lemma OneByte(buf: Bytes, p: nat, k: nat, acc: nat)
    requires p < |buf| && k < 4 && acc < Scale(k)
    ensures var d: nat := buf[p] % P7; var next := acc + d * Scale(k);
            && next < P7 * Scale(k)
            && DecodeVarint(buf, p, 7 * k, acc, 28, P32)
            == if buf[p] >= P7 then DecodeVarint(buf, p + 1, 7 * k + 7, next, 28, P32) else Some((next, p + 1))
  {
    hide DecodeVarint, Pow2;
    ScaleIs(k);
    var d: nat := buf[p] % P7;
    DecodeStep(buf, p, 7 * k, acc, 28, P32, d * Scale(k));
  }

  /** The fifth byte is the last one. */
  lemma FifthByte(buf: Bytes, p: nat, acc: nat)
    requires p < |buf|
    ensures DecodeVarint(buf, p, 28, acc, 28, P32)
         == if buf[p] >= P7 then None else Some(((acc + 0x1000_0000 * (buf[p] as nat)) % P32, p + 1))
  {
    Scales();
  }

  lemma Scales()
    ensures Pow2(0) == 1 && Pow2(7) == 0x80 && Pow2(14) == 0x4000 && Pow2(21) == 0x20_0000 && Pow2(28) == 0x1000_0000
  {
    assert Pow2(7) == 0x80;
    Pow2Add(7, 7);
    Pow2Add(14, 7);
    Pow2Add(21, 7);
  }

  /** One more byte of the number: `spec` is what the format makes of the whole. */
  ghost predicate Collected(buf: Bytes, p: nat, k: nat, acc: nat, spec: Option<(nat, nat)>) {
    p <= |buf| && acc < P32 && (k < 4 ==> acc < Scale(k)) && DecodeVarint(buf, p, 7 * k, acc, 28, P32) == spec
  }

  lemma Ended(buf: Bytes, p: nat, k: nat, acc: nat, spec: Option<(nat, nat)>)
    requires Collected(buf, p, k, acc, spec) && p == |buf|
    ensures spec == None
  {
  }

  lemma Collect(buf: Bytes, p: nat, k: nat, acc: nat, spec: Option<(nat, nat)>)
    requires Collected(buf, p, k, acc, spec) && p < |buf| && k < 4
    ensures buf[p] >= P7 ==> Collected(buf, p + 1, k + 1, acc + Scale(k) * (buf[p] % P7), spec)
    ensures buf[p] < P7 ==> spec == Some((acc + Scale(k) * buf[p], p + 1))
  {
    hide DecodeVarint;
    OneByte(buf, p, k, acc);
  }

  /** ReadRawVarint32: five bytes by nested branches; of a longer encoding up to five more bytes
      are skipped. */
  method ReadRawVarint32(buf: Bytes, offset: nat) returns (r: Option<(UInt32, nat)>)
    requires offset <= |buf|
    ensures r.Some? ==> offset < r.value.1 <= |buf|
    ensures DecodeVarint32(buf, offset).Some? ==> r == DecodeVarint32(buf, offset)
  {
    hide DecodeVarint, Collected;
    ghost var spec: Option<(nat, nat)> := DecodeVarint(buf, offset, 0, 0, 28, P32);
    CollectStart(buf, offset);
    var p := offset;
    if p == |buf| {
      Ended(buf, p, 0, 0, spec);
      return None;
    }
    Collect(buf, p, 0, 0, spec);
    var tmp: nat := buf[p];
    p := p + 1;
    if tmp < 128 {
      return Some((tmp, p));
    }
    var result: nat := tmp % 128;
    if p == |buf| {
      Ended(buf, p, 1, result, spec);
      return None;
    }
    Collect(buf, p, 1, result, spec);
    tmp := buf[p];
    p := p + 1;
    if tmp < 128 {
      result := result + 0x80 * tmp;
    } else {
      result := result + 0x80 * (tmp % 128);
      if p == |buf| {
        Ended(buf, p, 2, result, spec);
        return None;
      }
      Collect(buf, p, 2, result, spec);
      tmp := buf[p];
      p := p + 1;
      if tmp < 128 {
        result := result + 0x4000 * tmp;
      } else {
        result := result + 0x4000 * (tmp % 128);
        if p == |buf| {
          Ended(buf, p, 3, result, spec);
          return None;
        }
        Collect(buf, p, 3, result, spec);
        tmp := buf[p];
        p := p + 1;
        if tmp < 128 {
          result := result + 0x20_0000 * tmp;
        } else {
          result := result + 0x20_0000 * (tmp % 128);
          r := ReadFifthByte(buf, p, result, spec);
          return;
        }
      }
    }
    InRange32(buf, offset, spec, result, p);
    return Some((result, p));
  }

  lemma CollectStart(buf: Bytes, offset: nat)
    requires offset <= |buf|
    ensures Collected(buf, offset, 0, 0, DecodeVarint(buf, offset, 0, 0, 28, P32))
  {
  }

  lemma InRange32(buf: Bytes, offset: nat, spec: Option<(nat, nat)>, result: nat, p: nat)
    requires offset <= |buf| && spec == DecodeVarint(buf, offset, 0, 0, 28, P32) == Some((result, p))
    ensures result < P32 && offset < p <= |buf|
  {
  }

  /** The innermost branch. */
  method ReadFifthByte(buf: Bytes, offset: nat, acc: nat, ghost spec: Option<(nat, nat)>) returns (r: Option<(UInt32, nat)>)
    requires Collected(buf, offset, 4, acc, spec)
    ensures r.Some? ==> offset < r.value.1 <= |buf|
    ensures spec.Some? ==> r == spec
  {
    hide DecodeVarint;
    var p := offset;
    if p == |buf| {
      Ended(buf, p, 4, acc, spec);
      return None;
    }
    FifthByte(buf, p, acc);
    var tmp: nat := buf[p];
    p := p + 1;
    var result := (acc + 0x1000_0000 * tmp) % P32;
    if tmp >= 128 {
      for i := 0 to 5
        invariant offset < p <= |buf|
      {
        if p == |buf| {
          return None;
        }
        p := p + 1;
        if buf[p - 1] < 128 {
          return Some((result, p));
        }
      }
    }
    return Some((result, p));
  }

  /** ReadRawVarint64: a tenth continuation byte ends the number instead of failing. */
  method ReadRawVarint64(buf: Bytes, offset: nat) returns (r: Option<(UInt64, nat)>)
    requires offset <= |buf|
    ensures r.Some? ==> offset < r.value.1 <= |buf|
    ensures DecodeVarint64(buf, offset).Some? ==> r == DecodeVarint64(buf, offset)
  {
    hide Pow2;
    var shift, p: nat, result: nat := 0, offset, 0;
    while shift < 64
      invariant offset <= p <= |buf| && 0 <= shift <= 70 && (shift > 0 ==> offset < p) && result < P64
      invariant DecodeVarint64(buf, offset) == DecodeVarint(buf, p, shift, result, 63, P64)
    {
      if p == |buf| {
        return None;
      }
      var b := buf[p];
      p := p + 1;
      result := (result + b % P7 * Pow2(shift)) % P64;
      if b < P7 {
        return Some((result, p));
      }
      shift := shift + 7;
    }
    return Some((result, p));
  }

  // ---------------------------------------------------------------- .NET: values

  /** Convert.ToSByte and so on: an overflow is an exception. */
  function Converted(t: FieldType, x: Int64): Option<DBVal> {
    if IntOf(MakeInt(t, x)) == x then Some(MakeInt(t, x)) else None
  }

  method GetInt(t: FieldType, buf: Bytes, offset: nat) returns (r: Option<(DBVal, nat)>)
    requires offset <= |buf|
    ensures r.Some? ==> offset < r.value.1 <= |buf|
    ensures ReadInt(t, buf, offset).Some? ==> r == ReadInt(t, buf, offset)
  {
    hide DecodeVarint, ZigzagDecode64;
    var raw := ReadRawVarint64(buf, offset);
    if raw.None? {
      return None;
    }
    var v := Converted(t, ZigzagDecode64(raw.value.0));
    if v.None? {
      return None;
    }
    return Some((v.value, raw.value.1));
  }

  method GetBytes(buf: Bytes, offset: nat) returns (r: Option<(Bytes, nat)>)
    requires offset <= |buf|
    ensures r.Some? ==> offset < r.value.1 <= |buf|
    ensures DecodeBytes(buf, offset).Some? ==> r == DecodeBytes(buf, offset)
  {
    hide DecodeVarint;
    var len := ReadRawVarint32(buf, offset);
    if len.None? {
      return None;
    }
    var (valLen, p) := len.value;
    if valLen >= 0x8000_0000 || p + valLen > |buf| {
      return None;
    }
    return Some((buf[p..p + valLen], p + valLen));
  }

  method GetStoreData(buf: Bytes, offset: nat, valType: UInt32) returns (r: Option<(DBVal, nat)>)
    requires 0 < offset <= |buf|
    ensures r.Some? ==> offset <= r.value.1 <= |buf|
    ensures valType == buf[offset - 1] && ReadValue(buf, offset - 1).Some? ==> r == ReadValue(buf, offset - 1)
  {
    hide ReadInt, DecodeBytes, FixedDecode;
    match valType {
      case 0 => return Some((Null, offset));
      case 1 =>
        if offset == |buf| {
          return None;
        }
        return Some((Bool(buf[offset] != 0), offset + 1));
      case 2 => r := GetInt(TInt8, buf, offset);
      case 3 => r := GetInt(TInt16, buf, offset);
      case 4 => r := GetInt(TInt32, buf, offset);
      case 5 => r := GetInt(TInt64, buf, offset);
      case 6 => r := GetInt(TDateTime, buf, offset);
      case 7 =>
        if offset + 4 > |buf| {
          return None;
        }
        return Some((Float(FixedDecode(buf[offset..offset + 4]) % P32), offset + 4));
      case 8 =>
        if offset + 8 > |buf| {
          return None;
        }
        return Some((Double(FixedDecode(buf[offset..offset + 8]) % P64), offset + 8));
      case 9 =>
        var s := GetBytes(buf, offset);
        if s.None? {
          return None;
        }
        return Some((String(s.value.0), s.value.1));
      case 10 =>
        var s := GetBytes(buf, offset);
        if s.None? {
          return None;
        }
        return Some((Blob(s.value.0), s.value.1));
      case _ => return Some((Null, offset));
    }
  }

  lemma SmallType(buf: Bytes, p: nat)
    requires p < |buf| && buf[p] < P7
    ensures DecodeVarint32(buf, p) == Some((buf[p] as UInt32, p + 1))
  {
    assert Pow2(0) == 1;
  }

  /** GetRecord: the type is read as a varint. */
  method GetRecord(fieldCnt: nat, buf: Bytes, offset: nat) returns (r: Option<(Row, nat)>)
    requires offset <= |buf|
    ensures r.Some? ==> |r.value.0| == fieldCnt && offset <= r.value.1 <= |buf| && (fieldCnt > 0 ==> offset < r.value.1)
    ensures ReadRow(buf, offset, fieldCnt).Some? ==> r == ReadRow(buf, offset, fieldCnt)
  {
    hide DecodeVarint, ReadValue;
    var row: Row, p := [], offset;
    for i := 0 to fieldCnt
      invariant |row| == i && offset <= p <= |buf| && (i > 0 ==> offset < p)
      invariant ReadRow(buf, offset, i).Some? ==> ReadRow(buf, offset, i) == Some((row, p))
    {
      RowPrefix(buf, offset, i, fieldCnt);
      RowPrefix(buf, offset, i + 1, fieldCnt);
      ValueStarts(buf, p);
      var valType := ReadRawVarint32(buf, p);
      if valType.None? {
        return None;
      }
      var obj := GetStoreData(buf, valType.value.1, valType.value.0);
      if obj.None? {
        return None;
      }
      row, p := row + [obj.value.0], obj.value.1;
    }
    return Some((row, p));
  }

  /** A value starts with its type in one byte. */
  lemma ValueStarts(buf: Bytes, p: nat)
    requires p <= |buf|
    ensures ReadValue(buf, p).Some? ==> p < |buf| && DecodeVarint32(buf, p) == Some((buf[p] as UInt32, p + 1))
  {
    hide DecodeVarint;
    if ReadValue(buf, p).Some? { SmallType(buf, p); }
  }

  /** A row that can be read begins with rows that can be read. */
  lemma {:induction false} RowPrefix(buf: Bytes, p: nat, k: nat, n: nat)
    requires p <= |buf| && k <= n
    ensures ReadRow(buf, p, n).Some? ==> ReadRow(buf, p, k).Some?
  {
    hide ReadValue;
    if k < n { RowPrefix(buf, p, k, n - 1); }
  }

  /** The row loop of DecodePacket: everything up to the end of the packet. Without columns no
      byte may be left, and no row is seen. */
  method DecodeRows(fieldCnt: nat, packet: Bytes, offset: nat, ghost n: nat) returns (r: Option<seq<Row>>)
    requires offset <= |packet| && (fieldCnt == 0 ==> offset == |packet|)
    ensures fieldCnt > 0 && ReadRows(packet, offset, fieldCnt, n).Some? && ReadRows(packet, offset, fieldCnt, n).value.1 == |packet| ==>
              r == Some(ReadRows(packet, offset, fieldCnt, n).value.0)
    ensures offset == |packet| ==> r == Some([])
  {
    hide ReadRow;
    var rows: seq<Row>, p := [], offset;
    while p < |packet|
      invariant offset <= p <= |packet| && (offset == |packet| ==> rows == [])
      invariant ReadRows(packet, offset, fieldCnt, n).Some? && ReadRows(packet, offset, fieldCnt, n).value.1 == |packet| ==>
                  |rows| <= n && ReadRows(packet, offset, fieldCnt, |rows|) == Some((rows, p))
      decreases |packet| - p
    {
      if ReadRows(packet, offset, fieldCnt, n).Some? && ReadRows(packet, offset, fieldCnt, n).value.1 == |packet| {
        RowsPrefix(packet, offset, fieldCnt, |rows| + 1, n);
      }
      var rec := GetRecord(fieldCnt, packet, p);
      if rec.None? {
        return None;
      }
      rows, p := rows + [rec.value.0], rec.value.1;
    }
    if fieldCnt > 0 && ReadRows(packet, offset, fieldCnt, n).Some? && ReadRows(packet, offset, fieldCnt, n).value.1 == |packet| {
      RowsEnd(packet, offset, fieldCnt, |rows|, n);
    }
    return Some(rows);
  }

  /** Without columns no number of rows moves the offset: with bytes left, the loop does not end. */
  lemma {:induction false} StandsStill(buf: Bytes, p: nat, n: nat)
    requires p <= |buf|
    ensures ReadRows(buf, p, 0, n).Some? && ReadRows(buf, p, 0, n).value.1 == p
  {
    if n > 0 { StandsStill(buf, p, n - 1); }
  }

  /** With columns every row does. */
  lemma RowAdvances(buf: Bytes, p: nat, cnt: nat)
    requires p <= |buf| && ReadRow(buf, p, cnt).Some?
    ensures ReadRow(buf, p, cnt).value.1 > p <==> cnt > 0
  {
  }

  lemma {:induction false} RowsPrefix(buf: Bytes, p: nat, cnt: nat, k: nat, n: nat)
    requires p <= |buf| && k <= n
    ensures ReadRows(buf, p, cnt, n).Some? ==> ReadRows(buf, p, cnt, k).Some?
  {
    hide ReadRow;
    if k < n { RowsPrefix(buf, p, cnt, k, n - 1); }
  }

  /** Rows of at least one column cannot be read behind the end. */
  lemma {:induction false} RowsEnd(buf: Bytes, p: nat, cnt: nat, k: nat, n: nat)
    requires p <= |buf| && cnt > 0 && k <= n
    requires ReadRows(buf, p, cnt, k).Some? && ReadRows(buf, p, cnt, k).value.1 == |buf|
    requires ReadRows(buf, p, cnt, n).Some?
    ensures k == n
  {
    hide ReadRow;
    if k < n { RowsPrefix(buf, p, cnt, n - 1, n); RowsEnd(buf, p, cnt, k, n - 1); }
  }

  // ---------------------------------------------------------------- C++

  /** static_cast to the narrower type drops the high bits. */
  method ParseInt(t: FieldType, data: Bytes, p: nat) returns (r: Option<(DBVal, nat)>)
    requires p <= |data|
    ensures r.Some? ==> p < r.value.1 <= |data|
    ensures ReadInt(t, data, p).Some? ==> r == ReadInt(t, data, p)
  {
    hide DecodeVarint, ZigzagDecode64;
    var v64 := VarintDecode(data, p, 63, P64);
    if v64.None? {
      return None;
    }
    return Some((MakeInt(t, ZigzagDecode64(v64.value.0)), v64.value.1));
  }

  method ParseBytes(data: Bytes, p: nat) returns (r: Option<(Bytes, nat)>)
    requires p <= |data|
    ensures r.Some? ==> p < r.value.1 <= |data|
    ensures DecodeBytes(data, p).Some? ==> r == DecodeBytes(data, p)
  {
    hide DecodeVarint;
    var v32 := VarintDecode(data, p, 28, P32);
    if v32.None? || v32.value.1 + v32.value.0 > |data| {
      return None;
    }
    var (len, q) := v32.value;
    return Some((data[q..q + len], q + len));
  }

  class DBObj {
    var fieldVec: Row

    constructor ()
      ensures fieldVec == []
    {
      fieldVec := [];
    }

    method ParseValue(data: Bytes, p: nat) returns (r: Option<nat>)
      requires p <= |data|
      modifies this
      ensures r.Some? ==> p < r.value <= |data| && |fieldVec| == |old(fieldVec)| + 1
      ensures ReadValue(data, p).Some? ==>
                fieldVec == old(fieldVec) + [ReadValue(data, p).value.0] && r == Some(ReadValue(data, p).value.1)
    {
      hide ReadInt, DecodeBytes, FixedDecode, HasType;
      if p == |data| {
        return None;
      }
      var vType, q := data[p], p + 1;
      var v := Null;
      match vType {
        case 0 => r := Some(q);
        case 1 =>
          if q == |data| {
            return None;
          }
          v := Bool(data[q] == 1);
          r := Some(q + 1);
        case 2 => v, r := IntParsed(TInt8, data, q);
        case 3 => v, r := IntParsed(TInt16, data, q);
        case 4 => v, r := IntParsed(TInt32, data, q);
        case 5 => v, r := IntParsed(TInt64, data, q);
        case 6 => v, r := IntParsed(TDateTime, data, q);
        case 7 =>
          if q + 4 > |data| {
            return None;
          }
          v := Float(FixedDecode(data[q..q + 4]) % P32);
          r := Some(q + 4);
        case 8 =>
          if q + 8 > |data| {
            return None;
          }
          v := Double(FixedDecode(data[q..q + 8]) % P64);
          r := Some(q + 8);
        case 9 =>
          var s := ParseBytes(data, q);
          if s.None? {
            return None;
          }
          v := String(s.value.0);
          r := Some(s.value.1);
        case 10 =>
          var s := ParseBytes(data, q);
          if s.None? {
            return None;
          }
          v := Blob(s.value.0);
          r := Some(s.value.1);
        case _ => return None;
      }
      if r.Some? {
        fieldVec := fieldVec + [v];
      }
    }

    static method IntParsed(t: FieldType, data: Bytes, p: nat) returns (v: DBVal, r: Option<nat>)
      requires p <= |data|
      ensures r.Some? ==> p < r.value <= |data|
      ensures ReadInt(t, data, p).Some? ==> v == ReadInt(t, data, p).value.0 && r == Some(ReadInt(t, data, p).value.1)
    {
      hide ReadInt;
      var parsed := ParseInt(t, data, p);
      if parsed.None? {
        return Null, None;
      }
      return parsed.value.0, Some(parsed.value.1);
    }

    /** The values of one record replace the contents of the object. */
    method ParseTrans(fieldCnt: nat, data: Bytes, offset: nat) returns (r: Option<nat>)
      requires offset <= |data|
      modifies this
      ensures r.Some? ==> |fieldVec| == fieldCnt && offset <= r.value <= |data|
      ensures ReadRow(data, offset, fieldCnt).Some? ==>
                fieldVec == ReadRow(data, offset, fieldCnt).value.0 && r == Some(ReadRow(data, offset, fieldCnt).value.1)
    {
      hide ReadValue;
      fieldVec := [];
      var p := offset;
      for i := 0 to fieldCnt
        invariant |fieldVec| == i && offset <= p <= |data|
        invariant ReadRow(data, offset, i).Some? ==> ReadRow(data, offset, i) == Some((fieldVec, p))
      {
        RowPrefix(data, offset, i, fieldCnt);
        RowPrefix(data, offset, i + 1, fieldCnt);
        var next := ParseValue(data, p);
        if next.None? {
          return None;
        }
        p := next.value;
      }
      return Some(p);
    }
  }

  /** Record after record with the C++ client. */
  method ParseRows(fieldCnt: nat, data: Bytes, offset: nat, n: nat) returns (r: Option<(seq<Row>, nat)>)
    requires offset <= |data|
    ensures ReadRows(data, offset, fieldCnt, n).Some? ==> r == ReadRows(data, offset, fieldCnt, n)
  {
    hide ReadRow;
    var rows: seq<Row>, p := [], offset;
    var obj := new DBObj();
    for i := 0 to n
      invariant offset <= p <= |data|
      invariant ReadRows(data, offset, fieldCnt, i).Some? ==> ReadRows(data, offset, fieldCnt, i) == Some((rows, p))
    {
      RowsPrefix(data, offset, fieldCnt, i, n);
      RowsPrefix(data, offset, fieldCnt, i + 1, n);
      var next := obj.ParseTrans(fieldCnt, data, p);
      if next.None? {
        return None;
      }
      rows, p := rows + [obj.fieldVec], next.value;
    }
    return Some((rows, p));
  }
}
