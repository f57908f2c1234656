/** The Decode*Vals members of storage/comp_data_part.cpp: loops that fill an array of values
    forwards (IsAsc) or from its end backwards. Where the C++ would read behind a malformed
    payload the model reports failure. */
module ColumnDecoder {
  import opened Coding
  import opened DbValue
  import opened ColumnCodec

  function Reverse<T>(s: seq<T>): (r: seq<T>)
    ensures |r| == |s|
    ensures forall i :: 0 <= i < |s| ==> r[i] == s[|s| - 1 - i]
  {
    if s == [] then [] else [s[|s| - 1]] + Reverse(s[..|s| - 1])
  }

  function Oriented<T>(isAsc: bool, s: seq<T>): seq<T> {
    if isAsc then s else Reverse(s)
  }

  /** Ascending order is that of the block, descending order the reverse. */
  lemma OrientedIs<T>(s: seq<T>, i: nat)
    requires i < |s|
    ensures Oriented(true, s) == s && |Oriented(false, s)| == |s| && Oriented(false, s)[i] == s[|s| - 1 - i]
  {
  }

  /** Where pVal points for the k-th decoded value. */
  function Slot(isAsc: bool, n: nat, k: nat): int {
    if isAsc then k else n - 1 - k
  }

  ghost predicate Filled(t: FieldType, vals: seq<DBVal>, isAsc: bool, prev: seq<DBVal>) {
    && |prev| <= |vals|
    && forall k :: 0 <= k < |prev| ==> vals[Slot(isAsc, |vals|, k)] == Cast(t, prev[k])
  }

  /** Progress of a decoding loop: the values read so far, where the next one starts, and
      the slots of the array they were stored in. */
  ghost predicate Progress(t: FieldType, isAsc: bool, buf: Bytes, vals: seq<DBVal>, prev: seq<DBVal>, p: nat) {
    && DecodeColumn(t, buf, |prev|) == Some((prev, p))
    && Filled(t, vals, isAsc, prev)
  }

  /** What a decoder of type t must leave behind. */
  ghost predicate Decoded(t: FieldType, isAsc: bool, buf: Bytes, vals: seq<DBVal>, ok: bool) {
    match DecodeBlock(t, buf, |vals|)
    case None => !ok
    case Some(column) => ok && vals == Oriented(isAsc, column)
  }

  lemma {:induction false} FailureStays(t: FieldType, buf: Bytes, k: nat, n: nat)
    requires k <= n && DecodeColumn(t, buf, k).None?
    ensures DecodeColumn(t, buf, n).None?
  {
    if k < n { FailureStays(t, buf, k, n - 1); }
  }

  /** The loop stops early on a value that cannot be read. */
  lemma Stopped(t: FieldType, isAsc: bool, buf: Bytes, vals: seq<DBVal>, prev: seq<DBVal>, p: nat)
    requires Progress(t, isAsc, buf, vals, prev, p) && |prev| < |vals|
    requires DecodeValue(t, prev, buf, p).None?
    ensures Decoded(t, isAsc, buf, vals, false)
  {
    FailureStays(t, buf, |prev| + 1, |vals|);
  }

  /** Storing the next value in its slot is progress. */
  lemma Advance(t: FieldType, isAsc: bool, buf: Bytes, vals: seq<DBVal>, prev: seq<DBVal>, p: nat, v: DBVal, q: nat)
    requires Progress(t, isAsc, buf, vals, prev, p) && |prev| < |vals|
    requires DecodeValue(t, prev, buf, p) == Some((v, q))
    ensures Progress(t, isAsc, buf, vals[Slot(isAsc, |vals|, |prev|) := Cast(t, v)], prev + [v], q)
  {
    hide DecodeValue, Cast;
  }

  lemma Finished(t: FieldType, isAsc: bool, buf: Bytes, vals: seq<DBVal>, prev: seq<DBVal>, p: nat)
    requires Progress(t, isAsc, buf, vals, prev, p) && |prev| == |vals|
    ensures Decoded(t, isAsc, buf, vals, true)
  {
    hide DecodeColumn, Cast, Filled, Oriented, Reverse;
    var column := DecodeBlock(t, buf, |vals|).value;
    forall i | 0 <= i < |vals|
      ensures |Oriented(isAsc, column)| == |vals| && Oriented(isAsc, column)[i] == vals[i]
    {
      var k := Slot(isAsc, |vals|, i);
      FilledAt(t, vals, isAsc, prev, k);
      OrientedAt(isAsc, column, i);
    }
    OrientedSize(isAsc, column);
  }

  lemma FilledAt(t: FieldType, vals: seq<DBVal>, isAsc: bool, prev: seq<DBVal>, k: nat)
    requires Filled(t, vals, isAsc, prev) && k < |prev|
    ensures vals[Slot(isAsc, |vals|, k)] == Cast(t, prev[k])
  {
  }

  lemma OrientedSize<T>(isAsc: bool, s: seq<T>)
    ensures |Oriented(isAsc, s)| == |s|
  {
  }

  lemma OrientedAt<T>(isAsc: bool, s: seq<T>, i: nat)
    requires i < |s|
    ensures |Oriented(isAsc, s)| == |s| && Oriented(isAsc, s)[i] == s[Slot(isAsc, |s|, i)]
  {
  }

  method DecodeBoolVals(isAsc: bool, vals: array<DBVal>, buf: Bytes) returns (ok: bool)
    modifies vals
    ensures Decoded(TBool, isAsc, buf, vals[..], ok)
  {
    var n := vals.Length;
    if (n + 7) / 8 > |buf| {
      assert DecodeColumn(TBool, buf, 8 * |buf| + 1).None?;
      FailureStays(TBool, buf, 8 * |buf| + 1, n);
      return false;
    }
    ghost var prev := [];
    for idx := 0 to n
      invariant |prev| == idx && Progress(TBool, isAsc, buf, vals[..], prev, 0)
    {
      var v := Bool(BitmapHas(buf, idx));
      Advance(TBool, isAsc, buf, vals[..], prev, 0, v, 0);
      vals[Slot(isAsc, n, idx)] := v;
      prev := prev + [v];
    }
    Finished(TBool, isAsc, buf, vals[..], prev, 0);
    return true;
  }

  /** One integer: where the loop state then stands. */
  lemma AdvanceInt(t: FieldType, isAsc: bool, buf: Bytes, vals: seq<DBVal>, prev: seq<DBVal>, p: nat, curVal: Int64, u: UInt64, q: nat)
    requires IsIntType(t) && Progress(t, isAsc, buf, vals, prev, p) && |prev| < |vals|
    requires DecodeVarint64(buf, p) == Some((u, q)) && curVal == IntFromToken(prev, ZigzagDecode64(u))
    ensures var done := prev + [Int64(curVal)];
            Progress(t, isAsc, buf, vals[Slot(isAsc, |vals|, |prev|) := MakeInt(t, curVal)], done, q)
            && PreVal(done) == curVal && PreDelta(done) == if prev == [] then 0 else Wrap64(curVal - PreVal(prev))
  {
    hide DecodeVarint, Wrap64, IntFromToken, DecodeColumn, PreVal, PreDelta;
    Advance(t, isAsc, buf, vals, prev, p, Int64(curVal), q);
    PreviousStep(prev, Int64(curVal));
  }

  lemma StoppedInt(t: FieldType, isAsc: bool, buf: Bytes, vals: seq<DBVal>, prev: seq<DBVal>, p: nat)
    requires IsIntType(t) && Progress(t, isAsc, buf, vals, prev, p) && |prev| < |vals|
    requires DecodeVarint64(buf, p).None?
    ensures Decoded(t, isAsc, buf, vals, false)
  {
    Stopped(t, isAsc, buf, vals, prev, p);
  }

  /** The first value, the second, and a loop for the others. */
  method DecodeIntVals(isAsc: bool, t: FieldType, vals: array<DBVal>, buf: Bytes) returns (ok: bool)
    requires IsIntType(t) && vals.Length > 0
    modifies vals
    ensures Decoded(t, isAsc, buf, vals[..], ok)
  {
    hide DecodeVarint, DecodeColumn, Progress, Decoded, PreVal, PreDelta, Wrap64, IsIntType, MakeInt, ZigzagDecode64;
    var n := vals.Length;
    ghost var prev := [];
    var p: nat := 0;
    NothingRead(t, isAsc, buf, vals[..]);

    var next := VarintDecode(buf, p, 63, P64);
    if next.None? {
      StoppedInt(t, isAsc, buf, vals[..], prev, p);
      return false;
    }
    var curVal := ZigzagDecode64(next.value.0);
    AdvanceInt(t, isAsc, buf, vals[..], prev, p, curVal, next.value.0, next.value.1);
    vals[Slot(isAsc, n, 0)] := MakeInt(t, curVal);
    prev, p := prev + [Int64(curVal)], next.value.1;
    if n == 1 {
      Finished(t, isAsc, buf, vals[..], prev, p);
      return true;
    }

    var preVal := curVal;
    next := VarintDecode(buf, p, 63, P64);
    if next.None? {
      StoppedInt(t, isAsc, buf, vals[..], prev, p);
      return false;
    }
    curVal := Wrap64(preVal + ZigzagDecode64(next.value.0));
    AdvanceInt(t, isAsc, buf, vals[..], prev, p, curVal, next.value.0, next.value.1);
    vals[Slot(isAsc, n, 1)] := MakeInt(t, curVal);
    prev, p := prev + [Int64(curVal)], next.value.1;
    var preDelta := Wrap64(curVal - preVal);
    preVal := curVal;

    for idx := 2 to n
      invariant |prev| == idx && p <= |buf| && Progress(t, isAsc, buf, vals[..], prev, p)
      invariant preVal == PreVal(prev) && preDelta == PreDelta(prev)
    {
      next := VarintDecode(buf, p, 63, P64);
      if next.None? {
        StoppedInt(t, isAsc, buf, vals[..], prev, p);
        return false;
      }
      curVal := Wrap64(preVal + preDelta + ZigzagDecode64(next.value.0));
      AdvanceInt(t, isAsc, buf, vals[..], prev, p, curVal, next.value.0, next.value.1);
      vals[Slot(isAsc, n, idx)] := MakeInt(t, curVal);
      prev, p := prev + [Int64(curVal)], next.value.1;
      preDelta := Wrap64(curVal - preVal);
      preVal := curVal;
    }
    Finished(t, isAsc, buf, vals[..], prev, p);
    return true;
  }

  lemma NothingRead(t: FieldType, isAsc: bool, buf: Bytes, vals: seq<DBVal>)
    ensures Progress(t, isAsc, buf, vals, [], 0)
  {
  }

  /** DecodeFloatVals and DecodeDoubleVals, which differ in the bit format only. */
  method DecodeFloatVals(isAsc: bool, f: FloatFormat, vals: array<DBVal>, buf: Bytes) returns (ok: bool)
    modifies vals
    ensures Decoded(if f.FloatBits? then TFloat else TDouble, isAsc, buf, vals[..], ok)
  {
    hide DecodeVarint, DecodeColumn, Xor;
    var n := vals.Length;
    ghost var t := if f.FloatBits? then TFloat else TDouble;
    ghost var prev := [];
    var p: nat := 0;
    var bits: nat := 0;
    NothingRead(t, isAsc, buf, vals[..]);
    for idx := 0 to n
      invariant |prev| == idx && Progress(t, isAsc, buf, vals[..], prev, p)
      invariant p <= |buf| && bits == PreBits(f, prev)
    {
      if p == |buf| {
        Stopped(t, isAsc, buf, vals[..], prev, p);
        return false;
      }
      var u8 := buf[p];
      var high := Some((0, p + 1));
      if f.More(u8) {
        high := VarintDecode(buf, p + 1, f.MaxShift(), f.Modulus());
        if high.None? {
          Stopped(t, isAsc, buf, vals[..], prev, p);
          return false;
        }
      }
      var tmp := (f.Join(high.value.0, f.Low(u8)) * Pow2(2 * f.Pairs(u8))) % f.Modulus();
      XorBound(bits, tmp, f.Width());
      bits := Xor(bits, tmp);
      var v := if f.FloatBits? then Float(bits) else Double(bits);
      Advance(t, isAsc, buf, vals[..], prev, p, v, high.value.1);
      vals[Slot(isAsc, n, idx)] := v;
      prev, p := prev + [v], high.value.1;
    }
    Finished(t, isAsc, buf, vals[..], prev, p);
    return true;
  }

  /** DecodeBlockVals: length-prefixed strings and blobs. */
  method DecodeBytesVals(isAsc: bool, t: FieldType, vals: array<DBVal>, buf: Bytes) returns (ok: bool)
    requires t.TString? || t.TBlob?
    modifies vals
    ensures Decoded(t, isAsc, buf, vals[..], ok)
  {
    hide DecodeVarint, DecodeColumn;
    var n := vals.Length;
    ghost var prev := [];
    var p: nat := 0;
    NothingRead(t, isAsc, buf, vals[..]);
    for idx := 0 to n
      invariant |prev| == idx && Progress(t, isAsc, buf, vals[..], prev, p)
      invariant p <= |buf|
    {
      var len := VarintDecode(buf, p, 28, P32);
      if len.None? || len.value.1 + len.value.0 > |buf| {
        Stopped(t, isAsc, buf, vals[..], prev, p);
        return false;
      }
      var (u32, q) := len.value;
      var v := if t.TString? then String(buf[q..q + u32]) else Blob(buf[q..q + u32]);
      Advance(t, isAsc, buf, vals[..], prev, p, v, q + u32);
      vals[Slot(isAsc, n, idx)] := v;
      prev, p := prev + [v], q + u32;
    }
    Finished(t, isAsc, buf, vals[..], prev, p);
    return true;
  }
}
