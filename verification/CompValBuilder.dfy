/** The column builders of storage/comp_val_builder.h. The C++ class hierarchy is one class
    that dispatches on fieldType; each branch keeps the loops and fields of its subclass. */
module CompValBuilders {
  import opened Coding
  import opened DbValue
  import opened ColumnCodec

  datatype PdbErr = PdbE_OK | PdbE_VALUE_MISMATCH

  class CompValBuilder {
    const fieldType: FieldType
    var valCnt: nat
    var data: Bytes
    var preVal: Int64     // integer builders
    var preDelta: Int64
    var preBits: nat      // float and double builders
    ghost var vals: seq<DBVal>

    ghost predicate Valid()
      reads this
    {
      && AllStorable(vals, fieldType)
      && valCnt == |vals|
      && data == EncodeColumn(fieldType, vals)
      && (IsIntType(fieldType) ==> preVal == PreVal(vals) && preDelta == PreDelta(vals))
      && (fieldType.TFloat? ==> preBits == PreBits(FloatBits, vals))
      && (fieldType.TDouble? ==> preBits == PreBits(DoubleBits, vals))
    }

    constructor (t: FieldType)
      ensures Valid() && vals == [] && data == [] && fieldType == t
    {
      fieldType := t;
      valCnt, data, preVal, preDelta, preBits := 0, [], 0, 0, 0;
      vals := [];
    }

    method Reset()
      modifies this
      ensures Valid() && vals == [] && data == []
    {
      valCnt, data := 0, [];
      preVal, preDelta, preBits := 0, 0, 0;
      vals := [];
    }

    /** A value of another type is refused and changes nothing. */
    method AppendVal(v: DBVal) returns (r: PdbErr)
      requires Valid()
      requires HasType(v, fieldType) ==> Storable(v, fieldType)
      modifies this
      ensures Valid()
      ensures r == PdbE_OK <==> HasType(v, fieldType)
      ensures vals == old(vals) + if r == PdbE_OK then [v] else []
    {
      hide EncodeColumn, AppendValue, Wrap64, PreVal, PreDelta, PreBits, BitsOf, IntOf;
      if !HasType(v, fieldType) {
        return PdbE_VALUE_MISMATCH;
      }
      EncodeColumnStep(fieldType, vals, v);
      PreviousStep(vals, v);
      AppendData(v);
      valCnt := valCnt + 1;
      vals := vals + [v];
      return PdbE_OK;
    }

    /** The virtual call: each subclass appends to data_ and remembers what it needs. */
    method AppendData(v: DBVal)
      requires Valid() && HasType(v, fieldType)
      modifies this`data, this`preVal, this`preDelta, this`preBits
      ensures data == AppendValue(fieldType, old(data), vals, v)
      ensures IsIntType(fieldType) ==> preVal == IntOf(v)
      ensures IsIntType(fieldType) ==> preDelta == if vals == [] then 0 else Wrap64(IntOf(v) - PreVal(vals))
      ensures fieldType.TFloat? ==> preBits == BitsOf(FloatBits, v)
      ensures fieldType.TDouble? ==> preBits == BitsOf(DoubleBits, v)
    {
      hide EncodeColumn, Token, AppendBit, Wrap64, PreVal, PreDelta, PreBits, BitsOf, IntOf;
      if fieldType.TBool? {
        AppendBool(v.b);
      } else if fieldType.TFloat? {
        AppendBits(FloatBits, v);
      } else if fieldType.TDouble? {
        AppendBits(DoubleBits, v);
      } else if fieldType.TString? || fieldType.TBlob? {
        AppendBytes(v);
      } else {
        AppendInt(v);
      }
    }

    method AppendBool(b: bool)
      requires |data| == (valCnt + 7) / 8
      modifies this`data
      ensures data == AppendBit(old(data), valCnt, b)
    {
      hide SetBit;
      BytePlace(valCnt);
      if valCnt % 8 == 0 {
        data := data + [0];
      }
      if b {
        BitInByte(data[valCnt / 8], 7 - valCnt % 8);
        data := data[valCnt / 8 := SetBit(data[valCnt / 8], 7 - valCnt % 8)];
      }
    }

    method AppendInt(v: DBVal)
      requires Valid() && IsIntType(fieldType) && HasType(v, fieldType)
      modifies this`data, this`preVal, this`preDelta
      ensures data == old(data) + Token(fieldType, vals, v)
      ensures preVal == IntOf(v)
      ensures preDelta == if valCnt == 0 then 0 else Wrap64(IntOf(v) - old(preVal))
    {
      hide EncodeColumn, Varint, Wrap64, ZigzagEncode64, IntOf;
      var curVal := IntOf(v);
      var delta := Wrap64(curVal - preVal);
      if valCnt == 0 {
        data := PutVarint(data, ZigzagEncode64(curVal));
      } else if valCnt == 1 {
        data := PutVarint(data, ZigzagEncode64(delta));
        preDelta := delta;
      } else {
        var doubleDelta := Wrap64(delta - preDelta);
        data := PutVarint(data, ZigzagEncode64(doubleDelta));
        preDelta := delta;
      }
      preVal := curVal;
    }

    method AppendBits(f: FloatFormat, v: DBVal)
      requires Valid() && HasType(v, fieldType)
      requires fieldType == if f.FloatBits? then TFloat else TDouble
      modifies this`data, this`preBits
      ensures data == old(data) + Token(fieldType, vals, v)
      ensures preBits == BitsOf(f, v)
    {
      hide StripZeroPairs, Varint, Xor;
      ghost var x := XorWithPrevious(f, vals, v);
      var curVal := BitsOf(f, v);
      var tmpVal := Xor(curVal, preBits);
      if tmpVal == 0 {
        data := data + [0];
      } else {
        ZeroPairsFit(tmpVal, f.Width());
        var zeroCnt, rest := CountZeroPairs(tmpVal);
        HeaderParts(f, zeroCnt, rest, f.High(rest) > 0);
        if f.High(rest) == 0 {
          data := data + [f.Header(zeroCnt, false, f.Low(rest))];
        } else {
          data := data + [f.Header(zeroCnt, true, f.Low(rest))];
          data := PutVarint(data, f.High(rest));
        }
      }
      preBits := curVal;
    }

    static method CountZeroPairs(x: nat) returns (zeroCnt: nat, tmpVal: nat)
      requires x > 0
      ensures (zeroCnt, tmpVal) == StripZeroPairs(x)
    {
      zeroCnt, tmpVal := 0, x;
      while tmpVal % 4 == 0
        invariant tmpVal > 0
        invariant StripZeroPairs(x) == (zeroCnt + StripZeroPairs(tmpVal).0, StripZeroPairs(tmpVal).1)
        decreases tmpVal
      {
        zeroCnt := zeroCnt + 1;
        tmpVal := tmpVal / 4;
      }
    }

    method AppendBytes(v: DBVal)
      requires (fieldType.TString? || fieldType.TBlob?) && HasType(v, fieldType)
      modifies this`data
      ensures data == old(data) + Token(fieldType, vals, v)
    {
      hide Varint;
      ghost var before := data;
      data := PutVarint(data, |v.bytes|);
      data := data + v.bytes;
      assert data == before + (Varint(|v.bytes|) + v.bytes);
    }
  }
}
