/** The meta data block at the start of a compressed partition file (storage/data_part.h,
    include/internal.h): a head, and one record of fixed size with name and type a field. */
module PartMeta {
  import opened Coding
  import opened DbValue
  import opened CompFormat

  datatype FieldInfo = FieldInfo(name: Bytes, fieldType: FieldType)

  const META_SIZE := 0x1_0000
  const META_HEAD := 32
  const FIELD_CNT_POS := 20
  const FIELD_REC := 64
  const NAME_LEN := 48
  const MAX_FIELDS := 860
  const MAX_NAME := 4 * NAME_LEN
  const PART_TYPE_COMPRESS := 2

  /** "PDB COMPRESS 2", padded to 16 bytes. */
  const HEAD_STR: Bytes := [80, 68, 66, 32, 67, 79, 77, 80, 82, 69, 83, 83, 32, 50, 0, 0]

  function Zeros(n: nat): (r: Bytes)
    ensures |r| == n
  {
    seq(n, _ => 0)
  }

  /** strncpy into a cleared field name. */
  function NameBytes(name: Bytes): (r: Bytes)
    ensures |r| == NAME_LEN
  {
    if |name| <= NAME_LEN then name + Zeros(NAME_LEN - |name|) else name[..NAME_LEN]
  }

  function FieldRec(f: FieldInfo): (r: Bytes)
    ensures |r| == FIELD_REC
  {
    NameBytes(f.name) + Fixed(TypeCode(f.fieldType), 4) + Zeros(12)
  }

  function FieldRecs(fields: seq<FieldInfo>): (r: Bytes)
    ensures |r| == FIELD_REC * |fields|
  {
    if fields == [] then [] else FieldRecs(fields[..|fields| - 1]) + FieldRec(fields[|fields| - 1])
  }

  function MetaPrefix(partCode: UInt32, fields: seq<FieldInfo>): (r: Bytes)
    ensures |fields| <= MAX_FIELDS ==> |r| == META_SIZE - 4
  {
    HEAD_STR + Fixed(0, 4) + Fixed(|fields|, 4) + Fixed(partCode, 4) + Fixed(PART_TYPE_COMPRESS, 4) + FieldRecs(fields)
    + Zeros(if |fields| <= MAX_FIELDS then META_SIZE - 4 - META_HEAD - FIELD_REC * |fields| else 0)
  }

  function MetaBytes(env: Env, partCode: UInt32, fields: seq<FieldInfo>): (r: Bytes)
    ensures |fields| <= MAX_FIELDS ==> |r| == META_SIZE
  {
    MetaPrefix(partCode, fields) + Fixed(env.crc32(MetaPrefix(partCode, fields)), 4)
  }

  function Types(fields: seq<FieldInfo>): (r: seq<FieldType>)
    ensures |r| == |fields|
  {
    seq(|fields|, i requires 0 <= i < |fields| => fields[i].fieldType)
  }

  /** Names are shorter than their place and, being C strings, without a zero. */
  ghost predicate FieldsOK(fields: seq<FieldInfo>) {
    |fields| <= MAX_FIELDS && forall i :: 0 <= i < |fields| ==> |fields[i].name| < NAME_LEN && 0 !in fields[i].name
  }

  /** The file starts with the meta data of these fields. */
  ghost predicate HasMeta(env: Env, file: Bytes, fields: seq<FieldInfo>) {
    FieldsOK(fields) && exists partCode: UInt32 :: MetaBytes(env, partCode, fields) <= file
  }

  lemma MetaInside(env: Env, file: Bytes, fields: seq<FieldInfo>)
    requires HasMeta(env, file, fields)
    ensures |file| >= META_SIZE
  {
    hide MetaBytes;
    var partCode: UInt32 :| MetaBytes(env, partCode, fields) <= file;
  }

  /** The type with this code, if it is one of those modelled. */
  function TypeOf(code: nat): Option<FieldType> {
    match code
    case 1 => Some(TBool) case 2 => Some(TInt8) case 3 => Some(TInt16) case 4 => Some(TInt32) case 5 => Some(TInt64)
    case 6 => Some(TDateTime) case 7 => Some(TFloat) case 8 => Some(TDouble) case 9 => Some(TString) case 10 => Some(TBlob)
    case _ => None
  }

  lemma TypeCodeBack(t: FieldType)
    ensures TypeOf(TypeCode(t)) == Some(t) && TypeCode(t) < P32
  {
  }

  lemma {:induction false} RecordAt(fields: seq<FieldInfo>, i: nat)
    requires i < |fields|
    ensures At(FieldRecs(fields), FIELD_REC * i, FieldRec(fields[i]))
  {
    hide FieldRec;
    var init, last := fields[..|fields| - 1], fields[|fields| - 1];
    if i < |init| {
      RecordAt(init, i);
      AtStays(FieldRecs(init), FieldRec(last), FIELD_REC * i, FieldRec(fields[i]));
    } else {
      AtEnd(FieldRecs(init), FieldRec(last));
    }
  }

  lemma PrefixAt(file: Bytes, a: Bytes, b: Bytes, c: Bytes)
    requires a + b + c <= file
    ensures At(file, |a|, b)
  {
    assert At(file, 0, a + b + c);
    AtPart(file, 0, a, b, c);
  }

  /** The number of fields and the record of each stand where the reader looks for them. */
  lemma MetaReads(env: Env, file: Bytes, partCode: UInt32, fields: seq<FieldInfo>)
    requires MetaBytes(env, partCode, fields) <= file && |fields| <= MAX_FIELDS
    ensures UIntAt(file, FIELD_CNT_POS, 4) == |fields|
    ensures forall i :: 0 <= i < |fields| ==> At(file, META_HEAD + FIELD_REC * i, FieldRec(fields[i]))
  {
    hide Fixed, FixedDecode, Pow2, FieldRecs, FieldRec, Zeros, At;
    Pow2Values();
    var prefix := MetaPrefix(partCode, fields);
    var crc := Fixed(env.crc32(prefix), 4);
    var a, n, c, t := HEAD_STR + Fixed(0, 4), Fixed(|fields|, 4), Fixed(partCode, 4), Fixed(PART_TYPE_COMPRESS, 4);
    var recs := FieldRecs(fields);
    var pad := Zeros(META_SIZE - 4 - META_HEAD - FIELD_REC * |fields|);
    assert prefix + crc == a + n + (c + t + recs + pad + crc);
    PrefixAt(file, a, n, c + t + recs + pad + crc);
    assert [] + n + [] == n;
    UIntReads(file, |a|, [], |fields|, 4, []);
    assert prefix + crc == (a + n + c + t) + recs + (pad + crc);
    PrefixAt(file, a + n + c + t, recs, pad + crc);
    forall i | 0 <= i < |fields| ensures At(file, META_HEAD + FIELD_REC * i, FieldRec(fields[i])) {
      RecordAt(fields, i);
      AtInside(file, META_HEAD, recs, FIELD_REC * i, FieldRec(fields[i]));
    }
  }

  /** What stands around them: the head text, the part code, the type of the partition, and at the
      end the checksum of everything before. */
  lemma MetaHeadReads(env: Env, file: Bytes, partCode: UInt32, fields: seq<FieldInfo>)
    requires MetaBytes(env, partCode, fields) <= file && |fields| <= MAX_FIELDS
    ensures At(file, 0, [80, 68, 66, 32, 67, 79, 77, 80, 82, 69, 83, 83, 32, 50, 0, 0])
    ensures UIntAt(file, 16, 4) == 0 && UIntAt(file, 24, 4) == partCode && UIntAt(file, 28, 4) == 2
    ensures UIntAt(file, 65532, 4) == env.crc32(file[..65532])
  {
    hide Fixed, FixedDecode, FieldRecs, Zeros, UIntAt;
    var prefix := MetaPrefix(partCode, fields);
    var crc := Fixed(env.crc32(prefix), 4);
    var h, v, n, c, t := HEAD_STR, Fixed(0, 4), Fixed(|fields|, 4), Fixed(partCode, 4), Fixed(PART_TYPE_COMPRESS, 4);
    var rest := FieldRecs(fields) + Zeros(META_SIZE - 4 - META_HEAD - FIELD_REC * |fields|) + crc;
    var all := prefix + crc;
    assert At(file, 0, all);
    assert all == h + v + (n + c + t + rest);
    FieldReads(file, 0, h, 0, 4, n + c + t + rest);
    assert all == (h + v + n) + c + (t + rest);
    FieldReads(file, 0, h + v + n, partCode, 4, t + rest);
    assert all == (h + v + n + c) + t + rest;
    FieldReads(file, 0, h + v + n + c, PART_TYPE_COMPRESS, 4, rest);
    assert all == prefix + crc + [];
    FieldReads(file, 0, prefix, env.crc32(prefix), 4, []);
    assert file[..65532] == prefix;
  }

  /** What a record gives: the name up to its zero, and the type. */
  lemma RecordReads(file: Bytes, pos: nat, f: FieldInfo)
    requires At(file, pos, FieldRec(f)) && |f.name| < NAME_LEN
    ensures pos + FIELD_REC <= |file| && UIntAt(file, pos + NAME_LEN, 4) == TypeCode(f.fieldType)
    ensures file[pos..pos + |f.name|] == f.name && file[pos + |f.name|] == 0
  {
    hide Fixed, FixedDecode, Pow2;
    Pow2Values();
    TypeCodeBack(f.fieldType);
    var name := NameBytes(f.name);
    UIntReads(file, pos, name, TypeCode(f.fieldType), 4, Zeros(12));
    assert [] + name + (Fixed(TypeCode(f.fieldType), 4) + Zeros(12)) == FieldRec(f);
    AtPart(file, pos, [], name, Fixed(TypeCode(f.fieldType), 4) + Zeros(12));
    var got := file[pos..pos + NAME_LEN];
    assert got[..|f.name|] == f.name && got[|f.name|] == 0;
  }

  /** A C string: the bytes up to the next zero, or None when there is none in the file. */
  method ReadName(file: Bytes, pos: nat) returns (r: Option<Bytes>)
    requires pos <= |file|
    ensures match r
            case None => 0 !in file[pos..]
            case Some(name) => pos + |name| < |file| && file[pos + |name|] == 0 && name == file[pos..pos + |name|] && 0 !in name
  {
    var idx := pos;
    while idx < |file|
      invariant pos <= idx <= |file| && 0 !in file[pos..idx]
    {
      if file[idx] == 0 {
        return Some(file[pos..idx]);
      }
      idx := idx + 1;
    }
    return None;
  }

  lemma SameName(file: Bytes, pos: nat, a: Bytes, b: Bytes)
    requires pos + |a| < |file| && file[pos..pos + |a|] == a && 0 !in a && file[pos + |a|] == 0
    requires pos + |b| < |file| && file[pos..pos + |b|] == b && 0 !in b && file[pos + |b|] == 0
    ensures a == b
  {
    forall i | pos <= i < pos + |a| ensures file[i] != 0 { assert a[i - pos] in a; }
    forall i | pos <= i < pos + |b| ensures file[i] != 0 { assert b[i - pos] in b; }
  }

  /** The loop of InitMemMap over the fields: from the meta data of a written file it recovers the
      fields; an unknown type or an over-long name is refused. */
  method ReadFields(env: Env, file: Bytes, ghost fields: seq<FieldInfo>) returns (r: Option<seq<FieldInfo>>)
    requires |file| >= META_SIZE
    ensures HasMeta(env, file, fields) ==> r == Some(fields)
  {
    hide HasMeta, UIntAt, TypeOf, TypeCode;
    var fieldCnt := UIntAt(file, FIELD_CNT_POS, 4);
    ghost var good := HasMeta(env, file, fields);
    if good { FieldsFound(env, file, fields); }
    var infos: seq<FieldInfo> := [];
    for i := 0 to fieldCnt
      invariant good ==> infos == fields[..i]
    {
      var pos := META_HEAD + FIELD_REC * i;
      if good { FieldFound(env, file, fields, i); }
      if pos + FIELD_REC > |file| {
        return None;
      }
      var name := ReadName(file, pos);
      if good { FoundName(file, pos, fields[i].name, name); }
      var fieldType := TypeOf(UIntAt(file, pos + NAME_LEN, 4));
      if good { TypeCodeBack(fields[i].fieldType); }
      if name.None? || |name.value| > MAX_NAME || fieldType.None? {
        return None;
      }
      infos := infos + [FieldInfo(name.value, fieldType.value)];
    }
    if good { assert fields[..fieldCnt] == fields; }
    return Some(infos);
  }

  lemma FieldsFound(env: Env, file: Bytes, fields: seq<FieldInfo>)
    requires HasMeta(env, file, fields) && |file| >= META_SIZE
    ensures UIntAt(file, FIELD_CNT_POS, 4) == |fields|
  {
    hide MetaBytes, UIntAt, FieldRec;
    var partCode: UInt32 :| MetaBytes(env, partCode, fields) <= file;
    MetaReads(env, file, partCode, fields);
  }

  lemma FieldFound(env: Env, file: Bytes, fields: seq<FieldInfo>, i: nat)
    requires HasMeta(env, file, fields) && i < |fields|
    ensures var pos, name := META_HEAD + FIELD_REC * i, fields[i].name;
            && pos + FIELD_REC <= |file| && UIntAt(file, pos + NAME_LEN, 4) == TypeCode(fields[i].fieldType)
            && |name| < NAME_LEN && 0 !in name && file[pos..pos + |name|] == name && file[pos + |name|] == 0
  {
    hide MetaBytes, UIntAt, FieldRec, TypeCode;
    var partCode: UInt32 :| MetaBytes(env, partCode, fields) <= file;
    MetaReads(env, file, partCode, fields);
    RecordReads(file, META_HEAD + FIELD_REC * i, fields[i]);
  }

  lemma FoundName(file: Bytes, pos: nat, name: Bytes, found: Option<Bytes>)
    requires pos + |name| < |file| && file[pos..pos + |name|] == name && 0 !in name && file[pos + |name|] == 0
    requires match found
             case None => 0 !in file[pos..]
             case Some(s) => pos + |s| < |file| && file[pos + |s|] == 0 && s == file[pos..pos + |s|] && 0 !in s
    ensures found == Some(name)
  {
    assert file[pos..][|name|] == 0;
    if found.Some? { SameName(file, pos, name, found.value); }
  }
}
