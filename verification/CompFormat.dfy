/** The structures of storage/comp_format.h as bytes, and the byte image of one column of one
    block. Offsets and counts are truncated to the width of their field, as in the source. */
module CompFormat {
  import opened Coding
  import opened DbValue
  import opened ColumnCodec

  datatype CmpBlockHead = CmpBlockHead(fieldType: nat, fieldPos: nat, recCnt: nat, dataLen: nat, dataCrc: nat, crc: nat)
  datatype TsBlkIdx = TsBlkIdx(devId: Int64, bgTs: Int64, blkPos: nat, recCnt: nat, crc: nat)
  datatype CmpBlkIdx = CmpBlkIdx(blkPos: nat, blkLen: nat, crc: nat)
  datatype CmpFooter = CmpFooter(magic: nat, tsIdxCnt: nat, tsIdxPos: nat, pad32: nat, crc: nat)

  const HEAD_SIZE := 20
  const TS_SIZE := 32
  const CMP_SIZE := 16
  const FOOTER_SIZE := 24
  const FOOTER_MAGIC := 0x7FEC_8D92
  /** Capacity of the raw payload buffers on both sides. */
  const RAW_BUFFER := 512 * 1024

  /** zlib and the checksum are supplied from outside. */
  datatype Env = Env(compress: Bytes -> Bytes, uncompress: Bytes -> Bytes, crc32: Bytes -> UInt32) {
    /** Compression succeeds on everything that fits the raw buffer and can be undone. */
    ghost predicate Sound() {
      forall s: Bytes :: |s| <= RAW_BUFFER ==> |compress(s)| < 0x8000_0000 && uncompress(compress(s)) == s
    }
  }

  function HeadPrefix(h: CmpBlockHead): Bytes {
    Fixed(h.fieldType, 2) + Fixed(h.fieldPos, 2) + Fixed(h.recCnt, 4) + Fixed(h.dataLen, 4) + Fixed(h.dataCrc, 4)
  }

  function HeadBytes(h: CmpBlockHead): (r: Bytes)
    ensures |r| == HEAD_SIZE
  {
    HeadPrefix(h) + Fixed(h.crc, 4)
  }

  function TsPrefix(e: TsBlkIdx): Bytes {
    Fixed(e.devId % P64, 8) + Fixed(e.bgTs % P64, 8) + Fixed(e.blkPos, 8) + Fixed(e.recCnt, 4)
  }

  function TsBytes(e: TsBlkIdx): (r: Bytes)
    ensures |r| == TS_SIZE
  {
    TsPrefix(e) + Fixed(e.crc, 4)
  }

  function CmpPrefix(e: CmpBlkIdx): Bytes {
    Fixed(e.blkPos, 8) + Fixed(e.blkLen, 4)
  }

  function CmpBytes(e: CmpBlkIdx): (r: Bytes)
    ensures |r| == CMP_SIZE
  {
    CmpPrefix(e) + Fixed(e.crc, 4)
  }

  /** The checksum of an entry does not cover itself. */
  lemma Uncovered(t: TsBlkIdx, c: CmpBlkIdx, crc: nat)
    ensures TsPrefix(t.(crc := crc)) == TsPrefix(t) && CmpPrefix(c.(crc := crc)) == CmpPrefix(c)
  {
  }

  function FooterPrefix(f: CmpFooter): Bytes {
    Fixed(f.magic, 4) + Fixed(f.tsIdxCnt, 4) + Fixed(f.tsIdxPos, 8) + Fixed(f.pad32, 4)
  }

  function FooterBytes(f: CmpFooter): (r: Bytes)
    ensures |r| == FOOTER_SIZE
  {
    FooterPrefix(f) + Fixed(f.crc, 4)
  }

  // ---------------------------------------------------------------- bytes at an offset

  ghost predicate At(file: Bytes, pos: nat, bytes: Bytes) {
    pos + |bytes| <= |file| && file[pos..pos + |bytes|] == bytes
  }

  function ReadAt(file: Bytes, pos: nat, len: nat): (r: Bytes)
    ensures |r| <= len && (pos + len <= |file| ==> r == file[pos..pos + len])
  {
    if pos + len <= |file| then file[pos..pos + len] else []
  }

  function WriteAt(file: Bytes, pos: nat, bytes: Bytes): (r: Bytes)
    ensures pos == |file| ==> r == file + bytes
  {
    if pos + |bytes| <= |file| then file[..pos] + bytes + file[pos + |bytes|..]
    else if pos <= |file| then file[..pos] + bytes
    else file + seq(pos - |file|, _ => 0) + bytes
  }

  lemma AtPart(file: Bytes, pos: nat, a: Bytes, b: Bytes, c: Bytes)
    requires At(file, pos, a + b + c)
    ensures At(file, pos + |a|, b)
  {
    var all := file[pos..pos + |a + b + c|];
    forall i | 0 <= i < |b| ensures file[pos + |a| + i] == b[i] {
      assert all[|a| + i] == (a + b + c)[|a| + i];
    }
  }

  lemma AtInside(file: Bytes, pos: nat, outer: Bytes, off: nat, inner: Bytes)
    requires At(file, pos, outer) && At(outer, off, inner)
    ensures At(file, pos + off, inner)
  {
    assert outer == outer[..off] + inner + outer[off + |inner|..];
    AtPart(file, pos, outer[..off], inner, outer[off + |inner|..]);
  }

  lemma AtStays(file: Bytes, more: Bytes, pos: nat, bytes: Bytes)
    requires At(file, pos, bytes)
    ensures At(file + more, pos, bytes)
  {
    assert (file + more)[pos..pos + |bytes|] == file[pos..pos + |bytes|];
  }

  lemma AtEnd(file: Bytes, more: Bytes)
    ensures At(file + more, |file|, more)
  {
  }

  /** The unsigned integer stored in `k` bytes at an offset. */
  function UIntAt(file: Bytes, pos: nat, k: nat): nat
    requires pos + k <= |file|
  {
    FixedDecode(file[pos..pos + k])
  }

  lemma UIntReads(file: Bytes, pos: nat, a: Bytes, n: nat, k: nat, c: Bytes)
    requires At(file, pos, a + Fixed(n, k) + c) && n < Pow2(8 * k)
    ensures pos + |a| + k <= |file| && UIntAt(file, pos + |a|, k) == n
  {
    AtPart(file, pos, a, Fixed(n, k), c);
    FixedRoundTrip(n, k);
  }

  /** Every field of a block header stands at its place. */
  lemma HeadReads(file: Bytes, pos: nat, h: CmpBlockHead)
    requires At(file, pos, HeadBytes(h))
    ensures UIntAt(file, pos, 2) == h.fieldType % 0x1_0000 && UIntAt(file, pos + 2, 2) == h.fieldPos % 0x1_0000
    ensures UIntAt(file, pos + 4, 4) == h.recCnt % P32 && UIntAt(file, pos + 8, 4) == h.dataLen % P32
    ensures UIntAt(file, pos + 12, 4) == h.dataCrc % P32 && UIntAt(file, pos + 16, 4) == h.crc % P32
  {
    hide Fixed, FixedDecode, Pow2, At, UIntAt;
    var t, p, r, d := Fixed(h.fieldType, 2), Fixed(h.fieldPos, 2), Fixed(h.recCnt, 4), Fixed(h.dataLen, 4);
    var dc, c := Fixed(h.dataCrc, 4), Fixed(h.crc, 4);
    assert HeadBytes(h) == [] + t + (p + r + d + dc + c);
    FieldReads(file, pos, [], h.fieldType, 2, p + r + d + dc + c);
    assert HeadBytes(h) == t + p + (r + d + dc + c);
    FieldReads(file, pos, t, h.fieldPos, 2, r + d + dc + c);
    assert HeadBytes(h) == (t + p) + r + (d + dc + c);
    FieldReads(file, pos, t + p, h.recCnt, 4, d + dc + c);
    assert HeadBytes(h) == (t + p + r) + d + (dc + c);
    FieldReads(file, pos, t + p + r, h.dataLen, 4, dc + c);
    assert HeadBytes(h) == (t + p + r + d) + dc + c;
    FieldReads(file, pos, t + p + r + d, h.dataCrc, 4, c);
    assert HeadBytes(h) == (t + p + r + d + dc) + c + [];
    FieldReads(file, pos, t + p + r + d + dc, h.crc, 4, []);
  }

  /** A field holds the low bits of its value. */
  lemma FieldReads(file: Bytes, pos: nat, a: Bytes, n: nat, k: nat, c: Bytes)
    requires At(file, pos, a + Fixed(n, k) + c) && k in {2, 4, 8}
    ensures pos + |a| + k <= |file|
    ensures UIntAt(file, pos + |a|, k) == n % (if k == 2 then 0x1_0000 else if k == 4 then P32 else P64)
  {
    hide Fixed, FixedDecode, Pow2;
    AtPart(file, pos, a, Fixed(n, k), c);
    FixedTruncates(n, k);
    Pow2Values();
  }

  /** Every field of a timestamp entry stands at its place. */
  lemma TsReads(file: Bytes, pos: nat, e: TsBlkIdx)
    requires At(file, pos, TsBytes(e))
    ensures UIntAt(file, pos, 8) == e.devId % P64 && UIntAt(file, pos + 8, 8) == e.bgTs % P64
    ensures UIntAt(file, pos + 16, 8) == e.blkPos % P64
    ensures UIntAt(file, pos + 24, 4) == e.recCnt % P32 && UIntAt(file, pos + 28, 4) == e.crc % P32
  {
    hide Fixed, FixedDecode, Pow2, At, UIntAt;
    var d, b, p := Fixed(e.devId % P64, 8), Fixed(e.bgTs % P64, 8), Fixed(e.blkPos, 8);
    var r, c := Fixed(e.recCnt, 4), Fixed(e.crc, 4);
    assert TsBytes(e) == [] + d + (b + p + r + c);
    FieldReads(file, pos, [], e.devId % P64, 8, b + p + r + c);
    assert TsBytes(e) == d + b + (p + r + c);
    FieldReads(file, pos, d, e.bgTs % P64, 8, p + r + c);
    assert TsBytes(e) == (d + b) + p + (r + c);
    FieldReads(file, pos, d + b, e.blkPos, 8, r + c);
    assert TsBytes(e) == (d + b + p) + r + c;
    FieldReads(file, pos, d + b + p, e.recCnt, 4, c);
    assert TsBytes(e) == (d + b + p + r) + c + [];
    FieldReads(file, pos, d + b + p + r, e.crc, 4, []);
  }

  /** Every field of a column entry stands at its place. */
  lemma CmpReads(file: Bytes, pos: nat, e: CmpBlkIdx)
    requires At(file, pos, CmpBytes(e))
    ensures UIntAt(file, pos, 8) == e.blkPos % P64 && UIntAt(file, pos + 8, 4) == e.blkLen % P32
    ensures UIntAt(file, pos + 12, 4) == e.crc % P32
  {
    hide Fixed, FixedDecode, Pow2, At, UIntAt;
    var p, l, c := Fixed(e.blkPos, 8), Fixed(e.blkLen, 4), Fixed(e.crc, 4);
    assert CmpBytes(e) == [] + p + (l + c);
    FieldReads(file, pos, [], e.blkPos, 8, l + c);
    assert CmpBytes(e) == p + l + c;
    FieldReads(file, pos, p, e.blkLen, 4, c);
    assert CmpBytes(e) == (p + l) + c + [];
    FieldReads(file, pos, p + l, e.crc, 4, []);
  }

  /** Every field of the footer stands at its place. */
  lemma FooterReads(file: Bytes, pos: nat, f: CmpFooter)
    requires At(file, pos, FooterBytes(f))
    ensures UIntAt(file, pos, 4) == f.magic % P32 && UIntAt(file, pos + 4, 4) == f.tsIdxCnt % P32
    ensures UIntAt(file, pos + 8, 8) == f.tsIdxPos % P64
    ensures UIntAt(file, pos + 16, 4) == f.pad32 % P32 && UIntAt(file, pos + 20, 4) == f.crc % P32
  {
    hide Fixed, FixedDecode, Pow2, At, UIntAt;
    var m, n, p := Fixed(f.magic, 4), Fixed(f.tsIdxCnt, 4), Fixed(f.tsIdxPos, 8);
    var z, c := Fixed(f.pad32, 4), Fixed(f.crc, 4);
    assert FooterBytes(f) == [] + m + (n + p + z + c);
    FieldReads(file, pos, [], f.magic, 4, n + p + z + c);
    assert FooterBytes(f) == m + n + (p + z + c);
    FieldReads(file, pos, m, f.tsIdxCnt, 4, p + z + c);
    assert FooterBytes(f) == (m + n) + p + (z + c);
    FieldReads(file, pos, m + n, f.tsIdxPos, 8, z + c);
    assert FooterBytes(f) == (m + n + p) + z + c;
    FieldReads(file, pos, m + n + p, f.pad32, 4, c);
    assert FooterBytes(f) == (m + n + p + z) + c + [];
    FieldReads(file, pos, m + n + p + z, f.crc, 4, []);
  }

  // ---------------------------------------------------------------- blocks

  /** Rows of one device that were flushed together. */
  datatype Block = Block(devId: Int64, rows: seq<Row>)

  function Column(rows: seq<Row>, f: nat): (r: seq<DBVal>)
    ensures |r| == |rows|
  {
    seq(|rows|, i requires 0 <= i < |rows| => if f < |rows[i]| then rows[i][f] else Null)
  }

  function TypeCode(t: FieldType): nat {
    match t
    case TBool => 1 case TInt8 => 2 case TInt16 => 3 case TInt32 => 4 case TInt64 => 5
    case TDateTime => 6 case TFloat => 7 case TDouble => 8 case TString => 9 case TBlob => 10
  }

  /** Header and compressed data of field f, as Flush lays them out. */
  function Payload(env: Env, t: FieldType, f: nat, cnt: nat, raw: Bytes): (r: Bytes)
    ensures |r| == HEAD_SIZE + |env.compress(raw)|
  {
    var comp := env.compress(raw);
    var h := CmpBlockHead(TypeCode(t), f, cnt, |comp|, env.crc32(comp), 0);
    HeadBytes(h.(crc := env.crc32(HeadPrefix(h)))) + comp
  }

  function BlockPayload(env: Env, t: FieldType, blk: Block, f: nat): Bytes {
    Payload(env, t, f, |blk.rows|, EncodeColumn(t, Column(blk.rows, f)))
  }

  /** What stands in a stored payload: type, column and number of values, the length of the
      compressed data, which gives back the raw bytes, and two checksums that both are right. */
  lemma PayloadReads(env: Env, t: FieldType, f: nat, cnt: nat, raw: Bytes, file: Bytes, pos: nat)
    requires env.Sound() && |raw| <= RAW_BUFFER && cnt < P32
    requires At(file, pos, Payload(env, t, f, cnt, raw))
    ensures pos + HEAD_SIZE <= |file|
    ensures UIntAt(file, pos, 2) == TypeCode(t) && UIntAt(file, pos + 2, 2) == f % 0x1_0000 && UIntAt(file, pos + 4, 4) == cnt
    ensures var len := UIntAt(file, pos + 8, 4);
            && pos + 20 + len <= |file| && env.uncompress(file[pos + 20..pos + 20 + len]) == raw
            && UIntAt(file, pos + 12, 4) == env.crc32(file[pos + 20..pos + 20 + len])
    ensures UIntAt(file, pos + 16, 4) == env.crc32(file[pos..pos + 16])
  {
    hide HeadBytes, HeadPrefix, UIntAt, At;
    var comp := env.compress(raw);
    var h := CmpBlockHead(TypeCode(t), f, cnt, |comp|, env.crc32(comp), 0);
    var sealed := h.(crc := env.crc32(HeadPrefix(h)));
    HeadSplit(h, sealed.crc);
    PayloadSplit(file, pos, HeadBytes(sealed), comp);
    HeadReads(file, pos, sealed);
  }

  lemma PayloadSplit(file: Bytes, pos: nat, head: Bytes, comp: Bytes)
    requires At(file, pos, head + comp) && |head| == HEAD_SIZE
    ensures pos + 20 + |comp| <= |file| && At(file, pos, head)
    ensures file[pos + 20..pos + 20 + |comp|] == comp && file[pos..pos + 16] == head[..16]
  {
    assert [] + head + comp == head + comp == head + comp + [];
    AtPart(file, pos, [], head, comp);
    AtPart(file, pos, head, comp, []);
    assert file[pos..pos + 16] == file[pos..pos + 20][..16];
  }

  /** The checksum of a header covers the 16 bytes before it. */
  lemma HeadSplit(h: CmpBlockHead, crc: nat)
    ensures HeadBytes(h.(crc := crc))[..16] == HeadPrefix(h)
  {
    hide Fixed;
    assert HeadPrefix(h.(crc := crc)) == HeadPrefix(h);
  }
}
