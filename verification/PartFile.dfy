/** What a finished partition file contains. */
module PartFile {
  import opened Coding
  import opened DbValue
  import opened ColumnCodec
  import opened CompFormat
  import opened PartIndex

  const BLOCK_MAX_ROWS := 8192
  /** Column data of this size closes a block. */
  const FLUSH_LENGTH := 490 * 1024
  /** Bound on the strings and blobs of a stored row; with it every payload fits RAW_BUFFER. */
  const MAX_VALUE := 22 * 1024 - 5
  const DATA_COLUMN := TSTAMP_INDEX + 1

  // ---------------------------------------------------------------- rows and blocks

  ghost predicate SchemaOK(schema: seq<FieldType>) {
    |schema| > DATA_COLUMN && schema[DEVID_INDEX] == TInt64 && schema[TSTAMP_INDEX] == TDateTime
  }

  ghost predicate ValueOK(v: DBVal, t: FieldType) {
    HasType(v, t) && (v.String? || v.Blob? ==> |v.bytes| <= MAX_VALUE)
  }

  ghost predicate RowOK(schema: seq<FieldType>, row: Row) {
    && SchemaOK(schema) && |row| == |schema|
    && (forall f :: 0 <= f < |schema| ==> ValueOK(row[f], schema[f]))
    && RowDev(row) > 0
  }

  ghost predicate AllRowsOK(schema: seq<FieldType>, rows: seq<Row>) {
    forall i :: 0 <= i < |rows| ==> RowOK(schema, rows[i])
  }

  lemma RowHasDevice(schema: seq<FieldType>, row: Row)
    requires RowOK(schema, row)
    ensures RowDev(row) > 0
  {
  }

  /** A closed block: at least one row and at most 8192, all of one device, and the data of
      every column fits the raw buffers. */
  ghost predicate BlockOK(schema: seq<FieldType>, blk: Block) {
    && 0 < |blk.rows| <= BLOCK_MAX_ROWS
    && (forall i :: 0 <= i < |blk.rows| ==> RowOK(schema, blk.rows[i]) && RowDev(blk.rows[i]) == blk.devId)
    && (forall f :: TSTAMP_INDEX <= f < |schema| ==> |EncodeColumn(schema[f], Column(blk.rows, f))| <= RAW_BUFFER)
  }

  /** Rows that need no further one to be a block: 8192 of them, or the data of a column has
      reached 490 KB. */
  ghost predicate Full(schema: seq<FieldType>, rows: seq<Row>) {
    || |rows| >= 8192
    || exists f :: TSTAMP_INDEX <= f < |schema| && |EncodeColumn(schema[f], Column(rows, f))| >= 490 * 1024
  }

  /** No block was closed too late, and none too early: it is full as soon as its last row is in
      and not before, or the next block belongs to another device. */
  ghost predicate CutRight(schema: seq<FieldType>, blocks: seq<Block>) {
    && (forall b :: 0 <= b < |blocks| ==> NotLate(schema, blocks[b].rows))
    && (forall b, c :: 0 <= b && c == b + 1 < |blocks| && blocks[b].devId == blocks[c].devId ==> Full(schema, blocks[b].rows))
  }

  ghost predicate NotLate(schema: seq<FieldType>, rows: seq<Row>) {
    rows != [] ==> !Full(schema, rows[..|rows| - 1])
  }

  /** Rows of this device may follow the last block. */
  ghost predicate LastFull(schema: seq<FieldType>, blocks: seq<Block>, devId: Int64) {
    blocks != [] && blocks[|blocks| - 1].devId == devId ==> Full(schema, blocks[|blocks| - 1].rows)
  }

  lemma CutSnoc(schema: seq<FieldType>, blocks: seq<Block>, blk: Block)
    requires CutRight(schema, blocks) && LastFull(schema, blocks, blk.devId) && NotLate(schema, blk.rows)
    ensures CutRight(schema, blocks + [blk])
  {
    hide Full, NotLate;
    var all := blocks + [blk];
    assert forall b :: 0 <= b < |blocks| ==> all[b] == blocks[b];
  }

  function RowsOf(blocks: seq<Block>): seq<Row> {
    if blocks == [] then [] else RowsOf(blocks[..|blocks| - 1]) + blocks[|blocks| - 1].rows
  }

  lemma RowsOfSnoc(blocks: seq<Block>, blk: Block)
    ensures RowsOf(blocks + [blk]) == RowsOf(blocks) + blk.rows
  {
    assert (blocks + [blk])[..|blocks|] == blocks;
  }

  // ---------------------------------------------------------------- index entries

  /** A timestamp entry describes its block, points at its timestamps in the file, and carries
      the checksum of its first 28 bytes. */
  ghost predicate TsPlaced(env: Env, schema: seq<FieldType>, file: Bytes, e: TsBlkIdx, blk: Block)
    requires SchemaOK(schema)
  {
    && |blk.rows| > 0
    && e.devId == blk.devId && e.bgTs == RowTs(blk.rows[0]) && e.recCnt == |blk.rows|
    && e.crc == env.crc32(TsPrefix(e))
    && At(file, e.blkPos, BlockPayload(env, schema[TSTAMP_INDEX], blk, TSTAMP_INDEX))
  }

  /** A final column entry: an offset in the file where the payload of column f stands, with the
      checksum of its first 12 bytes. */
  ghost predicate CmpPlaced(env: Env, schema: seq<FieldType>, file: Bytes, e: CmpBlkIdx, blk: Block, f: nat)
    requires DATA_COLUMN + f < |schema|
  {
    var payload := BlockPayload(env, schema[DATA_COLUMN + f], blk, DATA_COLUMN + f);
    At(file, e.blkPos, payload) && e.blkLen == |payload| && e.crc == env.crc32(CmpPrefix(e))
  }

  /** Column `field` of block `blk`; the device id is not stored as a column. */
  datatype Key = Key(blk: nat, field: nat)

  predicate IsColumn(schema: seq<FieldType>, blocks: seq<Block>, k: Key) {
    k.blk < |blocks| && TSTAMP_INDEX <= k.field < |schema|
  }

  function PayloadOf(env: Env, schema: seq<FieldType>, blocks: seq<Block>, k: Key): Bytes {
    if IsColumn(schema, blocks, k) then BlockPayload(env, schema[k.field], blocks[k.blk], k.field) else []
  }

  /** The offset in the index entry of a column. */
  function PosOf(ts: seq<TsBlkIdx>, rows: seq<CmpRow>, k: Key): nat {
    if k.field == TSTAMP_INDEX then if k.blk < |ts| then ts[k.blk].blkPos else 0
    else if k.blk < |rows| && DATA_COLUMN <= k.field < DATA_COLUMN + |rows[k.blk]| then rows[k.blk][k.field - DATA_COLUMN].blkPos
    else 0
  }

  /** The ranges that the index entries describe end before `end`, and no two overlap. */
  ghost predicate PayloadsApart(env: Env, schema: seq<FieldType>, blocks: seq<Block>, ts: seq<TsBlkIdx>, rows: seq<CmpRow>, end: nat) {
    && (forall k :: IsColumn(schema, blocks, k) ==> PosOf(ts, rows, k) + |PayloadOf(env, schema, blocks, k)| <= end)
    && (forall k, l :: IsColumn(schema, blocks, k) && IsColumn(schema, blocks, l) && k != l ==>
          || PosOf(ts, rows, k) + |PayloadOf(env, schema, blocks, k)| <= PosOf(ts, rows, l)
          || PosOf(ts, rows, l) + |PayloadOf(env, schema, blocks, l)| <= PosOf(ts, rows, k))
  }

  function PartFooter(env: Env, cnt: nat, tsPos: nat): CmpFooter {
    var f := CmpFooter(FOOTER_MAGIC, cnt, tsPos, 0, 0);
    f.(crc := env.crc32(FooterPrefix(f)))
  }

  /** A file with these blocks: the payload of every column where its index entry says, no two
      of them overlapping, the whole index column-major behind a 1024-byte boundary, and the footer at the end. */
  ghost predicate PartFileOK(env: Env, schema: seq<FieldType>, file: Bytes, blocks: seq<Block>,
                             ts: seq<TsBlkIdx>, rows: seq<CmpRow>, tsPos: nat)
  {
    && SchemaOK(schema) && |ts| == |rows| == |blocks| && Uniform(rows, |schema| - DATA_COLUMN)
    && (forall b :: 0 <= b < |blocks| ==> BlockOK(schema, blocks[b]))
    && (forall b :: 0 <= b < |blocks| ==> TsPlaced(env, schema, file, ts[b], blocks[b]))
    && (forall b, f :: 0 <= b < |blocks| && 0 <= f < |schema| - DATA_COLUMN ==>
          CmpPlaced(env, schema, file, rows[b][f], blocks[b], f))
    && PayloadsApart(env, schema, blocks, ts, rows, tsPos)
    && tsPos % 1024 == 0
    && At(file, tsPos, IndexBytes(ts, rows, |schema| - DATA_COLUMN))
    && |file| == tsPos + IndexSize(|schema| - DATA_COLUMN, |blocks|) + FOOTER_SIZE
    && At(file, |file| - FOOTER_SIZE, FooterBytes(PartFooter(env, |blocks|, tsPos)))
  }
}
