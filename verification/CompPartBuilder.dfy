/** The writer of a compressed day partition (storage/comp_part_builder.cpp). */
module CompPartBuilders {
  import opened Coding
  import opened DbValue
  import opened ColumnCodec
  import opened CompValBuilders
  import opened CompFormat
  import opened PartIndex
  import opened PartFile
  import opened PartLayout
  import opened PartMeta

  /** A pending column entry: a live arena pointer to the payload. */
  ghost predicate CmpPending(env: Env, schema: seq<FieldType>, arena: map<nat, Bytes>, e: CmpBlkIdx, blk: Block, f: nat)
    requires DATA_COLUMN + f < |schema|
  {
    var payload := BlockPayload(env, schema[DATA_COLUMN + f], blk, DATA_COLUMN + f);
    e.blkPos in arena && arena[e.blkPos] == payload && e.blkLen == |payload|
  }

  /** The deferred-write invariant over all blocks closed so far: columns of the first
      `placed` blocks are in the file, those of the others are in the arena. */
  ghost predicate EntriesOK(env: Env, schema: seq<FieldType>, file: Bytes, arena: map<nat, Bytes>,
                            blocks: seq<Block>, ts: seq<TsBlkIdx>, rows: seq<CmpRow>, placed: nat)
  {
    && SchemaOK(schema) && |ts| == |rows| == |blocks| && placed <= |blocks|
    && Uniform(rows, |schema| - DATA_COLUMN)
    && (forall b :: 0 <= b < |blocks| ==> BlockOK(schema, blocks[b]))
    && (forall b :: 0 <= b < |blocks| ==> TsPlaced(env, schema, file, ts[b], blocks[b]))
    && (forall b, f :: 0 <= b < placed && 0 <= f < |schema| - DATA_COLUMN ==>
          CmpPlaced(env, schema, file, rows[b][f], blocks[b], f))
    && (forall b, f :: placed <= b < |blocks| && 0 <= f < |schema| - DATA_COLUMN ==>
          CmpPending(env, schema, arena, rows[b][f], blocks[b], f))
  }

  lemma EntriesShape(env: Env, schema: seq<FieldType>, file: Bytes, arena: map<nat, Bytes>,
                     blocks: seq<Block>, ts: seq<TsBlkIdx>, rows: seq<CmpRow>, placed: nat)
    requires EntriesOK(env, schema, file, arena, blocks, ts, rows, placed)
    ensures SchemaOK(schema) && |ts| == |rows| == |blocks| && placed <= |blocks| && Uniform(rows, |schema| - DATA_COLUMN)
  {
  }

  /** Writing behind the end of the file and allocating more keep every entry good. */
  lemma EntriesStay(env: Env, schema: seq<FieldType>, file: Bytes, more: Bytes, arena: map<nat, Bytes>, arena': map<nat, Bytes>,
                    blocks: seq<Block>, ts: seq<TsBlkIdx>, rows: seq<CmpRow>, placed: nat)
    requires EntriesOK(env, schema, file, arena, blocks, ts, rows, placed)
    requires forall p :: p in arena ==> p in arena' && arena'[p] == arena[p]
    ensures EntriesOK(env, schema, file + more, arena', blocks, ts, rows, placed)
  {
    hide BlockPayload, BlockOK, At;
    forall b | 0 <= b < |blocks| ensures TsPlaced(env, schema, file + more, ts[b], blocks[b]) {
      AtStays(file, more, ts[b].blkPos, BlockPayload(env, schema[TSTAMP_INDEX], blocks[b], TSTAMP_INDEX));
    }
    forall b, f | 0 <= b < placed && 0 <= f < |schema| - DATA_COLUMN
      ensures CmpPlaced(env, schema, file + more, rows[b][f], blocks[b], f)
    {
      AtStays(file, more, rows[b][f].blkPos, BlockPayload(env, schema[DATA_COLUMN + f], blocks[b], DATA_COLUMN + f));
    }
  }

  /** With nothing pending the arena is not needed. */
  lemma ArenaDropped(env: Env, schema: seq<FieldType>, file: Bytes, arena: map<nat, Bytes>,
                     blocks: seq<Block>, ts: seq<TsBlkIdx>, rows: seq<CmpRow>)
    requires EntriesOK(env, schema, file, arena, blocks, ts, rows, |blocks|)
    ensures EntriesOK(env, schema, file, map[], blocks, ts, rows, |blocks|)
  {
    hide BlockOK, CmpPlaced, CmpPending, TsPlaced;
  }

  /** Between two writes of Sync, which goes through the pending entries field by field: those
      before field f, and of field f those before block b, are already in the file. */
  ghost predicate SyncOK(env: Env, schema: seq<FieldType>, file: Bytes, arena: map<nat, Bytes>,
                         blocks: seq<Block>, ts: seq<TsBlkIdx>, rows: seq<CmpRow>, placed: nat, f: nat, b: nat)
  {
    && SchemaOK(schema) && |ts| == |rows| == |blocks| && placed <= |blocks|
    && Uniform(rows, |schema| - DATA_COLUMN)
    && (forall i :: 0 <= i < |blocks| ==> BlockOK(schema, blocks[i]))
    && (forall i :: 0 <= i < |blocks| ==> TsPlaced(env, schema, file, ts[i], blocks[i]))
    && (forall i, g :: 0 <= i < |blocks| && 0 <= g < |schema| - DATA_COLUMN ==>
          if i < placed || g < f || (g == f && i < b) then CmpPlaced(env, schema, file, rows[i][g], blocks[i], g)
          else CmpPending(env, schema, arena, rows[i][g], blocks[i], g))
  }

  lemma SyncStep(env: Env, schema: seq<FieldType>, file: Bytes, arena: map<nat, Bytes>,
                 blocks: seq<Block>, ts: seq<TsBlkIdx>, rows: seq<CmpRow>, placed: nat, f: nat, b: nat, e: CmpBlkIdx)
    requires SyncOK(env, schema, file, arena, blocks, ts, rows, placed, f, b)
    requires placed <= b < |blocks| && f < |schema| - DATA_COLUMN
    requires rows[b][f].blkPos in arena && e.blkPos == |file| && e.blkLen == rows[b][f].blkLen
    requires e.crc == env.crc32(CmpPrefix(e))
    ensures SyncOK(env, schema, file + arena[rows[b][f].blkPos], arena, blocks, ts,
                   rows[b := rows[b][f := e]], placed, f, b + 1)
    ensures Uniform(rows[b := rows[b][f := e]], |schema| - DATA_COLUMN)
  {
    hide BlockPayload, BlockOK, At;
    var payload := arena[rows[b][f].blkPos];
    var file', rows' := file + payload, rows[b := rows[b][f := e]];
    forall i | 0 <= i < |blocks| ensures TsPlaced(env, schema, file', ts[i], blocks[i]) {
      AtStays(file, payload, ts[i].blkPos, BlockPayload(env, schema[TSTAMP_INDEX], blocks[i], TSTAMP_INDEX));
    }
    forall i, g | 0 <= i < |blocks| && 0 <= g < |schema| - DATA_COLUMN
      ensures if i < placed || g < f || (g == f && i < b + 1) then CmpPlaced(env, schema, file', rows'[i][g], blocks[i], g)
              else CmpPending(env, schema, arena, rows'[i][g], blocks[i], g)
    {
      if i == b && g == f {
        AtEnd(file, payload);
      } else if i < placed || g < f || (g == f && i < b) {
        AtStays(file, payload, rows[i][g].blkPos, BlockPayload(env, schema[DATA_COLUMN + g], blocks[i], DATA_COLUMN + g));
      }
    }
  }

  lemma SyncStart(env: Env, schema: seq<FieldType>, file: Bytes, arena: map<nat, Bytes>,
                  blocks: seq<Block>, ts: seq<TsBlkIdx>, rows: seq<CmpRow>, placed: nat)
    requires EntriesOK(env, schema, file, arena, blocks, ts, rows, placed)
    ensures SyncOK(env, schema, file, arena, blocks, ts, rows, placed, 0, placed)
  {
    hide CmpPlaced, CmpPending, TsPlaced, BlockOK;
  }

  lemma SyncNextField(env: Env, schema: seq<FieldType>, file: Bytes, arena: map<nat, Bytes>,
                      blocks: seq<Block>, ts: seq<TsBlkIdx>, rows: seq<CmpRow>, placed: nat, f: nat)
    requires SyncOK(env, schema, file, arena, blocks, ts, rows, placed, f, |blocks|)
    ensures SyncOK(env, schema, file, arena, blocks, ts, rows, placed, f + 1, placed)
  {
    hide CmpPlaced, CmpPending, TsPlaced, BlockOK;
  }

  lemma SyncDone(env: Env, schema: seq<FieldType>, file: Bytes, arena: map<nat, Bytes>,
                 blocks: seq<Block>, ts: seq<TsBlkIdx>, rows: seq<CmpRow>, placed: nat)
    requires SchemaOK(schema)
    requires SyncOK(env, schema, file, arena, blocks, ts, rows, placed, |schema| - DATA_COLUMN, placed)
    ensures EntriesOK(env, schema, file, arena, blocks, ts, rows, |blocks|)
  {
    hide CmpPlaced, CmpPending, TsPlaced, BlockOK;
  }

  lemma SyncShape(env: Env, schema: seq<FieldType>, file: Bytes, arena: map<nat, Bytes>,
                  blocks: seq<Block>, ts: seq<TsBlkIdx>, rows: seq<CmpRow>, placed: nat, f: nat, b: nat)
    requires SyncOK(env, schema, file, arena, blocks, ts, rows, placed, f, b)
    requires placed <= b < |blocks| && f < |schema| - DATA_COLUMN
    ensures |ts| == |rows| == |blocks| && Uniform(rows, |schema| - DATA_COLUMN)
    ensures rows[b][f].blkPos in arena && |arena[rows[b][f].blkPos]| == rows[b][f].blkLen
    ensures arena[rows[b][f].blkPos] == PayloadOf(env, schema, blocks, Key(b, DATA_COLUMN + f))
  {
    assert CmpPending(env, schema, arena, rows[b][f], blocks[b], f);
  }

  /** Where entry f of the r-th block stands in a flat vector with k entries a block. */
  function VectorPos(k: nat, r: nat, f: nat): nat { r * k + f }

  /** Entry (b, f) in the flat vector of the blocks from s on. */
  lemma VectorAt(rows: seq<CmpRow>, s: nat, k: nat, r: nat, f: nat)
    requires s + r < |rows| && Uniform(rows, k) && f < k
    ensures VectorPos(k, r, f) < |Concat(rows[s..])| && Concat(rows[s..])[VectorPos(k, r, f)] == Entry(rows[s + r], f)
    ensures Entry(rows[s + r], f) == rows[s + r][f]
  {
    hide Concat;
    assert forall i :: 0 <= i < |rows[s..]| ==> rows[s..][i] == rows[s + i];
    ConcatAt(rows[s..], k, r, f);
  }

  lemma VectorSet(nums: seq<nat>, ts: seq<TsBlkIdx>, rows: seq<CmpRow>, k: nat, r: nat, f: nat, e: CmpBlkIdx)
    requires Sum(nums) + r < |rows| == |ts| && Uniform(rows, k) && f < k
    ensures var b := Sum(nums) + r; var rows' := rows[b := rows[b][f := e]];
            VectorPos(k, r, f) < |Concat(rows[Sum(nums)..])|
            && Concat(rows'[Sum(nums)..]) == Concat(rows[Sum(nums)..])[VectorPos(k, r, f) := e]
            && SpillBytes(nums, ts, rows', k) == SpillBytes(nums, ts, rows, k)
  {
    hide Concat, SpillBytes;
    var s, b := Sum(nums), Sum(nums) + r;
    assert forall i :: 0 <= i < |rows[s..]| ==> rows[s..][i] == rows[s + i];
    ConcatSet(rows[s..], k, r, f, e);
    assert rows[s..][r] == rows[b];
    UpdateBehind(rows, s, r, rows[b][f := e]);
    SpillStays(nums, ts, rows, k, ts, rows[b := rows[b][f := e]]);
  }

  lemma LastOfColumn(b: nat, n: nat, k: nat, f: nat)
    requires f < k && b <= n
    ensures b * k + f < n * k <==> b < n
    ensures b < n ==> (b + 1) * k + f == b * k + f + k
  {
    Distribute(k, b, 1);
    if b < n {
      Distribute(k, b, n - b);
      MulGrows(n - b, k);
    }
  }

  /** Sync's gathering of every k-th entry, from entry f on. */
  method GatherRun(cmpIdxVec: seq<CmpBlkIdx>, k: nat, f: nat, ghost rows: seq<CmpRow>) returns (tmp: Bytes)
    requires cmpIdxVec == Concat(rows) && Uniform(rows, k) && f < k
    ensures tmp == CmpRun(rows, f)
  {
    hide Concat, CmpBytes, CmpRun;
    ConcatLength(rows, k);
    tmp := [];
    var idx := f;
    ghost var b := 0;
    EmptyRun(f);
    assert rows[..0] == [];
    while idx < |cmpIdxVec|
      invariant b <= |rows| && idx == b * k + f
      invariant tmp == CmpRun(rows[..b], f)
      decreases |rows| - b
    {
      LastOfColumn(b, |rows|, k, f);
      ConcatAt(rows, k, b, f);
      CmpRunSnoc(rows[..b], rows[b], f);
      assert rows[..b + 1] == rows[..b] + [rows[b]];
      tmp := tmp + CmpBytes(cmpIdxVec[idx]);
      idx := idx + k;
      b := b + 1;
    }
    LastOfColumn(b, |rows|, k, f);
    assert rows[..b] == rows;
  }

  /** One run per field at the end of the side file. */
  method WriteRuns(file: Bytes, cmpIdxVec: seq<CmpBlkIdx>, k: nat, ghost rows: seq<CmpRow>) returns (r: Bytes)
    requires cmpIdxVec == Concat(rows) && Uniform(rows, k)
    ensures r == file + CmpRuns(rows, k)
  {
    hide Concat, CmpRun, CmpRuns;
    r := file;
    EmptyRuns(rows);
    for f := 0 to k
      invariant r == file + CmpRuns(rows, f)
    {
      var tmp := GatherRun(cmpIdxVec, k, f, rows);
      CmpRunsStep(rows, f);
      r := WriteAt(r, |r|, tmp);
    }
  }

  /** First loop of WriteIdxBlk. */
  method CopyTimestamps(file: Bytes, idxFile: Bytes, nums: seq<nat>, k: nat, ghost ts: seq<TsBlkIdx>, ghost rows: seq<CmpRow>)
    returns (r: Bytes, tsIdxCnt: nat)
    requires Sum(nums) == |ts| == |rows| && idxFile == SpillBytes(nums, ts, rows, k)
    ensures r == file + TsRun(ts) && tsIdxCnt == |ts|
  {
    hide SpillBytes, TsRun, Sum, IndexSize;
    r, tsIdxCnt := file, 0;
    var partPos: nat := 0;
    NoParts(k);
    assert ts[..0] == [] && nums[..0] == [];
    for i := 0 to |nums|
      invariant tsIdxCnt == Sum(nums[..i]) <= |ts| && partPos == IndexSize(k, tsIdxCnt)
      invariant r == file + TsRun(ts[..tsIdxCnt])
    {
      var n := nums[i];
      SumStep(nums, i);
      SpilledTs(nums, ts, rows, k, i, tsIdxCnt, n);
      TsRunAppend(ts[..tsIdxCnt], ts[tsIdxCnt..tsIdxCnt + n]);
      assert ts[..tsIdxCnt + n] == ts[..tsIdxCnt] + ts[tsIdxCnt..tsIdxCnt + n];
      IndexSizeSum(k, tsIdxCnt, n);
      r := WriteAt(r, |r|, ReadAt(idxFile, partPos, TS_SIZE * n));
      partPos := partPos + IndexSize(k, n);
      tsIdxCnt := tsIdxCnt + n;
    }
    assert nums[..|nums|] == nums && ts[..|ts|] == ts;
  }

  /** Second loop of WriteIdxBlk, for one field. */
  method CopyRun(file: Bytes, idxFile: Bytes, nums: seq<nat>, k: nat, f: nat, ghost ts: seq<TsBlkIdx>, ghost rows: seq<CmpRow>)
    returns (r: Bytes)
    requires Sum(nums) == |ts| == |rows| && idxFile == SpillBytes(nums, ts, rows, k) && f < k
    ensures r == file + CmpRun(rows, f)
  {
    hide SpillBytes, CmpRun, Sum, IndexSize;
    r := file;
    var partPos: nat := 0;
    ghost var s: nat := 0;
    NoParts(k);
    EmptyRun(f);
    assert rows[..0] == [] && nums[..0] == [];
    for i := 0 to |nums|
      invariant s == Sum(nums[..i]) <= |rows| && partPos == IndexSize(k, s)
      invariant r == file + CmpRun(rows[..s], f)
    {
      var n := nums[i];
      SumStep(nums, i);
      SpilledRun(nums, ts, rows, k, i, s, rows[s..s + n], f);
      CmpRunAppend(rows[..s], rows[s..s + n], f);
      assert rows[..s + n] == rows[..s] + rows[s..s + n];
      IndexSizeSum(k, s, n);
      var offsetPos := IndexSize(f, n);
      r := WriteAt(r, |r|, ReadAt(idxFile, partPos + offsetPos, CMP_SIZE * n));
      partPos := partPos + IndexSize(k, n);
      s := s + n;
    }
    assert nums[..|nums|] == nums && rows[..|rows|] == rows;
  }

  method CopyRuns(file: Bytes, idxFile: Bytes, nums: seq<nat>, k: nat, ghost ts: seq<TsBlkIdx>, ghost rows: seq<CmpRow>)
    returns (r: Bytes)
    requires Sum(nums) == |ts| == |rows| && idxFile == SpillBytes(nums, ts, rows, k)
    ensures r == file + CmpRuns(rows, k)
  {
    hide SpillBytes, CmpRun, CmpRuns, Sum;
    r := file;
    EmptyRuns(rows);
    for f := 0 to k
      invariant r == file + CmpRuns(rows, f)
    {
      r := CopyRun(r, idxFile, nums, k, f, ts, rows);
      CmpRunsStep(rows, f);
    }
  }

  class CompPartBuilder {
    const env: Env
    const schema: seq<FieldType>
    const builders: seq<CompValBuilder>
    const tsIdxCapacity: nat

    var devId: Int64
    var bgTstamp: Int64
    var dataOffset: nat
    var dataFile: Bytes
    var idxFile: Bytes
    var arena: map<nat, Bytes>
    var arenaTop: nat
    var flushSize: nat
    var tsIdxVec: seq<TsBlkIdx>
    var cmpIdxVec: seq<CmpBlkIdx>
    var idxNumVec: seq<nat>

    ghost var openRows: seq<Row>
    ghost var blocks: seq<Block>
    ghost var tsAll: seq<TsBlkIdx>
    ghost var cmpAll: seq<CmpRow>
    ghost var placed: nat
    /** The file's own meta data, and the columns behind it in the order they were written. */
    ghost const meta: Bytes
    ghost var written: seq<Key>

    /** Layout of the data file before entry f of block b in Sync's loop. */
    ghost predicate LayoutOK(p0: nat, f: nat, b: nat)
      reads this`dataFile, this`blocks, this`tsAll, this`cmpAll, this`written
    {
      WrittenOK(env, schema, meta, dataFile, blocks, tsAll, cmpAll, written, p0, f, b)
    }

    /** Every row appended so far, in order. */
    ghost function Rows(): seq<Row>
      reads this`blocks, this`openRows
    {
      RowsOf(blocks) + openRows
    }

    ghost predicate BuildersOK()
      reads builders
    {
      && SchemaOK(schema) && |builders| == |schema|
      && (forall i, j :: 0 <= i < j < |builders| ==> builders[i] != builders[j])
      && (forall i :: 0 <= i < |builders| ==> builders[i].Valid() && builders[i].fieldType == schema[i])
    }

    /** The open block: devId_ is positive exactly while it has rows, and every column builder
        holds exactly its column of these rows. */
    ghost predicate OpenOK()
      reads this`devId, this`bgTstamp, this`openRows, builders
    {
      && BuildersOK()
      && (devId > 0 <==> openRows != [])
      && (openRows != [] ==> bgTstamp == RowTs(openRows[0]))
      && |openRows| <= BLOCK_MAX_ROWS
      && (forall i :: 0 <= i < |openRows| ==> RowOK(schema, openRows[i]) && RowDev(openRows[i]) == devId)
      && (forall f :: TSTAMP_INDEX <= f < |builders| ==>
            builders[f].vals == Column(openRows, f) && |builders[f].data| <= RAW_BUFFER)
    }

    /** Between two calls the open block can take one more row. */
    ghost predicate Room()
      reads this`openRows, builders
    {
      && |openRows| < BLOCK_MAX_ROWS
      && (forall f :: TSTAMP_INDEX <= f < |builders| ==> |builders[f].data| < FLUSH_LENGTH)
    }

    /** The vectors hold the index of the closed blocks that are not spilled yet. */
    ghost predicate VectorsOK()
      reads this`idxNumVec, this`tsIdxVec, this`cmpIdxVec, this`tsAll, this`cmpAll
    {
      && SchemaOK(schema)
      && Sum(idxNumVec) <= |tsAll| == |cmpAll| && Uniform(cmpAll, |schema| - DATA_COLUMN)
      && tsIdxVec == tsAll[Sum(idxNumVec)..]
      && cmpIdxVec == Concat(cmpAll[Sum(idxNumVec)..])
    }

    /** The side file holds the others. */
    ghost predicate SpillOK()
      reads this`idxFile, this`idxNumVec, this`tsIdxVec, this`cmpIdxVec, this`tsAll, this`cmpAll
    {
      VectorsOK() && idxFile == SpillBytes(idxNumVec, tsAll, cmpAll, |schema| - DATA_COLUMN)
    }

    /** Files, index vectors and the entries of every closed block. */
    ghost predicate IndexOK()
      reads this`dataOffset, this`dataFile, this`idxFile, this`arena, this`arenaTop, this`flushSize, this`tsIdxVec,
            this`cmpIdxVec, this`idxNumVec, this`blocks, this`tsAll, this`cmpAll, this`placed, this`written
    {
      && EntriesOK(env, schema, dataFile, arena, blocks, tsAll, cmpAll, placed) && LayoutOK(placed, 0, placed)
      && |dataFile| == dataOffset
      && (forall p :: p in arena ==> p < arenaTop)
      && SpillOK() && Sum(idxNumVec) <= placed
      && flushSize == (placed - Sum(idxNumVec)) * (|schema| - DATA_COLUMN)
    }

    /** Where the rows were cut into blocks: between two calls the last block is full, or the open
        one has another device, and the open one was not full before its last row. */
    ghost predicate CutOK()
      reads this`blocks, this`openRows
    {
      && CutRight(schema, blocks) && NotLate(schema, openRows)
      && if openRows == [] then blocks == [] || Full(schema, blocks[|blocks| - 1].rows)
         else LastFull(schema, blocks, RowDev(openRows[0]))
    }

    ghost predicate Valid()
      reads this, builders
    {
      OpenOK() && IndexOK() && CutOK() && |tsIdxVec| < tsIdxCapacity
    }

    /** Create: the file begins with its meta data, the index vectors are reserved. */
    constructor (env: Env, partCode: UInt32, fields: seq<FieldInfo>)
      requires SchemaOK(Types(fields)) && FieldsOK(fields)
      ensures Valid() && Room() && fresh(builders) && Rows() == []
      ensures tsIdxCapacity == if |fields| < 32 then 8192 else if |fields| < 64 then 4096 else if |fields| < 128 then 2048 else 1024
      ensures this.env == env && schema == Types(fields) && dataFile == meta == MetaBytes(env, partCode, fields)
    {
      hide EncodeColumn, IndexOK, CompValBuilder.Valid, MetaBytes;
      var typeVec := Types(fields);
      var vec: seq<CompValBuilder> := [];
      for idx := 0 to |fields|
        invariant |vec| == idx && fresh(vec)
        invariant forall i, j :: 0 <= i < j < |vec| ==> vec[i] != vec[j]
        invariant forall i :: 0 <= i < |vec| ==> vec[i].Valid() && vec[i].fieldType == typeVec[i] && vec[i].vals == [] && vec[i].data == []
      {
        var builder := new CompValBuilder(typeVec[idx]);
        vec := vec + [builder];
      }
      this.env, schema, builders, meta := env, typeVec, vec, MetaBytes(env, partCode, fields);
      tsIdxCapacity := if |fields| < 32 then 8192 else if |fields| < 64 then 4096 else if |fields| < 128 then 2048 else 1024;
      devId, bgTstamp := -1, 0;
      dataFile, dataOffset, idxFile := MetaBytes(env, partCode, fields), META_SIZE, [];
      arena, arenaTop, flushSize := map[], 0, 0;
      tsIdxVec, cmpIdxVec, idxNumVec := [], [], [];
      openRows, blocks, tsAll, cmpAll, placed, written := [], [], [], [], 0, [];
      new;
      NoClosedBlocks();
      NoOpenRows();
    }

    lemma NoClosedBlocks()
      requires SchemaOK(schema) && |dataFile| == dataOffset && idxFile == [] && arena == map[] && flushSize == 0
      requires tsIdxVec == [] && cmpIdxVec == [] && idxNumVec == []
      requires blocks == [] && tsAll == [] && cmpAll == [] && placed == 0 && dataFile == meta && written == []
      ensures IndexOK()
    {
      hide BlockOK, TsPlaced, CmpPlaced, CmpPending, WrittenOK;
      WrittenNone(env, schema, meta);
      var k := |schema| - DATA_COLUMN;
      assert Sum(idxNumVec) == 0 && SpillBytes(idxNumVec, tsAll, cmpAll, k) == [];
      NothingLeft(cmpAll);
      assert cmpAll[0..] == cmpAll[|cmpAll|..] && tsAll[0..] == [];
      assert (placed - Sum(idxNumVec)) * k == 0;
    }

    /** State of Sync's strided double loop before entry f of block b, with these contents of the
        data file and of the vector of column entries. */
    ghost predicate SyncingWith(file: Bytes, vec: seq<CmpBlkIdx>, rows: seq<CmpRow>, keys: seq<Key>, p0: nat, f: nat, b: nat)
      reads this`arena, this`idxNumVec, this`idxFile, this`tsIdxVec, this`blocks, this`tsAll
    {
      && SyncOK(env, schema, file, arena, blocks, tsAll, rows, p0, f, b)
      && WrittenOK(env, schema, meta, file, blocks, tsAll, rows, keys, p0, f, b)
      && SchemaOK(schema)
      && Sum(idxNumVec) <= |tsAll| == |rows| && Uniform(rows, |schema| - DATA_COLUMN)
      && tsIdxVec == tsAll[Sum(idxNumVec)..] && vec == Concat(rows[Sum(idxNumVec)..])
      && idxFile == SpillBytes(idxNumVec, tsAll, rows, |schema| - DATA_COLUMN)
    }

    ghost predicate Syncing(p0: nat, f: nat, b: nat)
      reads this`dataOffset, this`dataFile, this`arena, this`idxNumVec, this`idxFile, this`tsIdxVec, this`cmpIdxVec,
            this`blocks, this`tsAll, this`cmpAll, this`written
    {
      SyncingWith(dataFile, cmpIdxVec, cmpAll, written, p0, f, b) && |dataFile| == dataOffset
    }

    lemma SyncingNextField(p0: nat, f: nat)
      requires Syncing(p0, f, |blocks|)
      ensures Syncing(p0, f + 1, p0)
    {
      hide SyncOK, SpillBytes, WrittenOK;
      SyncNextField(env, schema, dataFile, arena, blocks, tsAll, cmpAll, p0, f);
      WrittenNextField(env, schema, meta, dataFile, blocks, tsAll, cmpAll, written, p0, f);
    }

    /** One round of the inner loop: the payload is written at the end of the data file and the
        entry is patched from arena pointer to file offset. */
    method PatchEntry(idx: nat, ghost p0: nat, ghost f: nat, ghost r: nat)
      requires Syncing(p0, f, Sum(idxNumVec) + r)
      requires Sum(idxNumVec) <= p0 <= Sum(idxNumVec) + r < |blocks| && f < |schema| - DATA_COLUMN
      requires idx == VectorPos(|schema| - DATA_COLUMN, r, f)
      modifies this`dataOffset, this`dataFile, this`cmpIdxVec, this`cmpAll, this`written
      ensures Syncing(p0, f, Sum(idxNumVec) + r + 1) && |cmpIdxVec| == |old(cmpIdxVec)|
      ensures written == old(written) + [Key(Sum(idxNumVec) + r, DATA_COLUMN + f)]
      ensures dataFile == old(dataFile) + PayloadOf(env, schema, blocks, Key(Sum(idxNumVec) + r, DATA_COLUMN + f))
    {
      hide CompPartBuilder.SyncingWith, CmpPrefix, PayloadOf, VectorPos, Sum;
      PendingEntry(idx, p0, f, r);
      var entry := cmpIdxVec[idx];
      var data := arena[entry.blkPos];
      var patched := entry.(blkPos := dataOffset);
      Uncovered(TsBlkIdx(0, 0, 0, 0, 0), patched, env.crc32(CmpPrefix(patched)));
      patched := patched.(crc := env.crc32(CmpPrefix(patched)));
      ghost var rows := EntryPatched(idx, p0, f, r, patched);
      cmpIdxVec := cmpIdxVec[idx := patched];
      dataFile := WriteAt(dataFile, dataOffset, data);
      dataOffset := dataOffset + |data|;
      cmpAll, written := rows, written + [Key(Sum(idxNumVec) + r, DATA_COLUMN + f)];
    }

    /** Before entry f of block b is patched it points to the payload in the arena. */
    lemma PendingEntry(idx: nat, p0: nat, f: nat, r: nat)
      requires Syncing(p0, f, Sum(idxNumVec) + r)
      requires Sum(idxNumVec) <= p0 <= Sum(idxNumVec) + r < |blocks| && f < |schema| - DATA_COLUMN
      requires idx == VectorPos(|schema| - DATA_COLUMN, r, f)
      ensures idx < |cmpIdxVec| && cmpIdxVec[idx].blkPos in arena
      ensures arena[cmpIdxVec[idx].blkPos] == PayloadOf(env, schema, blocks, Key(Sum(idxNumVec) + r, DATA_COLUMN + f))
    {
      hide SyncOK, Concat, SpillBytes, Sum, Uniform, WrittenOK, PayloadOf, VectorPos;
      SyncShape(env, schema, dataFile, arena, blocks, tsAll, cmpAll, p0, f, Sum(idxNumVec) + r);
      VectorAt(cmpAll, Sum(idxNumVec), |schema| - DATA_COLUMN, r, f);
    }

    /** The entries with the patched one, and the state after its payload was written. */
    lemma EntryPatched(idx: nat, p0: nat, f: nat, r: nat, e: CmpBlkIdx) returns (rows: seq<CmpRow>)
      requires Syncing(p0, f, Sum(idxNumVec) + r)
      requires Sum(idxNumVec) <= p0 <= Sum(idxNumVec) + r < |blocks| && f < |schema| - DATA_COLUMN
      requires idx == VectorPos(|schema| - DATA_COLUMN, r, f) < |cmpIdxVec|
      requires e.blkPos == dataOffset && e.blkLen == cmpIdxVec[idx].blkLen && e.crc == env.crc32(CmpPrefix(e))
      ensures var k := Key(Sum(idxNumVec) + r, DATA_COLUMN + f);
              SyncingWith(dataFile + PayloadOf(env, schema, blocks, k), cmpIdxVec[idx := e], rows, written + [k],
                          p0, f, Sum(idxNumVec) + r + 1)
    {
      hide SyncOK, Concat, SpillBytes, Sum, Uniform, WrittenOK, PayloadOf, VectorPos;
      var b, k := Sum(idxNumVec) + r, |schema| - DATA_COLUMN;
      SyncShape(env, schema, dataFile, arena, blocks, tsAll, cmpAll, p0, f, b);
      VectorAt(cmpAll, Sum(idxNumVec), k, r, f);
      EntryInside(cmpAll, k, b, f);
      SyncStep(env, schema, dataFile, arena, blocks, tsAll, cmpAll, p0, f, b, e);
      WrittenStep(env, schema, meta, dataFile, blocks, tsAll, cmpAll, written, p0, f, b, e);
      VectorSet(idxNumVec, tsAll, cmpAll, k, r, f, e);
      rows := cmpAll[b := cmpAll[b][f := e]];
    }

    /** The double loop of Sync visits every pending entry exactly once: the file grows by the
        payloads of the pending columns, each of them once, and by nothing else. */
    method WritePending() returns (ghost added: seq<Key>)
      requires IndexOK()
      modifies this`dataOffset, this`dataFile, this`cmpIdxVec, this`cmpAll, this`placed, this`written
      ensures placed == |blocks|
      ensures EntriesOK(env, schema, dataFile, arena, blocks, tsAll, cmpAll, placed) && LayoutOK(placed, 0, placed)
      ensures |dataFile| == dataOffset && SpillOK()
      ensures written == old(written) + added && Once(added)
      ensures forall k :: k in added <==> old(placed) <= k.blk < |blocks| && DATA_COLUMN <= k.field < |schema|
      ensures dataFile == old(dataFile) + PayloadsOf(env, schema, blocks, added)
    {
      hide EntriesOK, SyncOK, Concat, SpillBytes, Sum, WrittenOK, PayloadsOf, Once;
      ghost var p0 := placed;
      EntriesShape(env, schema, dataFile, arena, blocks, tsAll, cmpAll, placed);
      SyncStart(env, schema, dataFile, arena, blocks, tsAll, cmpAll, placed);
      ConcatLength(cmpAll[Sum(idxNumVec)..], |schema| - DATA_COLUMN);
      ghost var before := written;
      WrittenKeys(p0);
      added := WriteFields(p0);
      SyncDone(env, schema, dataFile, arena, blocks, tsAll, cmpAll, p0);
      WrittenDone(env, schema, meta, dataFile, blocks, tsAll, cmpAll, written, p0);
      PendingAdded(p0, before, added);
      placed := |blocks|;
    }

    lemma PendingAdded(p0: nat, before: seq<Key>, added: seq<Key>)
      requires LayoutOK(|blocks|, 0, |blocks|) && written == before + added && p0 <= |blocks|
      requires forall k :: k in before <==> InFile(|schema|, |blocks|, p0, 0, p0, k)
      ensures Once(added)
      ensures forall k :: k in added <==> p0 <= k.blk < |blocks| && DATA_COLUMN <= k.field < |schema|
    {
      hide PayloadsOf, PosOf, Once, InFile;
      AddedPending(|schema|, |blocks|, p0, before, added);
    }

    lemma WrittenKeys(p0: nat)
      requires LayoutOK(p0, 0, p0)
      ensures forall k :: k in written <==> InFile(|schema|, |blocks|, p0, 0, p0, k)
    {
      hide PayloadsOf, PosOf, Once, InFile;
    }

    method WriteFields(ghost p0: nat) returns (ghost added: seq<Key>)
      requires SchemaOK(schema) && Sum(idxNumVec) <= p0 <= |blocks|
      requires Syncing(p0, 0, p0) && flushSize == (p0 - Sum(idxNumVec)) * (|schema| - DATA_COLUMN)
      requires |cmpIdxVec| == (|blocks| - Sum(idxNumVec)) * (|schema| - DATA_COLUMN)
      modifies this`dataOffset, this`dataFile, this`cmpIdxVec, this`cmpAll, this`written
      ensures Syncing(p0, |schema| - DATA_COLUMN, p0)
      ensures written == old(written) + added && dataFile == old(dataFile) + PayloadsOf(env, schema, blocks, added)
    {
      hide Syncing, Sum, PayloadsOf, PayloadOf;
      added := [];
      PayloadsNone(env, schema, blocks);
      ghost var s, n := Sum(idxNumVec), |blocks| - Sum(idxNumVec);
      var k := |schema| - DATA_COLUMN;
      for f := 0 to k
        invariant Syncing(p0, f, p0) && |cmpIdxVec| == n * k
        invariant written == old(written) + added && dataFile == old(dataFile) + PayloadsOf(env, schema, blocks, added)
      {
        var idx := flushSize + f;
        ghost var r := p0 - s;
        while idx < |cmpIdxVec|
          invariant idx == r * k + f && p0 - s <= r <= n
          invariant Syncing(p0, f, s + r) && |cmpIdxVec| == n * k
          invariant written == old(written) + added && dataFile == old(dataFile) + PayloadsOf(env, schema, blocks, added)
          decreases n - r
        {
          LastOfColumn(r, n, k, f);
          PatchEntry(idx, p0, f, r);
          PayloadsSnoc(env, schema, blocks, added, Key(s + r, DATA_COLUMN + f));
          added := added + [Key(s + r, DATA_COLUMN + f)];
          idx := idx + k;
          r := r + 1;
        }
        LastOfColumn(r, n, k, f);
        SyncingNextField(p0, f);
      }
    }

    /** Appending the index of the blocks not yet spilled to the side file. */
    method Spill()
      requires SpillOK()
      modifies this`idxFile, this`idxNumVec, this`tsIdxVec, this`cmpIdxVec
      ensures SpillOK() && Sum(idxNumVec) == |tsAll| && tsIdxVec == []
    {
      hide Concat, Sum, SpillBytes, TsRun, CmpRuns;
      var k := |schema| - DATA_COLUMN;
      ghost var s, rows := Sum(idxNumVec), cmpAll[Sum(idxNumVec)..];
      assert forall i :: 0 <= i < |rows| ==> rows[i] == cmpAll[s + i];
      ghost var before := idxFile;
      idxFile := WriteAt(idxFile, |idxFile|, TsRun(tsIdxVec));
      idxFile := WriteRuns(idxFile, cmpIdxVec, k, rows);
      assert idxFile == before + IndexBytes(tsIdxVec, rows, k);
      SpillRest(idxNumVec, tsAll, cmpAll, k);
      idxNumVec := idxNumVec + [|tsIdxVec|];
      tsIdxVec := [];
      cmpIdxVec := [];
      NothingLeft(cmpAll);
    }

    method Sync(syncAll: bool)
      requires IndexOK() && |tsIdxVec| <= tsIdxCapacity && tsIdxCapacity > 0
      modifies this`dataOffset, this`dataFile, this`cmpIdxVec, this`cmpAll, this`placed, this`idxFile,
               this`idxNumVec, this`tsIdxVec, this`flushSize, this`arena, this`written
      ensures IndexOK() && |tsIdxVec| < tsIdxCapacity
      ensures placed == |blocks| && (syncAll ==> Sum(idxNumVec) == |blocks|)
    {
      hide CompPartBuilder.IndexOK, CompPartBuilder.SpillOK, CompPartBuilder.LayoutOK, Sum, EntriesOK, PayloadsOf, Once;
      NothingNew();
      if |tsIdxVec| == 0 {
        return;
      }
      ghost var added := WritePending();
      EntriesShape(env, schema, dataFile, arena, blocks, tsAll, cmpAll, placed);
      if |tsIdxVec| == tsIdxCapacity || syncAll {
        Spill();
      }
      flushSize := |cmpIdxVec|;
      ArenaDropped(env, schema, dataFile, arena, blocks, tsAll, cmpAll);
      arena := map[];
      Settled();
    }

    /** With empty vectors everything is spilled. */
    lemma NothingNew()
      requires IndexOK()
      ensures |tsIdxVec| == 0 ==> placed == Sum(idxNumVec) == |blocks|
    {
      hide Concat, Sum, SpillBytes, EntriesOK, WrittenOK;
      EntriesShape(env, schema, dataFile, arena, blocks, tsAll, cmpAll, placed);
    }

    /** With an empty arena nothing may be pending. */
    lemma Settled()
      requires EntriesOK(env, schema, dataFile, arena, blocks, tsAll, cmpAll, placed) && LayoutOK(placed, 0, placed)
      requires |dataFile| == dataOffset && SpillOK() && arena == map[] && placed == |blocks| == |tsAll| && flushSize == |cmpIdxVec|
      ensures IndexOK()
    {
      hide Concat, Sum, SpillBytes, EntriesOK, WrittenOK;
      assert forall i :: 0 <= i < |cmpAll[Sum(idxNumVec)..]| ==> cmpAll[Sum(idxNumVec)..][i] == cmpAll[Sum(idxNumVec) + i];
      ConcatLength(cmpAll[Sum(idxNumVec)..], |schema| - DATA_COLUMN);
    }

    /** Compressed data behind its header. */
    method MakePayload(idx: nat) returns (r: Bytes)
      requires BuildersOK() && idx < |builders|
      ensures r == Payload(env, schema[idx], idx, |builders[idx].vals|, EncodeColumn(schema[idx], builders[idx].vals))
      ensures builders[idx].valCnt == |builders[idx].vals|
    {
      hide EncodeColumn, HeadPrefix, HeadBytes;
      var comp := env.compress(builders[idx].data);
      var head := CmpBlockHead(TypeCode(schema[idx]), idx, builders[idx].valCnt, |comp|, env.crc32(comp), 0);
      head := head.(crc := env.crc32(HeadPrefix(head)));
      r := HeadBytes(head) + comp;
    }

    /** Flush, timestamp column: written to the data file at once. */
    method FlushTimestamps(ghost blk: Block) returns (tsIdx: TsBlkIdx)
      requires OpenOK() && openRows != [] && blk == Block(devId, openRows) && |dataFile| == dataOffset
      modifies this`dataFile, this`dataOffset, this`tsIdxVec, builders[TSTAMP_INDEX]
      ensures dataFile == old(dataFile) + BlockPayload(env, schema[TSTAMP_INDEX], blk, TSTAMP_INDEX) && |dataFile| == dataOffset
      ensures tsIdx.blkPos == |old(dataFile)|
      ensures tsIdxVec == old(tsIdxVec) + [tsIdx] && TsPlaced(env, schema, dataFile, tsIdx, blk)
      ensures BuildersOK() && builders[TSTAMP_INDEX].vals == [] && builders[TSTAMP_INDEX].data == []
      ensures forall f :: DATA_COLUMN <= f < |builders| ==> builders[f].vals == Column(blk.rows, f)
    {
      hide EncodeColumn, Payload, TsPrefix, RowOK, CompValBuilder.Valid;
      var payload := MakePayload(TSTAMP_INDEX);
      dataFile := WriteAt(dataFile, dataOffset, payload);
      AtEnd(old(dataFile), payload);
      tsIdx := TsBlkIdx(devId, bgTstamp, dataOffset, builders[TSTAMP_INDEX].valCnt, 0);
      Uncovered(tsIdx, CmpBlkIdx(0, 0, 0), env.crc32(TsPrefix(tsIdx)));
      tsIdx := tsIdx.(crc := env.crc32(TsPrefix(tsIdx)));
      tsIdxVec := tsIdxVec + [tsIdx];
      dataOffset := dataOffset + |payload|;
      builders[TSTAMP_INDEX].Reset();
    }

    /** Flush, any other column: copied into the arena, the entry pointing there. */
    method FlushColumn(idx: nat, ghost blk: Block) returns (blkIdx: CmpBlkIdx)
      requires BuildersOK() && DATA_COLUMN <= idx < |builders|
      requires builders[idx].vals == Column(blk.rows, idx)
      modifies this`arena, this`arenaTop, this`cmpIdxVec, builders[idx]
      ensures builders[idx].Valid() && builders[idx].vals == [] && builders[idx].data == []
      ensures arenaTop > old(arenaTop)
      ensures arena == old(arena)[old(arenaTop) := BlockPayload(env, schema[idx], blk, idx)]
      ensures cmpIdxVec == old(cmpIdxVec) + [blkIdx] && CmpPending(env, schema, arena, blkIdx, blk, idx - DATA_COLUMN)
    {
      hide EncodeColumn, Payload, CompValBuilder.Valid;
      var payload := MakePayload(idx);
      blkIdx := CmpBlkIdx(arenaTop, |payload|, idx);
      arena := arena[arenaTop := payload];
      arenaTop := arenaTop + |payload|;
      cmpIdxVec := cmpIdxVec + [blkIdx];
      builders[idx].Reset();
    }

    method FlushColumns(ghost blk: Block) returns (ghost row: CmpRow)
      requires BuildersOK()
      requires forall f :: DATA_COLUMN <= f < |builders| ==> builders[f].vals == Column(blk.rows, f)
      requires forall p :: p in arena ==> p < arenaTop
      modifies this`arena, this`arenaTop, this`cmpIdxVec, builders[DATA_COLUMN..]
      ensures BuildersOK()
      ensures forall f :: DATA_COLUMN <= f < |builders| ==> builders[f].vals == [] && builders[f].data == []
      ensures forall p :: p in arena ==> p < arenaTop
      ensures forall p :: p in old(arena) ==> p in arena && arena[p] == old(arena)[p]
      ensures cmpIdxVec == old(cmpIdxVec) + row && |row| == |schema| - DATA_COLUMN
      ensures forall f :: 0 <= f < |row| ==> CmpPending(env, schema, arena, row[f], blk, f)
    {
      hide EncodeColumn, BlockPayload, CompValBuilder.Valid;
      row := [];
      for idx := DATA_COLUMN to |builders|
        invariant BuildersOK()
        invariant forall f :: DATA_COLUMN <= f < idx ==> builders[f].vals == [] && builders[f].data == []
        invariant forall f :: idx <= f < |builders| ==> builders[f].vals == Column(blk.rows, f)
        invariant forall p :: p in arena ==> p < arenaTop
        invariant forall p :: p in old(arena) ==> p in arena && arena[p] == old(arena)[p]
        invariant cmpIdxVec == old(cmpIdxVec) + row && |row| == idx - DATA_COLUMN
        invariant forall f :: 0 <= f < |row| ==> CmpPending(env, schema, arena, row[f], blk, f)
      {
        var blkIdx := FlushColumn(idx, blk);
        row := row + [blkIdx];
      }
    }

    lemma OpenBlockOK()
      requires OpenOK() && openRows != []
      ensures BlockOK(schema, Block(devId, openRows))
    {
      hide EncodeColumn, RowOK;
      assert forall f :: TSTAMP_INDEX <= f < |builders| ==> builders[f].data == EncodeColumn(schema[f], Column(openRows, f));
    }

    /** The vectors after one more entry was pushed on each. */
    ghost method PushEntries(e: TsBlkIdx, row: CmpRow)
      requires SchemaOK(schema) && |row| == |schema| - DATA_COLUMN
      requires Sum(idxNumVec) <= |tsAll| == |cmpAll| && Uniform(cmpAll, |schema| - DATA_COLUMN)
      requires tsIdxVec == tsAll[Sum(idxNumVec)..] + [e]
      requires cmpIdxVec == Concat(cmpAll[Sum(idxNumVec)..]) + row
      requires idxFile == SpillBytes(idxNumVec, tsAll, cmpAll, |schema| - DATA_COLUMN)
      modifies this`tsAll, this`cmpAll
      ensures tsAll == old(tsAll) + [e] && cmpAll == old(cmpAll) + [row] && SpillOK()
    {
      hide Concat, Sum, SpillBytes;
      ghost var s := Sum(idxNumVec);
      ConcatSnoc(cmpAll[s..], row);
      AppendBehind(cmpAll, s, row);
      AppendBehind(tsAll, s, e);
      SpillStays(idxNumVec, tsAll, cmpAll, |schema| - DATA_COLUMN, tsAll + [e], cmpAll + [row]);
      tsAll, cmpAll := tsAll + [e], cmpAll + [row];
    }

    lemma NoOpenRows()
      requires BuildersOK() && openRows == [] && devId <= 0
      requires forall f :: TSTAMP_INDEX <= f < |builders| ==> builders[f].vals == []
      ensures OpenOK() && Room()
    {
    }

    /** Flush, all columns of the open block. */
    method FlushBuilders(ghost blk: Block) returns (e: TsBlkIdx, ghost row: CmpRow)
      requires OpenOK() && openRows != [] && blk == Block(devId, openRows) && |dataFile| == dataOffset
      requires forall p :: p in arena ==> p < arenaTop
      modifies this`dataFile, this`dataOffset, this`tsIdxVec, this`arena, this`arenaTop, this`cmpIdxVec, builders
      ensures dataFile == old(dataFile) + BlockPayload(env, schema[TSTAMP_INDEX], blk, TSTAMP_INDEX) && |dataFile| == dataOffset
      ensures e.blkPos == |old(dataFile)| && tsIdxVec == old(tsIdxVec) + [e] && TsPlaced(env, schema, dataFile, e, blk)
      ensures forall p :: p in arena ==> p < arenaTop
      ensures forall p :: p in old(arena) ==> p in arena && arena[p] == old(arena)[p]
      ensures cmpIdxVec == old(cmpIdxVec) + row && |row| == |schema| - DATA_COLUMN
      ensures forall f :: 0 <= f < |row| ==> CmpPending(env, schema, arena, row[f], blk, f)
      ensures BuildersOK() && forall f :: TSTAMP_INDEX <= f < |builders| ==> builders[f].vals == []
    {
      hide EncodeColumn, BlockPayload, CompValBuilder.Valid, RowOK, TsPlaced, CmpPending, Column;
      e := FlushTimestamps(blk);
      row := FlushColumns(blk);
    }

    /** The open block becomes the last closed one. */
    method CloseBlock()
      requires OpenOK() && IndexOK() && openRows != []
      modifies this`dataFile, this`dataOffset, this`tsIdxVec, this`arena, this`arenaTop, this`cmpIdxVec,
               this`blocks, this`tsAll, this`cmpAll, this`openRows, this`devId, this`written, builders
      ensures OpenOK() && IndexOK() && Room() && openRows == []
      ensures blocks == old(blocks) + [Block(old(devId), old(openRows))]
      ensures |tsIdxVec| == |old(tsIdxVec)| + 1
    {
      hide EncodeColumn, BlockPayload, CompValBuilder.Valid, Concat, Sum, SpillBytes, EntriesOK, RowOK, TsPlaced, CmpPending, BlockOK,
           WrittenOK, CompPartBuilder.OpenOK, CompPartBuilder.BuildersOK, CompPartBuilder.Room;
      ghost var blk := Block(devId, openRows);
      ghost var before, arenaBefore := dataFile, arena;
      OpenBlockOK();
      EntriesShape(env, schema, dataFile, arena, blocks, tsAll, cmpAll, placed);
      var e;
      ghost var row;
      e, row := FlushBuilders(blk);
      PushClosed(before, arenaBefore, blk, e, row);
      devId := -1;
      NoOpenRows();
    }

    /** Ghost bookkeeping of CloseBlock. */
    ghost method PushClosed(before: Bytes, arenaBefore: map<nat, Bytes>, blk: Block, e: TsBlkIdx, row: CmpRow)
      requires EntriesOK(env, schema, before, arenaBefore, blocks, tsAll, cmpAll, placed)
      requires WrittenOK(env, schema, meta, before, blocks, tsAll, cmpAll, written, placed, 0, placed) && e.blkPos == |before|
      requires SchemaOK(schema) && |dataFile| == dataOffset
      requires dataFile == before + BlockPayload(env, schema[TSTAMP_INDEX], blk, TSTAMP_INDEX)
      requires forall p :: p in arenaBefore ==> p in arena && arena[p] == arenaBefore[p]
      requires forall p :: p in arena ==> p < arenaTop
      requires BlockOK(schema, blk) && SchemaOK(schema) && TsPlaced(env, schema, dataFile, e, blk)
      requires |row| == |schema| - DATA_COLUMN
      requires forall f :: 0 <= f < |row| ==> CmpPending(env, schema, arena, row[f], blk, f)
      requires Sum(idxNumVec) <= placed && flushSize == (placed - Sum(idxNumVec)) * (|schema| - DATA_COLUMN)
      requires Sum(idxNumVec) <= |tsAll| == |cmpAll| && Uniform(cmpAll, |schema| - DATA_COLUMN)
      requires tsIdxVec == tsAll[Sum(idxNumVec)..] + [e]
      requires cmpIdxVec == Concat(cmpAll[Sum(idxNumVec)..]) + row
      requires idxFile == SpillBytes(idxNumVec, tsAll, cmpAll, |schema| - DATA_COLUMN)
      modifies this`blocks, this`openRows, this`tsAll, this`cmpAll, this`written
      ensures IndexOK() && blocks == old(blocks) + [blk] && openRows == []
    {
      hide Concat, Sum, SpillBytes, EntriesOK, TsPlaced, CmpPending, BlockOK, WrittenOK, BlockPayload;
      EntriesShape(env, schema, before, arenaBefore, blocks, tsAll, cmpAll, placed);
      WrittenClosed(env, schema, meta, before, blocks, tsAll, cmpAll, written, placed, blk, e, row);
      written := written + [Key(|blocks|, TSTAMP_INDEX)];
      EntriesStay(env, schema, before, BlockPayload(env, schema[TSTAMP_INDEX], blk, TSTAMP_INDEX), arenaBefore, arena,
                  blocks, tsAll, cmpAll, placed);
      EntriesSnoc(env, schema, dataFile, arena, blocks, tsAll, cmpAll, placed, blk, e, row);
      PushEntries(e, row);
      blocks, openRows := blocks + [blk], [];
    }

    /** Closes the open block, if there is one. The arena is emptied when it has grown too
        large, which is left open here, or when the timestamp vector is full. */
    method Flush()
      requires OpenOK() && IndexOK() && |tsIdxVec| < tsIdxCapacity
      requires CutRight(schema, blocks) && NotLate(schema, openRows) && LastFull(schema, blocks, devId)
      modifies this, builders
      ensures OpenOK() && IndexOK() && |tsIdxVec| < tsIdxCapacity && Room() && devId == -1 && Rows() == old(Rows())
      ensures openRows == [] && CutRight(schema, blocks)
      ensures blocks == if old(openRows) == [] then old(blocks) else old(blocks) + [Block(old(devId), old(openRows))]
    {
      hide EncodeColumn, RowOK, Column, CompPartBuilder.IndexOK, CompValBuilder.Valid, CutRight, NotLate, LastFull;
      if devId > 0 {
        RowsOfSnoc(blocks, Block(devId, openRows));
        CutSnoc(schema, blocks, Block(devId, openRows));
        CloseBlock();
      }
      devId := -1;
      NoOpenRows();
      var arenaFull: bool := *;
      if arenaFull || |tsIdxVec| == tsIdxCapacity {
        Sync(false);
      }
    }

    /** The open block can take this row next: it is empty or belongs to the row's device. */
    ghost predicate ReadyFor(row: Row)
      reads this`devId, this`bgTstamp, this`openRows, builders
    {
      && BuildersOK() && Room() && devId == RowDev(row)
      && bgTstamp == RowTs(if openRows == [] then row else openRows[0])
      && (forall i :: 0 <= i < |openRows| ==> RowOK(schema, openRows[i]) && RowDev(openRows[i]) == devId)
      && (forall f :: TSTAMP_INDEX <= f < |builders| ==> builders[f].vals == Column(openRows, f))
    }

    method SwitchDevice(row: Row)
      requires Valid() && Room() && RowOK(schema, row)
      modifies this, builders
      ensures ReadyFor(row) && IndexOK() && |tsIdxVec| < tsIdxCapacity && Rows() == old(Rows())
      ensures CutRight(schema, blocks) && LastFull(schema, blocks, RowDev(row))
    {
      hide EncodeColumn, RowOK, IndexOK, CompValBuilder.Valid, CutRight, NotLate, Full, Column, RowsOf;
      var dev := RowDev(row);
      if dev != devId {
        if devId > 0 {
          Flush();
        }
        devId := dev;
        bgTstamp := RowTs(row);
      } else {
        assert RowDev(row) > 0 by { RowHasDevice(schema, row); }
      }
    }

    /** A block is closed when the device changes, after 8192 rows, or when a column has
        reached FLUSH_LENGTH. */
    method Append(row: Row)
      requires Valid() && Room() && RowOK(schema, row)
      modifies this, builders
      ensures Valid() && Room() && Rows() == old(Rows()) + [row]
    {
      hide EncodeColumn, RowOK, IndexOK, CompValBuilder.Valid, Column, RowsOf, CutRight, Full;
      assert RowDev(row) > 0 by { RowHasDevice(schema, row); }
      SwitchDevice(row);
      assert !Full(schema, openRows) by { NotFull(); }
      var flushFlag := AppendValues(row);
      assert NotLate(schema, openRows) && RowDev(openRows[0]) == devId;
      if flushFlag || builders[TSTAMP_INDEX].valCnt >= BLOCK_MAX_ROWS {
        assert Full(schema, openRows) by { FullIs(flushFlag); }
        Flush();
      }
    }

    /** An open block with room is not full. */
    lemma NotFull()
      requires BuildersOK() && Room()
      requires forall f :: TSTAMP_INDEX <= f < |builders| ==> builders[f].vals == Column(openRows, f)
      ensures !Full(schema, openRows)
    {
      hide EncodeColumn, Column;
      assert forall f :: TSTAMP_INDEX <= f < |builders| ==> builders[f].data == EncodeColumn(schema[f], Column(openRows, f));
    }

    lemma FullIs(flushFlag: bool)
      requires BuildersOK()
      requires forall f :: TSTAMP_INDEX <= f < |builders| ==> builders[f].vals == Column(openRows, f)
      requires if flushFlag then exists f :: TSTAMP_INDEX <= f < |builders| && |builders[f].data| >= FLUSH_LENGTH
               else |openRows| >= BLOCK_MAX_ROWS
      ensures Full(schema, openRows)
    {
      hide EncodeColumn, Column;
      assert forall f :: TSTAMP_INDEX <= f < |builders| ==> builders[f].data == EncodeColumn(schema[f], Column(openRows, f));
    }

    /** The loop of Append over the columns. */
    method AppendValues(row: Row) returns (flushFlag: bool)
      requires BuildersOK() && RowOK(schema, row) && Room()
      requires forall f :: TSTAMP_INDEX <= f < |builders| ==> builders[f].vals == Column(openRows, f)
      modifies builders, this`openRows
      ensures BuildersOK() && openRows == old(openRows) + [row]
      ensures forall f :: TSTAMP_INDEX <= f < |builders| ==>
                builders[f].vals == Column(openRows, f) && |builders[f].data| <= RAW_BUFFER
      ensures if flushFlag then exists f :: TSTAMP_INDEX <= f < |builders| && |builders[f].data| >= FLUSH_LENGTH
              else forall f :: TSTAMP_INDEX <= f < |builders| ==> |builders[f].data| < FLUSH_LENGTH
      ensures builders[TSTAMP_INDEX].valCnt == |openRows|
    {
      hide EncodeColumn, CompValBuilder.Valid, Column, RowOK;
      RowLength(schema, row);
      flushFlag := false;
      ghost var big := 0;
      for idx := TSTAMP_INDEX to |row|
        invariant BuildersOK() && openRows == old(openRows)
        invariant forall f :: TSTAMP_INDEX <= f < idx ==>
                    builders[f].vals == Column(openRows + [row], f) && |builders[f].data| <= RAW_BUFFER
        invariant forall f :: idx <= f < |builders| ==>
                    builders[f].vals == Column(openRows, f) && |builders[f].data| < FLUSH_LENGTH
        invariant !flushFlag ==> forall f :: TSTAMP_INDEX <= f < idx ==> |builders[f].data| < FLUSH_LENGTH
        invariant flushFlag ==> TSTAMP_INDEX <= big < idx && |builders[big].data| >= FLUSH_LENGTH
        invariant TSTAMP_INDEX < idx ==> builders[TSTAMP_INDEX].valCnt == |openRows| + 1
      {
        AppendValue(idx, row);
        if |builders[idx].data| >= FLUSH_LENGTH {
          flushFlag, big := true, idx;
        }
      }
      openRows := openRows + [row];
    }

    method AppendValue(idx: nat, row: Row)
      requires BuildersOK() && RowOK(schema, row) && TSTAMP_INDEX <= idx < |builders|
      requires builders[idx].vals == Column(openRows, idx) && |builders[idx].data| < FLUSH_LENGTH
      modifies builders[idx]
      ensures BuildersOK()
      ensures builders[idx].vals == Column(openRows + [row], idx) && |builders[idx].data| <= RAW_BUFFER
      ensures builders[idx].valCnt == |openRows| + 1
      ensures forall f :: 0 <= f < |builders| && f != idx ==>
                builders[f].vals == old(builders[f].vals) && builders[f].data == old(builders[f].data)
                && builders[f].valCnt == old(builders[f].valCnt)
    {
      hide EncodeColumn, Column;
      assert ValueOK(row[idx], schema[idx]);
      DataGrowth(schema[idx], builders[idx].vals, row[idx]);
      ColumnSnoc(openRows, row, idx);
      var r := builders[idx].AppendVal(row[idx]);
    }

    /** The index block: padding up to a 1024-byte boundary, the timestamp entries of all
        spilled parts, the runs of every field over all parts, and the footer. */
    method WriteIdxBlk() returns (blkCnt: nat, ghost tsPos: nat)
      requires IndexOK() && placed == Sum(idxNumVec) == |blocks|
      modifies this`dataFile, this`dataOffset
      ensures PartFileOK(env, schema, dataFile, blocks, tsAll, cmpAll, tsPos) && meta <= dataFile && blkCnt == |blocks|
      ensures forall k :: IsColumn(schema, blocks, k) ==> PosOf(tsAll, cmpAll, k) >= |meta|
      ensures Gapless(env, schema, meta, dataFile, blocks, tsPos)
    {
      hide Gapless, PadBytes, WrittenOK, EntriesOK, SpillBytes, Sum, TsRun, CmpRuns, IndexBytes, FooterBytes, HeadBytes, PartFileOK,
           PayloadsApart, PayloadsOf, PosOf, Once;
      WrittenApart(env, schema, meta, dataFile, blocks, tsAll, cmpAll, written);
      MetaFirst(env, schema, meta, dataFile, blocks, tsAll, cmpAll, written, placed);
      ghost var before := dataFile;
      var k := |schema| - DATA_COLUMN;
      EntriesShape(env, schema, dataFile, arena, blocks, tsAll, cmpAll, placed);
      var pad := AlignPad();
      dataFile := WriteAt(dataFile, dataOffset, pad);
      dataOffset := dataOffset + |pad|;
      tsPos := dataOffset;
      var tsIdxCnt;
      dataFile, tsIdxCnt := CopyTimestamps(dataFile, idxFile, idxNumVec, k, tsAll, cmpAll);
      var footer := PartFooter(env, tsIdxCnt, dataOffset);
      dataFile := CopyRuns(dataFile, idxFile, idxNumVec, k, tsAll, cmpAll);
      assert dataFile == before + pad + IndexBytes(tsAll, cmpAll, k) by { IndexIs(before + pad, tsAll, cmpAll, k); }
      dataOffset := |dataFile|;
      dataFile := WriteAt(dataFile, dataOffset, FooterBytes(footer));
      FinishedOK(env, schema, before, pad, arena, blocks, tsAll, cmpAll, tsPos);
      AllWritten(before, pad, IndexBytes(tsAll, cmpAll, k), FooterBytes(footer));
      blkCnt := tsIdxCnt;
    }

    lemma AllWritten(before: Bytes, pad: Bytes, index: Bytes, footer: Bytes)
      requires SchemaOK(schema) && WrittenOK(env, schema, meta, before, blocks, tsAll, cmpAll, written, |blocks|, 0, |blocks|)
      requires 20 < |pad| <= 1044 && pad == PadBytes(env, |pad| - 20)
      ensures Gapless(env, schema, meta, before + pad + index + footer, blocks, |before| + |pad|)
    {
      hide WrittenOK, Gapless, PadBytes;
      assert before + pad + index + footer == before + pad + (index + footer);
      GaplessIs(env, schema, meta, before, blocks, tsAll, cmpAll, written, |pad| - 20, index + footer);
    }

    method AlignPad() returns (pad: Bytes)
      ensures (dataOffset + |pad|) % 1024 == 0 && 20 < |pad| <= 1044 && pad == PadBytes(env, |pad| - 20)
    {
      var alignPad := 1024 - (dataOffset + HEAD_SIZE) % 1024;
      var head := CmpBlockHead(0, 0, 0, alignPad, 0, 0);
      head := head.(crc := env.crc32(HeadPrefix(head)));
      pad := HeadBytes(head) + seq(alignPad, _ => 0);
    }

    /** Finish: the file holds exactly the appended rows, block after block. */
    method Finish() returns (blkCnt: nat, ghost tsPos: nat)
      requires Valid()
      modifies this, builders
      ensures PartFileOK(env, schema, dataFile, blocks, tsAll, cmpAll, tsPos) && meta <= dataFile && blkCnt == |blocks|
      ensures forall k :: IsColumn(schema, blocks, k) ==> PosOf(tsAll, cmpAll, k) >= |meta|
      ensures RowsOf(blocks) == old(Rows()) && CutRight(schema, blocks) && Gapless(env, schema, meta, dataFile, blocks, tsPos)
    {
      hide EncodeColumn, EntriesOK, PartFileOK, CompValBuilder.Valid, Sum, SpillBytes, Concat, RowsOf, WrittenOK, PosOf, CutRight,
           NotLate, Full, Gapless;
      Flush();
      Sync(true);
      blkCnt, tsPos := WriteIdxBlk();
    }
  }

  /** The finished file: data, padding, index, footer. */
  lemma FinishedOK(env: Env, schema: seq<FieldType>, data: Bytes, pad: Bytes, arena: map<nat, Bytes>,
                   blocks: seq<Block>, ts: seq<TsBlkIdx>, rows: seq<CmpRow>, tsPos: nat)
    requires EntriesOK(env, schema, data, arena, blocks, ts, rows, |blocks|)
    requires PayloadsApart(env, schema, blocks, ts, rows, |data|)
    requires tsPos == |data| + |pad| && tsPos % 1024 == 0
    ensures PartFileOK(env, schema,
                       data + pad + IndexBytes(ts, rows, |schema| - DATA_COLUMN) + FooterBytes(PartFooter(env, |blocks|, tsPos)),
                       blocks, ts, rows, tsPos)
  {
    hide BlockPayload, BlockOK, IndexBytes, FooterBytes, TsPlaced, CmpPlaced, PayloadsApart;
    ApartBefore(env, schema, blocks, ts, rows, |data|, tsPos);
    var k := |schema| - DATA_COLUMN;
    var index, footer := IndexBytes(ts, rows, k), FooterBytes(PartFooter(env, |blocks|, tsPos));
    IndexLength(ts, rows, k);
    EntriesStay(env, schema, data, pad + index + footer, arena, arena, blocks, ts, rows, |blocks|);
    assert data + (pad + index + footer) == data + pad + index + footer;
    AtEnd(data + pad, index);
    AtStays(data + pad + index, footer, tsPos, index);
    AtEnd(data + pad + index, footer);
  }

  lemma ApartBefore(env: Env, schema: seq<FieldType>, blocks: seq<Block>, ts: seq<TsBlkIdx>, rows: seq<CmpRow>, end: nat, end': nat)
    requires PayloadsApart(env, schema, blocks, ts, rows, end) && end <= end'
    ensures PayloadsApart(env, schema, blocks, ts, rows, end')
  {
    hide PosOf, PayloadOf;
  }

  lemma EntryInside(rows: seq<CmpRow>, k: nat, b: nat, f: nat)
    requires Uniform(rows, k) && b < |rows| && f < k
    ensures f < |rows[b]|
  {
  }

  /** One more closed block, its timestamps in the file and its columns in the arena. */
  lemma EntriesSnoc(env: Env, schema: seq<FieldType>, file: Bytes, arena: map<nat, Bytes>, blocks: seq<Block>,
                    ts: seq<TsBlkIdx>, rows: seq<CmpRow>, placed: nat, blk: Block, e: TsBlkIdx, row: CmpRow)
    requires EntriesOK(env, schema, file, arena, blocks, ts, rows, placed)
    requires BlockOK(schema, blk) && TsPlaced(env, schema, file, e, blk) && |row| == |schema| - DATA_COLUMN
    requires forall f :: 0 <= f < |schema| - DATA_COLUMN ==> CmpPending(env, schema, arena, row[f], blk, f)
    ensures EntriesOK(env, schema, file, arena, blocks + [blk], ts + [e], rows + [row], placed)
  {
    hide CmpPlaced, CmpPending, TsPlaced, BlockOK;
  }

  lemma RowLength(schema: seq<FieldType>, row: Row)
    requires RowOK(schema, row)
    ensures |row| == |schema|
  {
  }

  lemma ColumnSnoc(rows: seq<Row>, row: Row, f: nat)
    requires f < |row|
    ensures Column(rows + [row], f) == Column(rows, f) + [row[f]]
  {
  }

  /** One value adds less than the room between FLUSH_LENGTH and RAW_BUFFER. */
  lemma DataGrowth(t: FieldType, prev: seq<DBVal>, v: DBVal)
    requires ValueOK(v, t) && |EncodeColumn(t, prev)| < FLUSH_LENGTH
    ensures |EncodeColumn(t, prev + [v])| <= RAW_BUFFER
  {
    hide Token, AppendBit, EncodeColumn;
    EncodeColumnStep(t, prev, v);
    if !t.TBool? { TokenSize(t, prev, v); }
  }

  lemma UpdateBehind<T>(all: seq<T>, s: nat, r: nat, x: T)
    requires s + r < |all|
    ensures all[s + r := x][s..] == all[s..][r := x] && all[s + r := x][..s] == all[..s]
  {
  }

  lemma AppendBehind<T>(all: seq<T>, s: nat, x: T)
    requires s <= |all|
    ensures (all + [x])[s..] == all[s..] + [x] && (all + [x])[..s] == all[..s]
  {
  }

  lemma NothingLeft<T>(parts: seq<seq<T>>)
    ensures Concat(parts[|parts|..]) == []
  {
  }
}
