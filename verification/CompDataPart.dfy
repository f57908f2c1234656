/** The reader of a finished partition file (storage/comp_data_part.cpp). */
module CompDataParts {
  import opened Coding
  import opened DbValue
  import opened ColumnCodec
  import opened ColumnDecoder
  import opened CompFormat
  import opened PartIndex
  import opened PartFile
  import opened PartMeta
  import opened QueryBlocks

  /** A partition file together with what was stored in it. */
  datatype Part = Part(env: Env, schema: seq<FieldType>, file: Bytes, blocks: seq<Block>,
                       ts: seq<TsBlkIdx>, rows: seq<CmpRow>, tsPos: nat)

  /** The reader counts blocks in 32-bit integers, adds two block numbers in an int32_t, and
      keeps offsets in 64-bit integers. */
  ghost predicate PartOK(p: Part) {
    && PartFileOK(p.env, p.schema, p.file, p.blocks, p.ts, p.rows, p.tsPos)
    && p.env.Sound() && |p.file| < P64 && |p.blocks| <= 0x4000_0000
  }

  // ---------------------------------------------------------------- reading index entries

  lemma IndexRoom(k: nat, n: nat)
    ensures IndexSize(k, n) >= TS_SIZE * n
  {
    RunOffset(k, n);
    assert k * (n * CMP_SIZE) >= 0;
  }

  lemma FooterOf(p: Part)
    requires PartOK(p)
    ensures |p.file| >= FOOTER_SIZE && p.tsPos + TS_SIZE * |p.blocks| + FOOTER_SIZE <= |p.file|
    ensures UIntAt(p.file, |p.file| - FOOTER_SIZE + 4, 4) == |p.blocks|
    ensures UIntAt(p.file, |p.file| - FOOTER_SIZE + 8, 8) == p.tsPos
  {
    hide FooterBytes, FooterPrefix, IndexBytes, At, BlockOK, TsPlaced, CmpPlaced, UIntAt, Env.Sound, IndexSize, Uniform;
    var f := PartFooter(p.env, |p.blocks|, p.tsPos);
    IndexRoom(|p.schema| - DATA_COLUMN, |p.blocks|);
    FooterReads(p.file, |p.file| - FOOTER_SIZE, f);
  }

  lemma TsEntryIn(file: Bytes, tsPos: nat, ts: seq<TsBlkIdx>, rows: seq<CmpRow>, k: nat, b: nat)
    requires At(file, tsPos, IndexBytes(ts, rows, k)) && b < |ts|
    ensures At(file, tsPos + TS_SIZE * b, TsBytes(ts[b]))
  {
    hide TsRun, CmpRuns, TsBytes, At;
    var run, runs := TsRun(ts), CmpRuns(rows, k);
    assert IndexBytes(ts, rows, k) == [] + run + runs;
    AtPart(file, tsPos, [], run, runs);
    TsEntryAt(ts, b);
    AtInside(file, tsPos, run, b * TS_SIZE, TsBytes(ts[b]));
  }

  /** Index transposition: field f of block b. */
  lemma CmpEntryIn(file: Bytes, tsPos: nat, ts: seq<TsBlkIdx>, rows: seq<CmpRow>, k: nat, f: nat, b: nat)
    requires At(file, tsPos, IndexBytes(ts, rows, k)) && b < |ts| == |rows| && f < k
    ensures At(file, tsPos + IndexSize(f, |ts|) + CMP_SIZE * b, CmpBytes(Entry(rows[b], f)))
  {
    hide TsRun, CmpRuns, CmpBytes, At, IndexSize, Entry;
    var run, runs := TsRun(ts), CmpRuns(rows, k);
    assert IndexBytes(ts, rows, k) == run + runs + [];
    AtPart(file, tsPos, run, runs, []);
    CmpEntryAt(rows, k, f, b);
    var off := f * (|ts| * CMP_SIZE) + b * CMP_SIZE;
    AtInside(file, tsPos + |run|, runs, off, CmpBytes(Entry(rows[b], f)));
    RunOffset(f, |ts|);
  }

  /** What the reader finds in the timestamp entry of block b. */
  lemma TsEntryOf(p: Part, b: nat)
    requires PartOK(p) && b < |p.blocks|
    ensures var pos := p.tsPos + TS_SIZE * b; var blk := p.blocks[b];
            && pos + TS_SIZE <= |p.file| && |blk.rows| > 0
            && UIntAt(p.file, pos, 8) == blk.devId % P64
            && UIntAt(p.file, pos + 8, 8) == RowTs(blk.rows[0]) % P64
            && UIntAt(p.file, pos + 24, 4) == |blk.rows|
            && At(p.file, UIntAt(p.file, pos + 16, 8), BlockPayload(p.env, p.schema[TSTAMP_INDEX], blk, TSTAMP_INDEX))
  {
    hide IndexBytes, BlockPayload, CmpPlaced, UIntAt, FooterBytes, Env.Sound, RowTs, RowOK, EncodeColumn, IndexSize, Uniform, TsPrefix;
    var e, pos := p.ts[b], p.tsPos + TS_SIZE * b;
    TsEntryIn(p.file, p.tsPos, p.ts, p.rows, |p.schema| - DATA_COLUMN, b);
    assert TsPlaced(p.env, p.schema, p.file, e, p.blocks[b]) && BlockOK(p.schema, p.blocks[b]);
    TsReads(p.file, pos, e);
  }

  /** What the reader finds in the entry of stored field f of block b. */
  lemma CmpEntryOf(p: Part, f: nat, b: nat)
    requires PartOK(p) && b < |p.blocks| && f < |p.schema| - DATA_COLUMN
    ensures var pos := p.tsPos + IndexSize(f, |p.blocks|) + CMP_SIZE * b;
            && pos + CMP_SIZE <= |p.file|
            && At(p.file, UIntAt(p.file, pos, 8), BlockPayload(p.env, p.schema[DATA_COLUMN + f], p.blocks[b], DATA_COLUMN + f))
  {
    hide IndexBytes, BlockPayload, TsPlaced, UIntAt, FooterBytes, Env.Sound, BlockOK, IndexSize, CmpPrefix;
    var e := p.rows[b][f];
    CmpEntryIn(p.file, p.tsPos, p.ts, p.rows, |p.schema| - DATA_COLUMN, f, b);
    assert CmpPlaced(p.env, p.schema, p.file, e, p.blocks[b], f);
    CmpReads(p.file, p.tsPos + IndexSize(f, |p.blocks|) + CMP_SIZE * b, e);
  }

  /** An entry ends with the checksum of the bytes before. */
  ghost predicate Checked(env: Env, file: Bytes, pos: nat, size: nat)
    requires size >= 4
  {
    pos + size <= |file| && UIntAt(file, pos + size - 4, 4) == env.crc32(file[pos..pos + size - 4])
  }

  /** Footer, timestamp entries and column entries have the right checksums, and the footer
      begins with its magic number. */
  lemma ChecksumsRight(p: Part, f: nat, b: nat)
    requires PartOK(p) && b < |p.blocks| && f < |p.schema| - DATA_COLUMN
    ensures |p.file| >= 24 && Checked(p.env, p.file, |p.file| - 24, 24) && UIntAt(p.file, |p.file| - 24, 4) == 0x7FEC_8D92
    ensures Checked(p.env, p.file, p.tsPos + 32 * b, 32)
    ensures Checked(p.env, p.file, p.tsPos + IndexSize(f, |p.blocks|) + 16 * b, 16)
  {
    hide IndexBytes, TsPlaced, CmpPlaced, UIntAt, Env.Sound, BlockOK, IndexSize, FooterBytes, At, FooterPrefix, PayloadsApart, Checked;
    FooterCheck(p.env, p.file, |p.file| - FOOTER_SIZE, |p.blocks|, p.tsPos);
    TsEntryIn(p.file, p.tsPos, p.ts, p.rows, |p.schema| - DATA_COLUMN, b);
    TsCheck(p.env, p.schema, p.file, p.tsPos + 32 * b, p.ts[b], p.blocks[b]);
    CmpEntryIn(p.file, p.tsPos, p.ts, p.rows, |p.schema| - DATA_COLUMN, f, b);
    CmpCheck(p.env, p.schema, p.file, p.tsPos + IndexSize(f, |p.blocks|) + 16 * b, Entry(p.rows[b], f), p.blocks[b], f);
  }

  lemma FooterCheck(env: Env, file: Bytes, pos: nat, cnt: nat, tsPos: nat)
    requires At(file, pos, FooterBytes(PartFooter(env, cnt, tsPos))) && |file| == pos + 24
    ensures Checked(env, file, pos, 24) && UIntAt(file, pos, 4) == 0x7FEC_8D92
  {
    hide Fixed, UIntAt;
    var f := PartFooter(env, cnt, tsPos);
    FooterReads(file, pos, f);
    assert FooterPrefix(f) == FooterPrefix(f.(crc := 0));
    assert file[pos..pos + 20] == file[pos..pos + 24][..20] == FooterPrefix(f);
  }

  lemma TsCheck(env: Env, schema: seq<FieldType>, file: Bytes, pos: nat, e: TsBlkIdx, blk: Block)
    requires SchemaOK(schema) && TsPlaced(env, schema, file, e, blk) && At(file, pos, TsBytes(e))
    ensures Checked(env, file, pos, 32)
  {
    hide Fixed, UIntAt, BlockPayload;
    TsReads(file, pos, e);
    assert file[pos..pos + 28] == file[pos..pos + 32][..28] == TsPrefix(e);
  }

  lemma CmpCheck(env: Env, schema: seq<FieldType>, file: Bytes, pos: nat, e: CmpBlkIdx, blk: Block, f: nat)
    requires DATA_COLUMN + f < |schema| && CmpPlaced(env, schema, file, e, blk, f) && At(file, pos, CmpBytes(e))
    ensures Checked(env, file, pos, 16)
  {
    hide Fixed, UIntAt, BlockPayload;
    CmpReads(file, pos, e);
    assert file[pos..pos + 12] == file[pos..pos + 16][..12] == CmpPrefix(e);
  }

  // ---------------------------------------------------------------- the device map

  datatype TsIdxItem = TsIdxItem(bgPos: nat, idxCnt: nat)

  /** The first run of a device: nothing before it, and maximal. */
  ghost predicate FirstRun(devs: seq<Int64>, devId: Int64, item: TsIdxItem) {
    var end := item.bgPos + item.idxCnt;
    && item.idxCnt > 0 && end <= |devs|
    && (forall i :: 0 <= i < item.bgPos ==> devs[i] != devId)
    && (forall i :: item.bgPos <= i < end ==> devs[i] == devId)
    && (end < |devs| ==> devs[end] != devId)
  }

  ghost predicate RunMap(devs: seq<Int64>, m: map<Int64, TsIdxItem>) {
    && (forall d :: d in m <==> d > 0 && d in devs)
    && (forall d :: d in m ==> FirstRun(devs, d, m[d]))
  }

  /** Every device owns one contiguous run of blocks. */
  ghost predicate Grouped(devs: seq<Int64>) {
    forall i, j, k :: 0 <= i < j < k < |devs| && devs[i] == devs[k] ==> devs[j] == devs[i]
  }

  /** The map leads to all blocks of every device exactly when the blocks are grouped. */
  lemma RunMapComplete(devs: seq<Int64>, m: map<Int64, TsIdxItem>)
    requires RunMap(devs, m) && forall i :: 0 <= i < |devs| ==> devs[i] > 0
    ensures Grouped(devs) <==>
              forall i :: 0 <= i < |devs| ==> m[devs[i]].bgPos <= i < m[devs[i]].bgPos + m[devs[i]].idxCnt
  {
    if Grouped(devs) {
      forall i | 0 <= i < |devs|
        ensures m[devs[i]].bgPos <= i < m[devs[i]].bgPos + m[devs[i]].idxCnt
      {
        var item := m[devs[i]];
        assert FirstRun(devs, devs[i], item);
        assert devs[item.bgPos] == devs[i];
      }
    }
    if forall i :: 0 <= i < |devs| ==> m[devs[i]].bgPos <= i < m[devs[i]].bgPos + m[devs[i]].idxCnt {
      forall i, j, k | 0 <= i < j < k < |devs| && devs[i] == devs[k] ensures devs[j] == devs[i] {
        assert FirstRun(devs, devs[i], m[devs[i]]);
      }
    }
  }

  /** The map after the runs that end before `start`; the run that is being counted starts
      there and reaches to `n`. */
  ghost predicate RunsSoFar(devs: seq<Int64>, m: map<Int64, TsIdxItem>, devId: Int64, item: TsIdxItem, n: nat) {
    && n <= |devs| && item.bgPos + item.idxCnt == n
    && (if n == 0 then devId == 0 else item.idxCnt > 0)
    && (forall i :: item.bgPos <= i < n ==> devs[i] == devId)
    && (0 < item.bgPos < n ==> devs[item.bgPos - 1] != devId)
    && RunMap(devs[..item.bgPos], m)
  }

  lemma RunEnds(devs: seq<Int64>, m: map<Int64, TsIdxItem>, devId: Int64, item: TsIdxItem, n: nat)
    requires RunsSoFar(devs, m, devId, item, n) && (n < |devs| ==> devs[n] != devId) && (forall i :: 0 <= i < |devs| ==> devs[i] > 0)
    ensures RunMap(devs[..n], if devId > 0 && devId !in m then m[devId := item] else m)
  {
    hide FirstRun;
    var next := if devId > 0 && devId !in m then m[devId := item] else m;
    var before := devs[..item.bgPos];
    assert devs[..n] == before + devs[item.bgPos..n];
    if n > 0 { assert devs[..n][item.bgPos] == devId; }
    forall d | d in next ensures FirstRun(devs[..n], d, next[d]) {
      if d in m {
        OldRun(devs, m[d], d, devId, item.bgPos, n);
      } else {
        NewRun(devs, item, devId, n);
      }
    }
  }

  /** Runs that ended before the last one stay maximal. */
  lemma OldRun(devs: seq<Int64>, run: TsIdxItem, d: Int64, devId: Int64, bg: nat, n: nat)
    requires bg <= n <= |devs| && (forall i :: bg <= i < n ==> devs[i] == devId)
    requires (0 < bg < n ==> devs[bg - 1] != devId) && FirstRun(devs[..bg], d, run)
    ensures FirstRun(devs[..n], d, run)
  {
    var end := run.bgPos + run.idxCnt;
    assert forall i :: 0 <= i < bg ==> devs[..bg][i] == devs[..n][i] == devs[i];
    if end == bg < n { assert devs[..bg][end - 1] == d; }
  }

  lemma NewRun(devs: seq<Int64>, item: TsIdxItem, devId: Int64, n: nat)
    requires item.bgPos + item.idxCnt == n <= |devs| && item.idxCnt > 0 && (forall i :: item.bgPos <= i < n ==> devs[i] == devId)
    requires devId !in devs[..item.bgPos]
    ensures FirstRun(devs[..n], devId, item)
  {
    forall i | 0 <= i < item.bgPos ensures devs[i] != devId { assert devs[..item.bgPos][i] == devs[i]; }
  }

  lemma RunContinues(devs: seq<Int64>, m: map<Int64, TsIdxItem>, devId: Int64, item: TsIdxItem, n: nat)
    requires RunsSoFar(devs, m, devId, item, n) && n < |devs| && devs[n] == devId && devId > 0
    ensures RunsSoFar(devs, m, devId, item.(idxCnt := item.idxCnt + 1), n + 1)
  {
  }

  lemma RunStarts(devs: seq<Int64>, m: map<Int64, TsIdxItem>, devId: Int64, item: TsIdxItem, n: nat)
    requires RunsSoFar(devs, m, devId, item, n) && n < |devs| && devs[n] != devId && (forall i :: 0 <= i < |devs| ==> devs[i] > 0)
    ensures RunsSoFar(devs, if devId > 0 && devId !in m then m[devId := item] else m, devs[n], TsIdxItem(n, 1), n + 1)
  {
    hide RunMap;
    RunEnds(devs, m, devId, item, n);
  }

  lemma NoRuns(devs: seq<Int64>)
    ensures RunsSoFar(devs, map[], 0, TsIdxItem(0, 0), 0)
  {
  }

  lemma SchemaOf(p: Part)
    requires PartOK(p)
    ensures SchemaOK(p.schema)
  {
    hide At, Env.Sound, IndexBytes, FooterBytes, TsPlaced, CmpPlaced;
  }

  function DevsOf(blocks: seq<Block>): (r: seq<Int64>)
    ensures |r| == |blocks|
  {
    seq(|blocks|, b requires 0 <= b < |blocks| => blocks[b].devId)
  }

  lemma DevsPositive(p: Part)
    requires PartOK(p)
    ensures forall b :: 0 <= b < |p.blocks| ==> DevsOf(p.blocks)[b] > 0
  {
    hide At, Env.Sound, IndexBytes, FooterBytes, TsPlaced, CmpPlaced;
    forall b | 0 <= b < |p.blocks| ensures DevsOf(p.blocks)[b] > 0 {
      assert BlockOK(p.schema, p.blocks[b]);
      assert RowOK(p.schema, p.blocks[b].rows[0]);
    }
  }

  /** int64_t from its eight bytes. */
  lemma SignedBack(x: Int64)
    ensures Wrap64(x % P64) == x
  {
  }

  /** An int64_t converted to uint64_t. */
  function Unsigned(x: Int64): UInt64 { x % P64 }

  function FirstTs(blk: Block): Int64 { if blk.rows == [] then 0 else RowTs(blk.rows[0]) }

  /** The start times of blocks as the search compares them, unsigned. */
  function Starts(blocks: seq<Block>): (r: seq<UInt64>)
    ensures |r| == |blocks|
  {
    seq(|blocks|, b requires 0 <= b < |blocks| => Unsigned(FirstTs(blocks[b])))
  }

  function Range(from: nat, n: nat): (r: seq<nat>)
    ensures |r| == n
  {
    seq(n, i => from + i)
  }

  /** Selection starts at the last block that does not start behind bg, or at the first block,
      and ends before the first block that starts behind ed. */
  ghost predicate Selection(starts: seq<UInt64>, bg: UInt64, ed: UInt64, lo: nat, hi: nat) {
    && lo <= hi <= |starts| && lo < |starts|
    && (if starts[lo] <= bg then lo + 1 < |starts| ==> starts[lo + 1] > bg else lo == 0)
    && (forall i :: lo <= i < hi ==> starts[i] <= ed)
    && (hi < |starts| ==> starts[hi] > ed)
  }

  // ---------------------------------------------------------------- rows as a query sees them

  /** Stored field storeFieldPos is column queryFieldPos of the query. */
  datatype FieldQueryMapping = FieldQueryMapping(fieldType: FieldType, queryFieldPos: nat, storeFieldPos: nat)

  datatype QueryParam = QueryParam(bgTs: Int64, edTs: Int64, fieldCnt: nat, fields: seq<FieldQueryMapping>)

  /** What DataPart::InitQueryParam builds: the device id is never mapped, types agree. */
  ghost predicate ParamOK(schema: seq<FieldType>, q: QueryParam) {
    && q.fieldCnt > DEVID_INDEX
    && forall k :: 0 <= k < |q.fields| ==>
         && DEVID_INDEX < q.fields[k].queryFieldPos < q.fieldCnt
         && TSTAMP_INDEX <= q.fields[k].storeFieldPos < |schema|
         && q.fields[k].fieldType == schema[q.fields[k].storeFieldPos]
  }

  /** The stored field behind column c. */
  function StoreOf(fields: seq<FieldQueryMapping>, c: nat): Option<nat> {
    if fields == [] then None
    else if fields[|fields| - 1].queryFieldPos == c then Some(fields[|fields| - 1].storeFieldPos)
    else StoreOf(fields[..|fields| - 1], c)
  }

  /** Of several mappings of one column the last one counts. */
  lemma {:induction false} StoreOfIs(fields: seq<FieldQueryMapping>, c: nat)
    ensures match StoreOf(fields, c)
            case None => forall k :: 0 <= k < |fields| ==> fields[k].queryFieldPos != c
            case Some(f) => exists k :: 0 <= k < |fields| && LastMapping(fields, c, k) && fields[k].storeFieldPos == f
  {
    if fields != [] {
      var init := fields[..|fields| - 1];
      StoreOfIs(init, c);
      if fields[|init|].queryFieldPos == c {
        assert LastMapping(fields, c, |init|);
      } else if StoreOf(init, c).Some? {
        var k :| 0 <= k < |init| && LastMapping(init, c, k) && init[k].storeFieldPos == StoreOf(init, c).value;
        assert LastMapping(fields, c, k);
      }
    }
  }

  ghost predicate LastMapping(fields: seq<FieldQueryMapping>, c: nat, k: nat)
    requires k < |fields|
  {
    fields[k].queryFieldPos == c && forall j :: k < j < |fields| ==> fields[j].queryFieldPos != c
  }

  function Cell(fields: seq<FieldQueryMapping>, row: Row, c: nat): DBVal {
    if c == DEVID_INDEX then Int64(RowDev(row))
    else match StoreOf(fields, c)
      case None => Null
      case Some(f) => if f < |row| then row[f] else Null
  }

  function Project(fields: seq<FieldQueryMapping>, cnt: nat, row: Row): Row {
    seq(cnt, c requires 0 <= c < cnt => Cell(fields, row, c))
  }

  /** A row as the query sees it: the device id in column 0, in every mapped column the stored
      value, and NULL elsewhere. */
  lemma ProjectIs(fields: seq<FieldQueryMapping>, cnt: nat, row: Row, c: nat)
    requires c < cnt
    ensures |Project(fields, cnt, row)| == cnt
    ensures Project(fields, cnt, row)[c]
         == if c == 0 then Int64(if row == [] then 0 else IntOf(row[0]))
            else match StoreOf(fields, c) case None => Null case Some(f) => if f < |row| then row[f] else Null
  {
    hide StoreOf;
  }

  function ProjectAll(fields: seq<FieldQueryMapping>, cnt: nat, rows: seq<Row>): (r: seq<Row>)
    ensures |r| == |rows|
  {
    seq(|rows|, i requires 0 <= i < |rows| => Project(fields, cnt, rows[i]))
  }

  /** The columns of a block after the fields of the list were decoded. */
  ghost predicate Loaded(isAsc: bool, fields: seq<FieldQueryMapping>, cnt: nat, rows: seq<Row>, columns: seq<Option<seq<DBVal>>>) {
    && ColumnsOK(columns, |rows|) && |columns| == cnt
    && forall c :: 0 <= c < cnt ==>
         if c == DEVID_INDEX then columns[c] == Some(seq(|rows|, i requires 0 <= i < |rows| => Int64(RowDev(rows[Slot(isAsc, |rows|, i)]))))
         else match StoreOf(fields, c)
           case None => columns[c] == None
           case Some(f) => columns[c] == Some(Oriented(isAsc, Column(rows, f)))
  }

  lemma LoadedRows(isAsc: bool, fields: seq<FieldQueryMapping>, cnt: nat, rows: seq<Row>, columns: seq<Option<seq<DBVal>>>)
    requires Loaded(isAsc, fields, cnt, rows, columns)
    ensures ColumnsOK(columns, |rows|) && RowsOfColumns(columns, |rows|) == Oriented(isAsc, ProjectAll(fields, cnt, rows))
  {
    hide StoreOf;
    forall i | 0 <= i < |rows|
      ensures RowsOfColumns(columns, |rows|)[i] == Oriented(isAsc, ProjectAll(fields, cnt, rows))[i]
    {
      var row := rows[Slot(isAsc, |rows|, i)];
      assert Oriented(isAsc, ProjectAll(fields, cnt, rows))[i] == Project(fields, cnt, row);
      forall c | 0 <= c < cnt ensures RowOfColumns(columns, |rows|, i)[c] == Cell(fields, row, c) {
        if c != DEVID_INDEX && StoreOf(fields, c).Some? {
          var f := StoreOf(fields, c).value;
          assert columns[c] == Some(Oriented(isAsc, Column(rows, f)));
        }
      }
      assert RowOfColumns(columns, |rows|, i) == Project(fields, cnt, row);
    }
  }

  /** The device id and every mapped field have a column. */
  ghost predicate Available(q: QueryParam, columns: seq<Option<seq<DBVal>>>) {
    && |columns| == q.fieldCnt
    && forall c :: 0 <= c < |columns| ==> (columns[c].Some? <==> c == DEVID_INDEX || StoreOf(q.fields, c).Some?)
  }

  lemma LoadedColumns(isAsc: bool, q: QueryParam, rows: seq<Row>, columns: seq<Option<seq<DBVal>>>)
    requires Loaded(isAsc, q.fields, q.fieldCnt, rows, columns)
    ensures Available(q, columns)
  {
    hide StoreOf, Oriented, Column;
  }

  lemma LoadStep(isAsc: bool, fields: seq<FieldQueryMapping>, cnt: nat, rows: seq<Row>, columns: seq<Option<seq<DBVal>>>,
                 m: FieldQueryMapping, vals: seq<DBVal>)
    requires Loaded(isAsc, fields, cnt, rows, columns)
    requires DEVID_INDEX < m.queryFieldPos < cnt && vals == Oriented(isAsc, Column(rows, m.storeFieldPos))
    ensures Loaded(isAsc, fields + [m], cnt, rows, columns[m.queryFieldPos := Some(vals)])
  {
    var all := fields + [m];
    assert all[..|fields|] == fields;
    forall c | 0 <= c < cnt && c != m.queryFieldPos ensures StoreOf(all, c) == StoreOf(fields, c) {
    }
  }

  /** The switch over the field type. */
  method DecodeVals(isAsc: bool, t: FieldType, recCnt: nat, rawBuf: Bytes, ghost column: seq<DBVal>) returns (r: Option<seq<DBVal>>)
    requires 0 < recCnt == |column| && AllStorable(column, t) && rawBuf == EncodeColumn(t, column)
    ensures r == Some(Oriented(isAsc, column))
  {
    hide Decoded, IsIntType, Oriented, AllStorable, EncodeColumn;
    var vals := new DBVal[recCnt](_ => Null);
    var ok;
    match t {
      case TBool => ok := DecodeBoolVals(isAsc, vals, rawBuf);
      case TFloat => ok := DecodeFloatVals(isAsc, FloatBits, vals, rawBuf);
      case TDouble => ok := DecodeFloatVals(isAsc, DoubleBits, vals, rawBuf);
      case TString | TBlob => ok := DecodeBytesVals(isAsc, t, vals, rawBuf);
      case TInt8 | TInt16 | TInt32 | TInt64 | TDateTime =>
        IntTypes();
        ok := DecodeIntVals(isAsc, t, vals, rawBuf);
    }
    DecodedColumn(t, isAsc, column, vals[..], ok);
    if !ok {
      return None;
    }
    return Some(vals[..]);
  }

  /** InitMemMap: where the index run of each field starts. */
  method RunPositions(fieldCnt: nat, tsIdxPos: nat, idxCnt: nat) returns (posVec: seq<nat>)
    requires fieldCnt >= DATA_COLUMN
    ensures |posVec| == fieldCnt && posVec[TSTAMP_INDEX] == tsIdxPos
    ensures forall f :: 0 <= f < fieldCnt - DATA_COLUMN ==> posVec[DATA_COLUMN + f] == tsIdxPos + IndexSize(f, idxCnt)
  {
    posVec := [0, tsIdxPos];
    assert IndexSize(0, idxCnt) == TS_SIZE * idxCnt;
    var tmpPos := tsIdxPos + TS_SIZE * idxCnt;
    for idx := DATA_COLUMN to fieldCnt
      invariant |posVec| == idx && posVec[TSTAMP_INDEX] == tsIdxPos
      invariant forall f :: 0 <= f < idx - DATA_COLUMN ==> posVec[DATA_COLUMN + f] == tsIdxPos + IndexSize(f, idxCnt)
      invariant tmpPos == tsIdxPos + IndexSize(idx - DATA_COLUMN, idxCnt)
    {
      posVec := posVec + [tmpPos];
      tmpPos := tmpPos + CMP_SIZE * idxCnt;
    }
  }

  /** InitMemMap: the run of every device, counted along the timestamp entries. */
  method DeviceRuns(pData: Bytes, tsIdxPos: nat, idxCnt: nat, ghost part: Part) returns (m: map<Int64, TsIdxItem>)
    requires PartOK(part) && part.file == pData && tsIdxPos == part.tsPos && idxCnt == |part.blocks|
    ensures RunMap(DevsOf(part.blocks), m)
  {
    hide PartOK, RunsSoFar, RunMap, UIntAt;
    DevsPositive(part);
    ghost var devs := DevsOf(part.blocks);
    var devId: Int64 := 0;
    var item := TsIdxItem(0, 0);
    m := map[];
    NoRuns(devs);
    for idx := 0 to idxCnt
      invariant RunsSoFar(devs, m, devId, item, idx)
    {
      TsEntryOf(part, idx);
      SignedBack(devs[idx]);
      var tmpId := Wrap64(UIntAt(pData, tsIdxPos + TS_SIZE * idx, 8));
      if devId != tmpId {
        RunStarts(devs, m, devId, item, idx);
        if devId > 0 && devId !in m {
          m := m[devId := item];
        }
        devId := tmpId;
        item := TsIdxItem(idx, 1);
      } else {
        RunContinues(devs, m, devId, item, idx);
        item := item.(idxCnt := item.idxCnt + 1);
      }
    }
    RunEnds(devs, m, devId, item, idxCnt);
    if devId > 0 && devId !in m {
      m := m[devId := item];
    }
    assert devs[..idxCnt] == devs;
  }

  class CompDataPart {
    const env: Env
    const pData: Bytes
    const fieldInfoVec: seq<FieldInfo>
    var fieldIdxCnt: nat
    var idxPosVec: seq<nat>
    var tsIdxMap: map<Int64, TsIdxItem>
    /** What the mapped file holds. */
    ghost const part: Part

    ghost predicate Valid()
      reads this
    {
      && PartOK(part) && part.file == pData && part.env == env && part.schema == Types(fieldInfoVec)
      && fieldIdxCnt == |part.blocks|
      && |idxPosVec| == |fieldInfoVec| && idxPosVec[TSTAMP_INDEX] == part.tsPos
      && (forall f :: 0 <= f < |idxPosVec| - DATA_COLUMN ==>
            idxPosVec[DATA_COLUMN + f] == part.tsPos + IndexSize(f, fieldIdxCnt))
      && RunMap(DevsOf(part.blocks), tsIdxMap)
    }

    /** InitMemMap: names and types of the fields from the meta data, the positions of the index
        runs and the run of every device from the footer and the timestamp entries. */
    constructor (env: Env, pData: Bytes, ghost fields: seq<FieldInfo>, ghost part: Part)
      requires PartOK(part) && part.file == pData && part.env == env
      requires HasMeta(env, pData, fields) && part.schema == Types(fields)
      ensures Valid() && this.part == part && this.env == env && this.pData == pData && fieldInfoVec == fields
    {
      hide PartOK, RunMap, UIntAt, HasMeta;
      MetaInside(env, pData, fields);
      var infos := ReadFields(env, pData, fields);
      var schema := Types(infos.value);
      this.env, this.pData, fieldInfoVec, this.part := env, pData, infos.value, part;
      FooterOf(part);
      SchemaOf(part);
      var foot := |pData| - FOOTER_SIZE;
      var idxCnt := UIntAt(pData, foot + 4, 4);
      var tsIdxPos := UIntAt(pData, foot + 8, 8);
      var posVec := RunPositions(|schema|, tsIdxPos, idxCnt);
      var m := DeviceRuns(pData, tsIdxPos, idxCnt, part);
      fieldIdxCnt, idxPosVec, tsIdxMap := idxCnt, posVec, m;
    }

    ghost function RunOf(devId: Int64): seq<Block>
      requires Valid() && devId in tsIdxMap
      reads this
    {
      var item := tsIdxMap[devId];
      assert FirstRun(DevsOf(part.blocks), devId, item);
      part.blocks[item.bgPos..item.bgPos + item.idxCnt]
    }

    /** All blocks of a device, none for an unknown one. */
    ghost function DeviceRun(devId: Int64): seq<Block>
      requires Valid()
      reads this
    {
      if devId in tsIdxMap then RunOf(devId) else []
    }

    /** The blocks lo .. hi of a device are those the search selects. */
    ghost predicate Selected(devId: Int64, bgTs: Int64, edTs: Int64, lo: nat, hi: nat)
      requires Valid()
      reads this
    {
      if devId in tsIdxMap then Selection(Starts(RunOf(devId)), Unsigned(bgTs), Unsigned(edTs), lo, hi) else lo == hi == 0
    }

    ghost function Chosen(devId: Int64, lo: nat, hi: nat): seq<Block>
      requires Valid()
      reads this
    {
      if lo <= hi <= |DeviceRun(devId)| then DeviceRun(devId)[lo..hi] else []
    }

    /** pTsIdxs[i].bgTs_ of a device. */
    method BlockStart(devId: Int64, i: nat) returns (ts: UInt64)
      requires Valid() && devId in tsIdxMap && i < |RunOf(devId)|
      ensures ts == Starts(RunOf(devId))[i]
    {
      hide PartOK, UIntAt, RunMap, IndexSize;
      RunInside(devId);
      SchemaOf(part);
      var b := tsIdxMap[devId].bgPos + i;
      TsEntryOf(part, b);
      ts := UIntAt(pData, idxPosVec[TSTAMP_INDEX] + TS_SIZE * b + 8, 8);
    }

    /** The binary search. It terminates with a block whatever the start times are. */
    method Search(devId: Int64, bg: UInt64) returns (idx: nat)
      requires Valid() && devId in tsIdxMap
      ensures idx < |RunOf(devId)|
      ensures var starts := Starts(RunOf(devId));
              if starts[idx] <= bg then idx + 1 < |starts| ==> starts[idx + 1] > bg else idx == 0
    {
      hide CompDataPart.Valid, PartOK, RunMap, FirstRun, Starts, DevsOf;
      RunInside(devId);
      var idxCnt := tsIdxMap[devId].idxCnt;
      ghost var starts := Starts(RunOf(devId));
      var lwr, upr: int := 0, idxCnt - 1;
      idx := 0;
      while lwr <= upr
        invariant 0 <= lwr <= upr + 1 <= idxCnt && idx < idxCnt
        invariant lwr > 0 ==> lwr < idxCnt && starts[lwr] <= bg
        invariant upr < idxCnt - 1 ==> starts[upr + 1] > bg && (lwr == 0 ==> idx == upr + 1)
        decreases upr - lwr
      {
        assert lwr + upr < 0x8000_0000;
        idx := (lwr + upr) / 2;
        var start := BlockStart(devId, idx);
        if start > bg {
          upr := idx - 1;
        } else {
          if idx + 1 == idxCnt {
            break;
          }
          var next := BlockStart(devId, idx + 1);
          if next > bg {
            break;
          }
          lwr := idx + 1;
        }
      }
    }

    /** Collects the blocks from lo on that do not start behind ed. */
    method Collect(devId: Int64, lo: nat, ed: UInt64) returns (idxVec: seq<nat>)
      requires Valid() && devId in tsIdxMap && lo < |RunOf(devId)|
      ensures lo + |idxVec| <= |RunOf(devId)| && idxVec == Range(tsIdxMap[devId].bgPos + lo, |idxVec|)
      ensures forall i :: lo <= i < lo + |idxVec| ==> Starts(RunOf(devId))[i] <= ed
      ensures lo + |idxVec| < |RunOf(devId)| ==> Starts(RunOf(devId))[lo + |idxVec|] > ed
    {
      hide CompDataPart.Valid, PartOK, RunMap, FirstRun, Starts, DevsOf;
      RunInside(devId);
      var bgPos, idxCnt := tsIdxMap[devId].bgPos, tsIdxMap[devId].idxCnt;
      ghost var starts := Starts(RunOf(devId));
      var idx := lo;
      idxVec := [];
      while idx < idxCnt
        invariant lo <= idx <= idxCnt && idxVec == Range(bgPos + lo, idx - lo)
        invariant forall i :: lo <= i < idx ==> starts[i] <= ed
      {
        var start := BlockStart(devId, idx);
        if start > ed {
          break;
        }
        idxVec := idxVec + [bgPos + idx];
        idx := idx + 1;
      }
    }

    /** The block numbers from which rows in [bgTs, edTs] are read, and where in the run they
        begin; None for an unknown device. */
    method GetDevIdxs(devId: Int64, bgTs: Int64, edTs: Int64) returns (r: Option<seq<nat>>, lo: nat)
      requires Valid()
      ensures if devId in tsIdxMap
                then r.Some? && r.value == Range(tsIdxMap[devId].bgPos + lo, |r.value|)
                     && Selection(Starts(RunOf(devId)), Unsigned(bgTs), Unsigned(edTs), lo, lo + |r.value|)
                else r == None && lo == 0
    {
      hide CompDataPart.Valid, PartOK, RunMap, FirstRun, Starts, DevsOf, Range;
      if devId !in tsIdxMap {
        return None, 0;
      }
      lo := Search(devId, Unsigned(bgTs));
      var idxVec := Collect(devId, lo, Unsigned(edTs));
      r := Some(idxVec);
    }

    /** Where column f of block b is stored, looked up in the index. */
    method Locate(b: nat, f: nat) returns (blkHead: nat)
      requires Valid() && b < |part.blocks| && TSTAMP_INDEX <= f < |part.schema|
      ensures At(pData, blkHead, BlockPayload(env, part.schema[f], part.blocks[b], f))
    {
      hide PartOK, UIntAt, RunMap, IndexSize, At, BlockPayload;
      SchemaOf(part);
      if f == TSTAMP_INDEX {
        TsEntryOf(part, b);
        blkHead := UIntAt(pData, idxPosVec[TSTAMP_INDEX] + TS_SIZE * b + 16, 8);
      } else {
        CmpEntryOf(part, f - DATA_COLUMN, b);
        assert idxPosVec[DATA_COLUMN + (f - DATA_COLUMN)] == idxPosVec[f];
        blkHead := UIntAt(pData, idxPosVec[f] + CMP_SIZE * b, 8);
      }
    }

    /** One column of one block: found through the index, unpacked and decoded forwards or
        backwards. */
    method ReadColumn(isAsc: bool, b: nat, t: FieldType, f: nat) returns (r: Option<seq<DBVal>>)
      requires Valid() && b < |part.blocks| && TSTAMP_INDEX <= f < |part.schema| && t == part.schema[f]
      ensures r == Some(Oriented(isAsc, Column(part.blocks[b].rows, f)))
    {
      hide PartOK, UIntAt, RunMap, IndexSize, At, BlockPayload, Oriented, Column, AllStorable, EncodeColumn, Env.Sound;
      var recCnt, devId := PageHead(b);
      var blkHead := Locate(b, f);
      ColumnFits(part, b, f);
      ghost var column := Column(part.blocks[b].rows, f);
      BlockReads(env, t, part.blocks[b], f, pData, blkHead);
      if UIntAt(pData, blkHead + 4, 4) != recCnt {
        return None;
      }
      var dataLen := UIntAt(pData, blkHead + 8, 4);
      var rawBuf := env.uncompress(pData[blkHead + HEAD_SIZE..blkHead + HEAD_SIZE + dataLen]);
      if |rawBuf| > RAW_BUFFER {
        return None;
      }
      r := DecodeVals(isAsc, t, recCnt, rawBuf, column);
    }

    method PageHead(b: nat) returns (recCnt: nat, devId: Int64)
      requires Valid() && b < |part.blocks|
      ensures recCnt == |part.blocks[b].rows| > 0 && devId == part.blocks[b].devId
    {
      hide PartOK, UIntAt, RunMap, IndexSize, At, BlockPayload;
      SchemaOf(part);
      var tsIdx := idxPosVec[TSTAMP_INDEX] + TS_SIZE * b;
      TsEntryOf(part, b);
      SignedBack(part.blocks[b].devId);
      recCnt := UIntAt(pData, tsIdx + 24, 4);
      devId := Wrap64(UIntAt(pData, tsIdx, 8));
    }

    /** The columns of the query's fields, one after the other. */
    method LoadColumns(isAsc: bool, b: nat, q: QueryParam, devVals: seq<DBVal>) returns (r: Option<seq<Option<seq<DBVal>>>>)
      requires Valid() && b < |part.blocks| && ParamOK(part.schema, q)
      requires devVals == seq(|part.blocks[b].rows|, _ => Int64(part.blocks[b].devId))
      ensures r.Some? && Loaded(isAsc, q.fields, q.fieldCnt, part.blocks[b].rows, r.value)
    {
      hide CompDataPart.Valid, PartOK, Loaded, ColumnsOK, ParamOK, Oriented, Column;
      ghost var rows := part.blocks[b].rows;
      ParamHead(part.schema, q);
      var columns := seq(q.fieldCnt, _ => None)[DEVID_INDEX := Some(devVals)];
      PartIsOK();
      DeviceLoaded(part, b, isAsc, q.fieldCnt, devVals);
      for k := 0 to |q.fields|
        invariant |columns| == q.fieldCnt && Loaded(isAsc, q.fields[..k], q.fieldCnt, rows, columns)
      {
        var m := q.fields[k];
        ParamField(part.schema, q, k);
        var vals := ReadColumn(isAsc, b, m.fieldType, m.storeFieldPos);
        if vals.None? {
          return None;
        }
        LoadStep(isAsc, q.fields[..k], q.fieldCnt, rows, columns, m, vals.value);
        assert q.fields[..k + 1] == q.fields[..k] + [m];
        columns := columns[m.queryFieldPos := Some(vals.value)];
      }
      assert q.fields[..|q.fields|] == q.fields;
      return Some(columns);
    }

    /** TraversalDataPage up to the call of the query: the rows of the block, all of them, in
        stored or reverse order, as the query's columns. */
    method LoadPage(isAsc: bool, b: nat, q: QueryParam) returns (r: Option<BlockValues>)
      requires Valid() && b < |part.blocks| && ParamOK(part.schema, q)
      ensures r.Some? && fresh(r.value) && r.value.Valid() && r.value.CacheOK() && r.value.filterVec == []
      ensures Available(q, r.value.columnVec)
      ensures r.value.Survivors() == Oriented(isAsc, ProjectAll(q.fields, q.fieldCnt, part.blocks[b].rows))
    {
      hide CompDataPart.Valid, PartOK, Column, BlockValues.Valid, BlockValues.CacheOK, BlockValues.Survivors,
           Loaded, ColumnsOK, ParamOK, RowsOfColumns, Oriented, ProjectAll, Available;
      var recCnt, devId := PageHead(b);
      var columns := LoadColumns(isAsc, b, q, seq(recCnt, _ => Int64(devId)));
      if columns.None? {
        return None;
      }
      ghost var rows := part.blocks[b].rows;
      LoadedRows(isAsc, q.fields, q.fieldCnt, rows, columns.value);
      LoadedColumns(isAsc, q, rows, columns.value);
      var blk := new BlockValues.Filled(columns.value, recCnt);
      blk.Unfiltered();
      return Some(blk);
    }

    lemma PartIsOK()
      requires Valid()
      ensures PartOK(part)
    {
    }

    lemma RunInside(devId: Int64)
      requires Valid() && devId in tsIdxMap
      ensures var item := tsIdxMap[devId];
              0 < item.idxCnt == |RunOf(devId)| && item.bgPos + item.idxCnt <= |part.blocks| <= 0x4000_0000
    {
      hide PartFileOK, Env.Sound;
      assert FirstRun(DevsOf(part.blocks), devId, tsIdxMap[devId]);
    }
  }

  lemma ParamHead(schema: seq<FieldType>, q: QueryParam)
    requires ParamOK(schema, q)
    ensures q.fieldCnt > DEVID_INDEX
  {
  }

  lemma ParamField(schema: seq<FieldType>, q: QueryParam, k: nat)
    requires ParamOK(schema, q) && k < |q.fields|
    ensures var m := q.fields[k];
            DEVID_INDEX < m.queryFieldPos < q.fieldCnt && TSTAMP_INDEX <= m.storeFieldPos < |schema|
            && m.fieldType == schema[m.storeFieldPos]
  {
  }

  lemma IntTypes()
    ensures IsIntType(TInt8) && IsIntType(TInt16) && IsIntType(TInt32) && IsIntType(TInt64) && IsIntType(TDateTime)
  {
  }

  lemma ColumnFits(p: Part, b: nat, f: nat)
    requires PartOK(p) && b < |p.blocks| && TSTAMP_INDEX <= f < |p.schema|
    ensures p.env.Sound() && |p.blocks[b].rows| < P32
    ensures AllStorable(Column(p.blocks[b].rows, f), p.schema[f])
    ensures |EncodeColumn(p.schema[f], Column(p.blocks[b].rows, f))| <= RAW_BUFFER
  {
    hide At, Env.Sound, IndexBytes, FooterBytes, TsPlaced, CmpPlaced, EncodeColumn;
    var rows := p.blocks[b].rows;
    assert BlockOK(p.schema, p.blocks[b]);
    forall i | 0 <= i < |rows| ensures Storable(Column(rows, f)[i], p.schema[f]) {
      assert RowOK(p.schema, rows[i]) && ValueOK(rows[i][f], p.schema[f]);
    }
  }

  lemma BlockReads(env: Env, t: FieldType, blk: Block, f: nat, file: Bytes, pos: nat)
    requires env.Sound() && |blk.rows| < P32 && |EncodeColumn(t, Column(blk.rows, f))| <= RAW_BUFFER
    requires At(file, pos, BlockPayload(env, t, blk, f))
    ensures pos + HEAD_SIZE <= |file| && UIntAt(file, pos + 4, 4) == |blk.rows|
    ensures var len := UIntAt(file, pos + 8, 4);
            pos + HEAD_SIZE + len <= |file|
            && env.uncompress(file[pos + HEAD_SIZE..pos + HEAD_SIZE + len]) == EncodeColumn(t, Column(blk.rows, f))
  {
    hide EncodeColumn, Column, UIntAt, At, Payload;
    PayloadReads(env, t, f, |blk.rows|, EncodeColumn(t, Column(blk.rows, f)), file, pos);
  }

  /** A decoder run on an encoded column yields the column. */
  lemma DecodedColumn(t: FieldType, isAsc: bool, column: seq<DBVal>, vals: seq<DBVal>, ok: bool)
    requires AllStorable(column, t) && |vals| == |column| && Decoded(t, isAsc, EncodeColumn(t, column), vals, ok)
    ensures ok && vals == Oriented(isAsc, column)
  {
    hide EncodeColumn, DecodeBlock, AllStorable, Oriented;
    ColumnRoundTrip(t, column, []);
    assert EncodeColumn(t, column) + [] == EncodeColumn(t, column);
  }

  lemma DeviceLoaded(p: Part, b: nat, isAsc: bool, cnt: nat, devVals: seq<DBVal>)
    requires PartOK(p) && b < |p.blocks| && cnt > DEVID_INDEX
    requires devVals == seq(|p.blocks[b].rows|, _ => Int64(p.blocks[b].devId))
    ensures Loaded(isAsc, [], cnt, p.blocks[b].rows, seq(cnt, _ => None)[DEVID_INDEX := Some(devVals)])
  {
    hide At, Env.Sound, IndexBytes, FooterBytes, TsPlaced, CmpPlaced, EncodeColumn, RowOK, Uniform, IndexSize;
    assert BlockOK(p.schema, p.blocks[b]);
    var rows := p.blocks[b].rows;
    forall i | 0 <= i < |rows| ensures RowDev(rows[Slot(isAsc, |rows|, i)]) == p.blocks[b].devId {
    }
    assert devVals == seq(|rows|, i requires 0 <= i < |rows| => Int64(RowDev(rows[Slot(isAsc, |rows|, i)])));
  }
}
