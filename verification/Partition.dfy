/** Writer and reader together: rows appended to a builder come back from the file. */
module Partitions {
  import opened Coding
  import opened DbValue
  import opened ColumnDecoder
  import opened CompFormat
  import opened PartFile
  import opened PartMeta
  import opened ConditionFilters
  import opened QueryRaws
  import opened WireFormat
  import opened WireReaders
  import opened CompDataParts
  import opened PartQueries
  import opened PartCuts
  import opened PartAggregates
  import opened CompPartBuilders

  /** The file is a complete partition file of these fields and of exactly these rows, in so many
      blocks, none of which was closed too early or too late. */
  ghost predicate HoldsRows(env: Env, fields: seq<FieldInfo>, file: Bytes, rows: seq<Row>, blkCnt: nat) {
    && HasMeta(env, file, fields)
    && exists blocks, ts, idx, tsPos: nat ::
         && PartFileOK(env, Types(fields), file, blocks, ts, idx, tsPos) && RowsOf(blocks) == rows && |blocks| == blkCnt
         && CutRight(Types(fields), blocks)
  }

  /** No block is empty, and none has more than 8192 rows. */
  lemma BlocksNeeded(env: Env, fields: seq<FieldInfo>, file: Bytes, rows: seq<Row>, blkCnt: nat)
    requires HoldsRows(env, fields, file, rows, blkCnt)
    ensures blkCnt <= |rows| <= BLOCK_MAX_ROWS * blkCnt
  {
    hide HoldsRows, RowsOf, CutRight;
    var blocks := PartBlocks(env, fields, file, rows, blkCnt);
    BlockCount(blocks);
    RowCount(blocks);
  }

  lemma PartBlocks(env: Env, fields: seq<FieldInfo>, file: Bytes, rows: seq<Row>, blkCnt: nat) returns (blocks: seq<Block>)
    requires HoldsRows(env, fields, file, rows, blkCnt)
    ensures RowsOf(blocks) == rows && |blocks| == blkCnt && CutRight(Types(fields), blocks) && Owned(blocks)
    ensures NonEmpty(blocks) && forall b :: 0 <= b < |blocks| ==> |blocks[b].rows| <= 8192
  {
    hide RowsOf, PartFileOK, HasMeta, CutRight;
    var ts, idx, tsPos: nat;
    blocks, ts, idx, tsPos :| PartFileOK(env, Types(fields), file, blocks, ts, idx, tsPos) && RowsOf(blocks) == rows && |blocks| == blkCnt
                              && CutRight(Types(fields), blocks);
    var part := Part(env, Types(fields), file, blocks, ts, idx, tsPos);
    BlocksFilled(part);
    BlocksOwned(part);
  }

  /** The rows decide how many blocks there are, however often the writer synced and spilled. */
  lemma BlocksDetermined(env: Env, fields: seq<FieldInfo>, rows: seq<Row>, file: Bytes, blkCnt: nat, other: Bytes, otherCnt: nat)
    requires HoldsRows(env, fields, file, rows, blkCnt) && HoldsRows(env, fields, other, rows, otherCnt)
    ensures blkCnt == otherCnt
  {
    hide HoldsRows, CutRight, RowsOf;
    var a := PartBlocks(env, fields, file, rows, blkCnt);
    var b := PartBlocks(env, fields, other, rows, otherCnt);
    CutUnique(Types(fields), a, b);
  }

  /** Unless large values close blocks earlier, rows grouped by device take for every device its
      number of rows divided by 8192, rounded up. */
  lemma BlocksPerDevice(env: Env, fields: seq<FieldInfo>, file: Bytes, rows: seq<Row>, blkCnt: nat, devs: seq<Int64>)
    requires HoldsRows(env, fields, file, rows, blkCnt) && RowsGrouped(rows) && Slim(Types(fields), rows)
    requires Different(devs) && forall i :: 0 <= i < |rows| ==> RowDev(rows[i]) in devs
    ensures blkCnt == BlocksFor(devs, rows)
  {
    hide HoldsRows, CutRight, RowsOf, RowsGrouped, Slim, RowDev;
    var blocks := PartBlocks(env, fields, file, rows, blkCnt);
    BlockNumber(Types(fields), blocks, devs);
  }

  /** The reader adds two block numbers in 32 bits and addresses the file with 64 bits. */
  predicate Readable(file: Bytes, blkCnt: nat) { |file| < P64 && blkCnt <= 0x4000_0000 }

  ghost predicate Writable(fields: seq<FieldInfo>, rows: seq<Row>) {
    SchemaOK(Types(fields)) && FieldsOK(fields) && AllRowsOK(Types(fields), rows)
  }

  /** Appends rows and finishes the file, with whatever blocks, syncs and spills come about. */
  method WritePart(env: Env, partCode: UInt32, fields: seq<FieldInfo>, rows: seq<Row>) returns (file: Bytes, blkCnt: nat)
    requires Writable(fields, rows)
    ensures HoldsRows(env, fields, file, rows, blkCnt)
  {
    hide RowOK, CompPartBuilder.Valid, CompPartBuilder.Room, CompPartBuilder.Rows, RowsOf, PartFileOK, MetaBytes, CutRight;
    var builder := new CompPartBuilder(env, partCode, fields);
    for i := 0 to |rows|
      invariant builder.Valid() && builder.Room() && fresh(builder) && fresh(builder.builders)
      invariant builder.Rows() == rows[..i]
    {
      builder.Append(rows[i]);
      assert rows[..i + 1] == rows[..i] + [rows[i]];
    }
    assert rows[..|rows|] == rows;
    ghost var tsPos;
    blkCnt, tsPos := builder.Finish();
    file := builder.dataFile;
  }

  /** When a partition of these rows answers a query for one device: rows of the device in time
      order, and the time range of the query taken from its conditions. */
  ghost predicate Answerable(schema: seq<FieldType>, rows: seq<Row>, devId: Int64, q: QueryParam, conds: seq<Condition>) {
    && ParamOK(schema, q) && Spans(q, conds) && devId > 0
    && RowsGrouped(rows) && TimeOrdered(DeviceRows(rows, devId)) && Findable(conds, q, DeviceRows(rows, devId))
  }

  /** The reader of a written file, or None when it is larger than the reader can address. */
  method OpenPart(env: Env, file: Bytes, blkCnt: nat, ghost fields: seq<FieldInfo>, ghost rows: seq<Row>)
    returns (r: Option<CompDataPart>)
    requires env.Sound() && HoldsRows(env, fields, file, rows, blkCnt)
    ensures r.Some? <==> Readable(file, blkCnt)
    ensures r.Some? ==> fresh(r.value) && r.value.Valid() && r.value.fieldInfoVec == fields && r.value.part.schema == Types(fields)
    ensures r.Some? ==> RowsOf(r.value.part.blocks) == rows
    ensures r.Some? && RowsGrouped(rows) ==> Grouped(DevsOf(r.value.part.blocks))
  {
    hide RowOK, RowsOf, PartFileOK, RowsGrouped, Grouped, Env.Sound, BlockOK, HasMeta, CutRight;
    if !Readable(file, blkCnt) {
      return None;
    }
    ghost var blocks, ts, idx, tsPos: nat :|
      PartFileOK(env, Types(fields), file, blocks, ts, idx, tsPos) && RowsOf(blocks) == rows && |blocks| == blkCnt;
    ghost var part := Part(env, Types(fields), file, blocks, ts, idx, tsPos);
    BlocksFilled(part);
    BlocksOwned(part);
    if RowsGrouped(rows) { GroupedBlocks(part.blocks); }
    var reader := new CompDataPart(env, file, fields, part);
    return Some(reader);
  }

  lemma BlocksFilled(p: Part)
    requires PartFileOK(p.env, p.schema, p.file, p.blocks, p.ts, p.rows, p.tsPos)
    ensures NonEmpty(p.blocks) && forall b :: 0 <= b < |p.blocks| ==> |p.blocks[b].rows| <= BLOCK_MAX_ROWS
  {
    hide At, RowOK, TsPlaced, CmpPlaced;
    forall b | 0 <= b < |p.blocks| ensures 0 < |p.blocks[b].rows| <= BLOCK_MAX_ROWS { assert BlockOK(p.schema, p.blocks[b]); }
  }

  lemma {:induction false} RowCount(blocks: seq<Block>)
    requires forall b :: 0 <= b < |blocks| ==> |blocks[b].rows| <= BLOCK_MAX_ROWS
    ensures |RowsOf(blocks)| <= BLOCK_MAX_ROWS * |blocks|
  {
    if blocks != [] { RowCount(blocks[..|blocks| - 1]); }
  }

  /** Rows in, rows out: for every sequence of rows grouped by device, however they were cut
      into blocks, however often the index was synced and spilled, the rows read back for a
      device are the appended rows of that device, in the order of insertion or in reverse. */
  method StoreAndRead(env: Env, partCode: UInt32, fields: seq<FieldInfo>, rows: seq<Row>, isAsc: bool, devId: Int64)
    returns (r: Option<seq<Row>>, file: Bytes, blkCnt: nat)
    requires Writable(fields, rows) && env.Sound() && RowsGrouped(rows) && devId > 0
    ensures HoldsRows(env, fields, file, rows, blkCnt) && (r.Some? <==> Readable(file, blkCnt))
    ensures r.Some? ==> r.value == Oriented(isAsc, DeviceRows(rows, devId))
  {
    hide AllRowsOK, RowsOf, PartFileOK, RowsGrouped, Grouped, Env.Sound, CompDataPart.Valid, ParamOK, DeviceRows, ProjectAll,
         Oriented, AllFields;
    file, blkCnt := WritePart(env, partCode, fields, rows);
    var reader := OpenPart(env, file, blkCnt, fields, rows);
    if reader.None? {
      return None, file, blkCnt;
    }
    var schema := Types(reader.value.fieldInfoVec);
    DeviceRowsOK(schema, rows, devId);
    AllFieldsShow(schema, DeviceRows(rows, devId));
    var back := ReadDevice(reader.value, isAsc, devId, AllFields(schema));
    return Some(back), file, blkCnt;
  }

  /** A SELECT for a device over such a file: the result is the encoded LIMIT/OFFSET window of
      the matching rows among the appended rows of that device, in the order of insertion or in
      reverse, with their number. */
  method StoreAndQuery(env: Env, partCode: UInt32, fields: seq<FieldInfo>, rows: seq<Row>, isAsc: bool, devId: Int64, q: QueryParam,
                       conds: seq<Condition>, targets: seq<Target>, offset: nat, limit: nat, head: Bytes)
    returns (r: Option<(Bytes, nat)>, file: Bytes, blkCnt: nat)
    requires Writable(fields, rows) && env.Sound()
    requires Answerable(Types(fields), rows, devId, q, conds)
    ensures HoldsRows(env, fields, file, rows, blkCnt) && (r.Some? <==> Readable(file, blkCnt))
    ensures r.Some? ==>
              var matches := Filter(conds, Oriented(isAsc, ProjectAll(q.fields, q.fieldCnt, DeviceRows(rows, devId))));
              var window := Window(offset, limit, matches);
              r.value == (head + EncodeRows(Selected(targets, window)), |window|)
  {
    hide RowOK, RowsOf, PartFileOK, RowsGrouped, Grouped, Env.Sound, QueryRaw.Valid, CompDataPart.Valid, ParamOK,
         TimeOrdered, Findable, Spans, DeviceRows, ProjectAll, Oriented, Filter, Window, Selected, EncodeRows;
    file, blkCnt := WritePart(env, partCode, fields, rows);
    var reader := OpenPart(env, file, blkCnt, fields, rows);
    if reader.None? {
      return None, file, blkCnt;
    }
    var query := new QueryRaw(conds, targets, offset, limit, head);
    QueryDevice(reader.value, isAsc, devId, q, query);
    assert [] + Oriented(isAsc, ProjectAll(q.fields, q.fieldCnt, DeviceRows(rows, devId)))
        == Oriented(isAsc, ProjectAll(q.fields, q.fieldCnt, DeviceRows(rows, devId)));
    var data, recordCnt := query.GetResult();
    return Some((data, recordCnt)), file, blkCnt;
  }

  /** The rows of the result. */
  ghost function ResultRows(rows: seq<Row>, isAsc: bool, devId: Int64, q: QueryParam, conds: seq<Condition>,
                            targets: seq<Target>, offset: nat, limit: nat): seq<Row>
  {
    Selected(targets, Window(offset, limit, Filter(conds, Oriented(isAsc, ProjectAll(q.fields, q.fieldCnt, DeviceRows(rows, devId))))))
  }

  /** From stored rows to both clients: each reads the selected window back, to its last byte. */
  method StoreAndFetch(env: Env, partCode: UInt32, fields: seq<FieldInfo>, rows: seq<Row>, isAsc: bool, devId: Int64, q: QueryParam,
                       conds: seq<Condition>, targets: seq<Target>, offset: nat, limit: nat, head: Bytes)
    returns (dotNet: Option<seq<Row>>, cpp: Option<(seq<Row>, nat)>, file: Bytes, blkCnt: nat)
    requires Writable(fields, rows) && env.Sound() && targets != []
    requires Answerable(Types(fields), rows, devId, q, conds)
    requires TableSendable(ResultRows(rows, isAsc, devId, q, conds, targets, offset, limit), |targets|)
    ensures HoldsRows(env, fields, file, rows, blkCnt)
    ensures Readable(file, blkCnt) ==>
              var result := ResultRows(rows, isAsc, devId, q, conds, targets, offset, limit);
              dotNet == Some(result) && cpp == Some((result, |head| + |EncodeRows(result)|))
  {
    hide RowOK, RowsOf, PartFileOK, RowsGrouped, Env.Sound, ParamOK, Answerable, Writable, HoldsRows, TableSendable,
         TimeOrdered, Findable, Spans, DeviceRows, ProjectAll, Oriented, Filter, Window, Selected, EncodeRows, ReadRows;
    var r;
    r, file, blkCnt := StoreAndQuery(env, partCode, fields, rows, isAsc, devId, q, conds, targets, offset, limit, head);
    if r.None? {
      return None, None, file, blkCnt;
    }
    ghost var result := ResultRows(rows, isAsc, devId, q, conds, targets, offset, limit);
    var (data, recordCnt) := r.value;
    RowsRoundTrip(result, |targets|, head, []);
    assert data == head + EncodeRows(result) + [];
    dotNet := DecodeRows(|targets|, data, |head|, recordCnt);
    cpp := ParseRows(|targets|, data, |head|, recordCnt);
  }

  lemma {:induction false} FilterSize(conds: seq<Condition>, rows: seq<Row>)
    ensures |Filter(conds, rows)| <= |rows|
  {
    hide Meets;
    if rows != [] { FilterSize(conds, rows[..|rows| - 1]); }
  }

  lemma {:induction false} DeviceSize(rows: seq<Row>, devId: Int64)
    ensures |DeviceRows(rows, devId)| <= |rows|
  {
    hide RowDev;
    if rows != [] { DeviceSize(rows[..|rows| - 1], devId); }
  }

  lemma MatchesBound(rows: seq<Row>, isAsc: bool, devId: Int64, q: QueryParam, conds: seq<Condition>)
    ensures |Filter(conds, Oriented(isAsc, ProjectAll(q.fields, q.fieldCnt, DeviceRows(rows, devId))))| <= |rows|
  {
    hide Filter, DeviceRows, Oriented;
    var all := ProjectAll(q.fields, q.fieldCnt, DeviceRows(rows, devId));
    DeviceSize(rows, devId);
    OrientedSize(isAsc, all);
    FilterSize(conds, Oriented(isAsc, all));
  }

  /** SELECT COUNT, SUM, AVG, in any combination: each is that of the matching appended rows. */
  method StoreAndAggregate(env: Env, partCode: UInt32, fields: seq<FieldInfo>, rows: seq<Row>, isAsc: bool, devId: Int64, q: QueryParam,
                           conds: seq<Condition>, exprs: seq<Aggregate>) returns (r: Option<seq<DBVal>>, file: Bytes, blkCnt: nat)
    requires Writable(fields, rows) && env.Sound()
    requires Answerable(Types(fields), rows, devId, q, conds) && AllComputable(Types(fields), q, exprs)
    ensures HoldsRows(env, fields, file, rows, blkCnt) && (r.Some? <==> Readable(file, blkCnt))
    ensures r.Some? ==>
              r.value == Answers(exprs, Filter(conds, Oriented(isAsc, ProjectAll(q.fields, q.fieldCnt, DeviceRows(rows, devId)))))
  {
    hide RowOK, RowsOf, PartFileOK, RowsGrouped, Grouped, Env.Sound, CompDataPart.Valid, ParamOK, TimeOrdered, Findable, Spans,
         DeviceRows, ProjectAll, Oriented, Filter, AllComputable, ResultObject.Exprs, ResultObject.Took, Answers;
    file, blkCnt := WritePart(env, partCode, fields, rows);
    var reader := OpenPart(env, file, blkCnt, fields, rows);
    if reader.None? {
      return None, file, blkCnt;
    }
    AllNumeric(Types(fields), q, exprs);
    var obj := new ResultObject(exprs);
    AggregateDevice(reader.value, isAsc, devId, q, conds, obj);
    BlocksNeeded(env, fields, file, rows, blkCnt);
    MatchesBound(rows, isAsc, devId, q, conds);
    var vals := obj.GetRecord(Filter(conds, Oriented(isAsc, ProjectAll(q.fields, q.fieldCnt, DeviceRows(rows, devId)))));
    return Some(vals), file, blkCnt;
  }

  lemma AllNumeric(schema: seq<FieldType>, q: QueryParam, exprs: seq<Aggregate>)
    requires AllComputable(schema, q, exprs)
    ensures forall i :: 0 <= i < |exprs| ==> Numeric(exprs[i])
  {
  }
}
