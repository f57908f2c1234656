/** COUNT, SUM and AVG over a partition file (query/result_object.cpp, query/query_group.cpp): the
    selected blocks are filtered and handed to every function in turn, and the record holds what
    the matching rows of the device give. */
module PartAggregates {
  import opened Coding
  import opened DbValue
  import opened ColumnDecoder
  import opened CompFormat
  import opened PartFile
  import opened QueryBlocks
  import opened ConditionFilters
  import opened CompDataParts
  import opened PartQueries
  import opened PartFirstLast
  import opened GroupFunctions

  /** An aggregate of the SELECT list. */
  datatype Aggregate = AggCount(pos: nat) | AggSum(t: FieldType, pos: nat) | AggAvg(t: FieldType, pos: nat)

  /** What it means for rows. */
  function Answer(e: Aggregate, rows: seq<Row>): DBVal {
    match e
    case AggCount(pos) => Int64(Wrap64(CountOf(rows, pos)))
    case AggSum(_, pos) => if CountOf(rows, pos) > 0 then Int64(Wrap64(SumOf(rows, pos))) else Null
    case AggAvg(t, pos) => Mean(t, Wrap64(SumOf(rows, pos)), CountOf(rows, pos))
  }

  /** Of 7, NULL, -2 and -10: COUNT is 3, SUM is -5 and AVG is -1, since division truncates; of no
      values COUNT is 0 and the others are NULL. */
  lemma KnownAnswers()
    ensures var rows: seq<Row> := [[Int32(7)], [Null], [Int32(-2)], [Int32(-10)]];
            && Answer(AggCount(0), rows) == Int64(3) && Answer(AggSum(TInt32, 0), rows) == Int64(-5)
            && Answer(AggAvg(TInt32, 0), rows) == Int32(-1)
    ensures Answer(AggCount(0), []) == Int64(0) && Answer(AggSum(TInt32, 0), []) == Null && Answer(AggAvg(TInt32, 0), []) == Null
  {
    var a: seq<Row>, b: seq<Row>, c: seq<Row>, d: seq<Row> := [[Int32(7)]], [[Null]], [[Int32(-2)]], [[Int32(-10)]];
    assert a[..0] == b[..0] == c[..0] == d[..0] == [];
    assert a + b + c + d == [[Int32(7)], [Null], [Int32(-2)], [Int32(-10)]];
    forall w: Row -> int ensures Weigh(a + b + c + d, w) == w([Int32(7)]) + w([Null]) + w([Int32(-2)]) + w([Int32(-10)]) {
      WeighAppend(a, b, w);
      WeighAppend(a + b, c, w);
      WeighAppend(a + b + c, d, w);
    }
    assert CountOf(a + b + c + d, 0) == 3 && SumOf(a + b + c + d, 0) == -5;
    assert TruncDiv(-5, 3) == -1;
  }

  function Answers(exprs: seq<Aggregate>, rows: seq<Row>): (r: seq<DBVal>)
    ensures |r| == |exprs|
  {
    seq(|exprs|, i requires 0 <= i < |exprs| => Answer(exprs[i], rows))
  }

  /** SUM and AVG are modelled for the integer types. */
  predicate Numeric(e: Aggregate) { e.AggCount? || IsNumber(e.t) }

  // ---------------------------------------------------------------- rows that an aggregate can take

  predicate FitsRow(e: Aggregate, row: Row) {
    !Val(row, e.pos).Null? && (e.AggCount? || HasType(Val(row, e.pos), e.t))
  }

  ghost predicate Fits(e: Aggregate, rows: seq<Row>) {
    forall i :: 0 <= i < |rows| ==> FitsRow(e, rows[i])
  }

  ghost predicate AllFit(exprs: seq<Aggregate>, rows: seq<Row>) {
    forall i :: 0 <= i < |exprs| ==> Fits(exprs[i], rows)
  }

  lemma FitsBoth(exprs: seq<Aggregate>, a: seq<Row>, b: seq<Row>)
    requires AllFit(exprs, a) && AllFit(exprs, b)
    ensures AllFit(exprs, a + b)
  {
    hide FitsRow;
  }

  /** The column of the argument is queried, and holds values of the type of the aggregate. */
  ghost predicate Computable(schema: seq<FieldType>, q: QueryParam, e: Aggregate) {
    match e
    case AggCount(pos) => exists t :: Mapped(schema, q, pos, t)
    case AggSum(t, pos) => IsNumber(t) && Mapped(schema, q, pos, t)
    case AggAvg(t, pos) => IsNumber(t) && Mapped(schema, q, pos, t)
  }

  ghost predicate AllComputable(schema: seq<FieldType>, q: QueryParam, exprs: seq<Aggregate>) {
    forall i :: 0 <= i < |exprs| ==> Computable(schema, q, exprs[i])
  }

  lemma ComputableType(schema: seq<FieldType>, q: QueryParam, e: Aggregate) returns (t: FieldType)
    requires Computable(schema, q, e)
    ensures Mapped(schema, q, e.pos, t) && Numeric(e) && (e.AggCount? || t == e.t)
  {
    hide Mapped;
    if e.AggCount? { t :| Mapped(schema, q, e.pos, t); } else { t := e.t; }
  }

  lemma CellTyped(schema: seq<FieldType>, q: QueryParam, pos: nat, t: FieldType, row: Row)
    requires Mapped(schema, q, pos, t) && RowOK(schema, row)
    ensures HasType(Val(Project(q.fields, q.fieldCnt, row), pos), t)
  {
    assert ValueOK(row[DEVID_INDEX], schema[DEVID_INDEX]);
    if pos != DEVID_INDEX {
      var f := StoreOf(q.fields, pos).value;
      assert ValueOK(row[f], schema[f]);
    }
  }

  lemma TypedNotNull(v: DBVal, t: FieldType)
    requires HasType(v, t)
    ensures !v.Null?
  {
  }

  lemma MatchesFit(schema: seq<FieldType>, q: QueryParam, isAsc: bool, conds: seq<Condition>, exprs: seq<Aggregate>, rows: seq<Row>)
    requires AllComputable(schema, q, exprs) && AllRowsOK(schema, rows)
    ensures AllFit(exprs, Filter(conds, Oriented(isAsc, ProjectAll(q.fields, q.fieldCnt, rows))))
  {
    hide Computable, Mapped, RowOK, Project, Val, HasType, Filter;
    var all := Oriented(isAsc, ProjectAll(q.fields, q.fieldCnt, rows));
    var passed := Filter(conds, all);
    forall k, i | 0 <= k < |exprs| && 0 <= i < |passed| ensures FitsRow(exprs[k], passed[i]) {
      var t := ComputableType(schema, q, exprs[k]);
      var j := FilterFrom(conds, all, i);
      var row := rows[Slot(isAsc, |rows|, j)];
      assert all[j] == Project(q.fields, q.fieldCnt, row);
      CellTyped(schema, q, exprs[k].pos, t, row);
      TypedNotNull(Val(passed[i], exprs[k].pos), t);
    }
  }

  // ---------------------------------------------------------------- one function

  /** A field of the result: one of the functions. */
  datatype GroupField = CountField(count: CountFunc) | SumField(sum: SumFunc) | AvgField(avg: AvgFunc) {
    ghost function Expr(): Aggregate {
      match this
      case CountField(f) => AggCount(f.fieldPos)
      case SumField(f) => AggSum(f.valType, f.fieldPos)
      case AvgField(f) => AggAvg(f.valType, f.fieldPos)
    }

    ghost function Obj(): object {
      match this
      case CountField(f) => f
      case SumField(f) => f
      case AvgField(f) => f
    }

    /** The function has seen exactly these rows, in single rows and blocks however cut. */
    ghost predicate Took(rows: seq<Row>)
      reads Obj()
    {
      match this
      case CountField(f) => f.Valid() && f.taken == rows
      case SumField(f) => f.Valid() && f.taken == rows
      case AvgField(f) => f.Valid() && f.taken == rows
    }
  }

  method NewField(e: Aggregate) returns (f: GroupField)
    requires Numeric(e)
    ensures f.Expr() == e && fresh(f.Obj()) && f.Took([])
  {
    match e
    case AggCount(pos) =>
      var c := new CountFunc(pos);
      f := CountField(c);
    case AggSum(t, pos) =>
      var c := new SumFunc(t, pos);
      f := SumField(c);
    case AggAvg(t, pos) =>
      var c := new AvgFunc(t, pos);
      f := AvgField(c);
  }

  lemma FitsTyped(e: Aggregate, rows: seq<Row>)
    requires Fits(e, rows)
    ensures CountOf(rows, e.pos) == |rows|
    ensures !e.AggCount? ==> Typed(rows, e.pos, e.t)
  {
    hide Val, HasType;
    CountShortcut(e.pos, rows);
  }

  /** Values of the right type are not refused. */
  lemma SumAccepts(t: FieldType, pos: nat, before: seq<Row>, more: seq<Row>)
    requires IsNumber(t) && Typed(before, pos, t) && Typed(more, pos, t)
    ensures Fold(SumStep(t, pos), Fold(SumStep(t, pos), SumState(false, 0), before).state, more).ok
  {
    hide Fold, Val, HasType;
    SumMeaning(t, pos, before);
    SumMeaning(t, pos, before + more);
    FoldAppend(SumStep(t, pos), SumState(false, 0), before, more);
  }

  lemma AvgAccepts(t: FieldType, pos: nat, before: seq<Row>, more: seq<Row>)
    requires IsNumber(t) && Typed(before, pos, t) && Typed(more, pos, t)
    ensures Fold(AvgStep(t, pos), Fold(AvgStep(t, pos), AvgState(0, 0), before).state, more).ok
  {
    hide Fold, Val, HasType;
    AvgMeaning(t, pos, before);
    AvgMeaning(t, pos, before + more);
    FoldAppend(AvgStep(t, pos), AvgState(0, 0), before, more);
  }

  method AppendField(f: GroupField, blk: BlockValues, ghost before: seq<Row>) returns (ok: bool)
    requires blk.Valid() && f.Took(before) && Numeric(f.Expr())
    requires Fits(f.Expr(), before) && Fits(f.Expr(), blk.Survivors())
    requires f.Expr().pos < |blk.columnVec| && blk.columnVec[f.Expr().pos].Some?
    modifies f.Obj()
    ensures ok && f.Took(before + blk.Survivors())
  {
    hide BlockValues.Valid, BlockValues.Survivors, Fold, Fits, Members, Typed;
    ghost var rows := blk.Survivors();
    MembersUnlabelled(blk, 0);
    FitsTyped(f.Expr(), before);
    FitsTyped(f.Expr(), rows);
    match f
    case CountField(c) =>
      CountShortcut(c.fieldPos, rows);
      ok := c.AppendArray(blk, 0, []);
    case SumField(c) =>
      SumAccepts(c.valType, c.fieldPos, before, rows);
      ok := c.AppendArray(blk, 0, []);
    case AvgField(c) =>
      AvgAccepts(c.valType, c.fieldPos, before, rows);
      ok := c.AppendArray(blk, 0, []);
  }

  /** GetResult of a field; the error of AVG is not looked at. */
  method FieldResult(f: GroupField, ghost rows: seq<Row>) returns (v: DBVal)
    requires f.Took(rows) && Numeric(f.Expr()) && |rows| < P63
    ensures v == Answer(f.Expr(), rows)
  {
    hide Fold;
    CountShortcut(f.Expr().pos, rows);
    match f
    case CountField(c) => v := c.GetResult();
    case SumField(c) => v := c.GetResult();
    case AvgField(c) =>
      var ok;
      v, ok := c.GetResult();
  }

  // ---------------------------------------------------------------- one record of the result

  class ResultObject {
    const fieldVec: seq<GroupField>

    ghost function Objs(): set<object> {
      set i | 0 <= i < |fieldVec| :: fieldVec[i].Obj()
    }

    ghost function Exprs(): (r: seq<Aggregate>)
      ensures |r| == |fieldVec|
    {
      seq(|fieldVec|, i requires 0 <= i < |fieldVec| => fieldVec[i].Expr())
    }

    ghost predicate Apart() {
      && (forall i, j :: 0 <= i < j < |fieldVec| ==> fieldVec[i].Obj() != fieldVec[j].Obj())
      && (forall i :: 0 <= i < |fieldVec| ==> Numeric(fieldVec[i].Expr()))
    }

    ghost predicate Took(rows: seq<Row>)
      reads Objs()
    {
      Apart() && forall i :: 0 <= i < |fieldVec| ==> fieldVec[i].Took(rows)
    }

    constructor (exprs: seq<Aggregate>)
      requires forall i :: 0 <= i < |exprs| ==> Numeric(exprs[i])
      ensures Took([]) && Exprs() == exprs && fresh(Objs())
    {
      hide GroupField.Took, GroupField.Expr;
      var vec: seq<GroupField> := [];
      for i := 0 to |exprs|
        invariant |vec| == i && forall j :: 0 <= j < i ==> vec[j].Expr() == exprs[j] && fresh(vec[j].Obj()) && vec[j].Took([])
        invariant forall j, k :: 0 <= j < k < i ==> vec[j].Obj() != vec[k].Obj()
      {
        var f := NewField(exprs[i]);
        vec := vec + [f];
      }
      fieldVec := vec;
    }

    /** Every field in turn. */
    method AppendArray(blk: BlockValues, ghost before: seq<Row>) returns (ok: bool)
      requires blk.Valid() && Took(before) && AllFit(Exprs(), before) && AllFit(Exprs(), blk.Survivors()) && blk !in Objs()
      requires forall i :: 0 <= i < |fieldVec| ==> Exprs()[i].pos < |blk.columnVec| && blk.columnVec[Exprs()[i].pos].Some?
      modifies Objs()
      ensures ok && Took(before + blk.Survivors())
    {
      hide BlockValues.Valid, BlockValues.Survivors, GroupField.Expr, Fits, Numeric, CountFunc.Valid, SumFunc.Valid, AvgFunc.Valid;
      ghost var rows := blk.Survivors();
      for i := 0 to |fieldVec|
        invariant forall j :: 0 <= j < i ==> fieldVec[j].Took(before + rows)
        invariant forall j :: i <= j < |fieldVec| ==> fieldVec[j].Took(before)
      {
        assert Exprs()[i] == fieldVec[i].Expr();
        ok := AppendField(fieldVec[i], blk, before);
        if !ok {
          return;
        }
      }
      ok := true;
    }

    method GetRecord(ghost rows: seq<Row>) returns (vals: seq<DBVal>)
      requires Took(rows) && |rows| < P63
      ensures vals == Answers(Exprs(), rows)
    {
      hide GroupField.Expr, Answer, Numeric;
      vals := [];
      for i := 0 to |fieldVec|
        invariant vals == Answers(Exprs(), rows)[..i] && forall j :: 0 <= j < |fieldVec| ==> fieldVec[j].Took(rows)
      {
        var v := FieldResult(fieldVec[i], rows);
        vals := vals + [v];
      }
    }
  }

  // ---------------------------------------------------------------- the traversal

  /** TraversalDataPage with an ungrouped QueryGroup: the matching rows of one block. */
  method AggregatePage(part: CompDataPart, isAsc: bool, b: nat, q: QueryParam, conds: seq<Condition>, obj: ResultObject,
                       ghost before: seq<Row>)
    requires part.Valid() && ParamOK(part.part.schema, q) && b < |part.part.blocks|
    requires obj.Took(before) && AllFit(obj.Exprs(), before) && AllComputable(part.part.schema, q, obj.Exprs())
    modifies obj.Objs()
    ensures var passed := Filter(conds, Oriented(isAsc, ProjectAll(q.fields, q.fieldCnt, part.part.blocks[b].rows)));
            obj.Took(before + passed) && AllFit(obj.Exprs(), before + passed)
  {
    hide CompDataPart.Valid, PartOK, BlockValues.Valid, BlockValues.CacheOK, BlockValues.Survivors, ParamOK, ProjectAll,
         Oriented, Filter, Available, AllFit, AllComputable, ResultObject.Took, ResultObject.Exprs;
    var page := part.LoadPage(isAsc, b, q);
    RunConditionArray(conds, page.value);
    StoredBlock(part, b);
    MatchesFit(part.part.schema, q, isAsc, conds, obj.Exprs(), part.part.blocks[b].rows);
    ArgumentsThere(part.part.schema, q, obj.Exprs(), page.value.columnVec);
    FitsBoth(obj.Exprs(), before, page.value.Survivors());
    var ok := obj.AppendArray(page.value, before);
  }

  lemma StoredBlock(part: CompDataPart, b: nat)
    requires part.Valid() && b < |part.part.blocks|
    ensures AllRowsOK(part.part.schema, part.part.blocks[b].rows)
  {
    hide At, TsPlaced, CmpPlaced, RowOK, RunMap, Env.Sound, PayloadsApart;
    assert BlockOK(part.part.schema, part.part.blocks[b]);
  }

  lemma ArgumentsThere(schema: seq<FieldType>, q: QueryParam, exprs: seq<Aggregate>, columns: seq<Option<seq<DBVal>>>)
    requires AllComputable(schema, q, exprs) && Available(q, columns)
    ensures forall i :: 0 <= i < |exprs| ==> exprs[i].pos < |columns| && columns[exprs[i].pos].Some?
  {
    hide Computable;
    forall i | 0 <= i < |exprs| ensures exprs[i].pos < |columns| && columns[exprs[i].pos].Some? {
      var t := ComputableType(schema, q, exprs[i]);
    }
  }

  /** COUNT, SUM and AVG of a device with index pruning: exactly its matching rows are taken. */
  method AggregateDevice(part: CompDataPart, isAsc: bool, devId: Int64, q: QueryParam, conds: seq<Condition>, obj: ResultObject)
    requires part.Valid() && ParamOK(part.part.schema, q) && devId > 0 && Grouped(DevsOf(part.part.blocks)) && Spans(q, conds)
    requires TimeOrdered(DeviceRows(RowsOf(part.part.blocks), devId))
    requires Findable(conds, q, DeviceRows(RowsOf(part.part.blocks), devId))
    requires obj.Took([]) && AllComputable(part.part.schema, q, obj.Exprs())
    modifies obj.Objs()
    ensures obj.Took(Filter(conds, Oriented(isAsc, ProjectAll(q.fields, q.fieldCnt, DeviceRows(RowsOf(part.part.blocks), devId)))))
  {
    hide CompDataPart.Valid, PartOK, ParamOK, ProjectAll, Oriented, Offered, Starts, Range, RunMap, Grouped, DeviceRows, RowsOf,
         TimeOrdered, Findable, Bounded, Selection, Filter, Spans, AllComputable, ResultObject.Took, ResultObject.Exprs, AllFit;
    ghost var rows := DeviceRows(RowsOf(part.part.blocks), devId);
    RunOfDevice(part, devId);
    RangeTaken(q, conds, rows);
    var idxVec, first := part.GetDevIdxs(devId, q.bgTs, q.edTs);
    if idxVec.None? {
      NothingMatches(isAsc, q, conds);
      return;
    }
    var visit := Oriented(isAsc, idxVec.value);
    ghost var run, lo, hi := part.RunOf(devId), first, first + |idxVec.value|;
    SelectionInside(Starts(run), Unsigned(q.bgTs), Unsigned(q.edTs), lo, hi);
    ghost var blocks := Oriented(isAsc, run[lo..hi]);
    OrientedSize(isAsc, idxVec.value);
    OrientedSize(isAsc, run[lo..hi]);
    NothingTaken(isAsc, q, conds, obj.Exprs(), blocks);
    for k := 0 to |visit|
      invariant obj.Took(Filter(conds, Offered(isAsc, q, blocks[..k])))
      invariant AllFit(obj.Exprs(), Filter(conds, Offered(isAsc, q, blocks[..k])))
    {
      VisitIs(part, isAsc, devId, lo, hi, visit, k);
      MatchStep(isAsc, q, conds, blocks, k);
      AggregatePage(part, isAsc, visit[k], q, conds, obj, Filter(conds, Offered(isAsc, q, blocks[..k])));
    }
    assert blocks[..|blocks|] == blocks;
    SelectedIs(conds, isAsc, q, run, lo, hi, []);
    FromNothing(Offered(isAsc, q, blocks));
    FromNothing(Oriented(isAsc, ProjectAll(q.fields, q.fieldCnt, rows)));
  }

  lemma NothingMatches(isAsc: bool, q: QueryParam, conds: seq<Condition>)
    ensures Filter(conds, Oriented(isAsc, ProjectAll(q.fields, q.fieldCnt, []))) == []
  {
  }

  lemma NothingTaken(isAsc: bool, q: QueryParam, conds: seq<Condition>, exprs: seq<Aggregate>, blocks: seq<Block>)
    ensures Filter(conds, Offered(isAsc, q, blocks[..0])) == [] && AllFit(exprs, [])
  {
  }

  lemma MatchStep(isAsc: bool, q: QueryParam, conds: seq<Condition>, blocks: seq<Block>, k: nat)
    requires k < |blocks|
    ensures Filter(conds, Offered(isAsc, q, blocks[..k + 1]))
         == Filter(conds, Offered(isAsc, q, blocks[..k])) + Filter(conds, Oriented(isAsc, ProjectAll(q.fields, q.fieldCnt, blocks[k].rows)))
  {
    hide Filter, Offered, Oriented, ProjectAll;
    OfferStep(isAsc, q, blocks, k);
    FilterAppend(conds, Offered(isAsc, q, blocks[..k]), Oriented(isAsc, ProjectAll(q.fields, q.fieldCnt, blocks[k].rows)));
  }
}
