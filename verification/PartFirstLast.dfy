/** FIRST and LAST over a partition file: the traversal stops at the first block in which a row
    passes the conditions, and still gives what a scan of all rows of the device gives. */
module PartFirstLast {
  import opened Coding
  import opened DbValue
  import opened ColumnDecoder
  import opened CompFormat
  import opened PartFile
  import opened QueryBlocks
  import opened ConditionFilters
  import opened CompDataParts
  import opened PartQueries
  import opened GroupFunctions

  /** Column `pos` of the query holds values of type t. */
  ghost predicate Mapped(schema: seq<FieldType>, q: QueryParam, pos: nat, t: FieldType) {
    && pos < q.fieldCnt
    && if pos == DEVID_INDEX then t == TInt64
       else match StoreOf(q.fields, pos)
         case None => false
         case Some(f) => f < |schema| && schema[f] == t
  }

  /** The query sees the time in its column 1 and the argument of the function in column pos. */
  ghost predicate Askable(schema: seq<FieldType>, q: QueryParam, pos: nat, t: FieldType) {
    && ParamOK(schema, q) && TSTAMP_INDEX < q.fieldCnt && StoreOf(q.fields, TSTAMP_INDEX) == Some(TSTAMP_INDEX)
    && Mapped(schema, q, pos, t)
  }

  // ---------------------------------------------------------------- order and types of the rows

  lemma {:induction false} StoredRowsOK(schema: seq<FieldType>, blocks: seq<Block>)
    requires forall b :: 0 <= b < |blocks| ==> BlockOK(schema, blocks[b])
    ensures AllRowsOK(schema, RowsOf(blocks))
  {
    hide RowOK;
    if blocks != [] {
      StoredRowsOK(schema, blocks[..|blocks| - 1]);
      assert BlockOK(schema, blocks[|blocks| - 1]);
    }
  }

  /** Cells keep time and type. */
  lemma ProjectedCells(schema: seq<FieldType>, q: QueryParam, pos: nat, t: FieldType, row: Row)
    requires Askable(schema, q, pos, t) && RowOK(schema, row)
    ensures var p := Project(q.fields, q.fieldCnt, row);
            Val(p, TSTAMP_INDEX).DateTime? && RowTs(p) == RowTs(row) && HasType(Val(p, pos), t)
  {
    assert ValueOK(row[TSTAMP_INDEX], schema[TSTAMP_INDEX]) && ValueOK(row[DEVID_INDEX], schema[DEVID_INDEX]);
    if pos != DEVID_INDEX {
      var f := StoreOf(q.fields, pos).value;
      assert ValueOK(row[f], schema[f]);
    }
  }

  /** What FIRST and LAST need of the rows they see. */
  ghost predicate Suited(isFirst: bool, pos: nat, t: FieldType, rows: seq<Row>) {
    Timed(rows) && Typed(rows, pos, t) && InOrder(isFirst, rows)
  }

  lemma OrientedSuited(schema: seq<FieldType>, q: QueryParam, pos: nat, t: FieldType, isAsc: bool, rows: seq<Row>)
    requires Askable(schema, q, pos, t) && AllRowsOK(schema, rows) && TimeOrdered(rows)
    ensures Suited(isAsc, pos, t, Oriented(isAsc, ProjectAll(q.fields, q.fieldCnt, rows)))
  {
    hide Askable, RowOK, Project, Val, HasType, RowTs;
    var all := Oriented(isAsc, ProjectAll(q.fields, q.fieldCnt, rows));
    forall i | 0 <= i < |all|
      ensures var row := rows[Slot(isAsc, |rows|, i)];
              all[i] == Project(q.fields, q.fieldCnt, row)
              && Val(all[i], TSTAMP_INDEX).DateTime? && RowTs(all[i]) == RowTs(row) && HasType(Val(all[i], pos), t)
    {
      ProjectedCells(schema, q, pos, t, rows[Slot(isAsc, |rows|, i)]);
    }
    forall i, j | 0 <= i < j < |all| ensures if isAsc then RowTs(all[i]) < RowTs(all[j]) else RowTs(all[i]) > RowTs(all[j]) {
      var x, y := Slot(isAsc, |rows|, i), Slot(isAsc, |rows|, j);
      if isAsc { assert RowTs(rows[x]) < RowTs(rows[y]); } else { assert RowTs(rows[y]) < RowTs(rows[x]); }
    }
  }

  /** Filtering keeps rows as they are and in their order. */
  lemma {:induction false} FilterFrom(conds: seq<Condition>, rows: seq<Row>, i: nat) returns (j: nat)
    requires i < |Filter(conds, rows)|
    ensures j < |rows| && Filter(conds, rows)[i] == rows[j]
  {
    hide Meets;
    var init := rows[..|rows| - 1];
    if i < |Filter(conds, init)| {
      j := FilterFrom(conds, init, i);
    } else {
      j := |init|;
    }
  }

  lemma {:induction false} FilterSuited(isFirst: bool, pos: nat, t: FieldType, conds: seq<Condition>, rows: seq<Row>)
    requires Suited(isFirst, pos, t, rows)
    ensures Suited(isFirst, pos, t, Filter(conds, rows))
  {
    hide Val, RowTs, HasType, Meets, Beats;
    if rows != [] {
      var init, last := rows[..|rows| - 1], rows[|rows| - 1];
      assert forall i :: 0 <= i < |init| ==> init[i] == rows[i];
      FilterSuited(isFirst, pos, t, conds, init);
      forall i | 0 <= i < |Filter(conds, init)|
        ensures var ts := RowTs(Filter(conds, init)[i]);
                if isFirst then ts < RowTs(last) else ts > RowTs(last)
      {
        var j := FilterFrom(conds, init, i);
        assert if isFirst then RowTs(rows[j]) < RowTs(rows[|init|]) else RowTs(rows[j]) > RowTs(rows[|init|]);
      }
    }
  }

  // ---------------------------------------------------------------- the traversal

  /** Looking further cannot change the result. */
  lemma StopHere(isAsc: bool, t: FieldType, pos: nat, found: seq<Row>, rest: seq<Row>, all: seq<Row>)
    requires found != [] && all == found + rest && Suited(isAsc, pos, t, all)
    ensures Fold(BestStep(isAsc, t, pos), BestStart(isAsc), found) == Fold(BestStep(isAsc, t, pos), BestStart(isAsc), all)
    ensures Fold(BestStep(isAsc, t, pos), BestStart(isAsc), found).ok
  {
    hide Fold, Val, RowTs, HasType, Beats;
    EarlyExit(isAsc, t, pos, found, rest);
    assert forall i :: 0 <= i < |found| ==> found[i] == all[i];
    BestMeaning(isAsc, t, pos, found);
  }

  /** What the function holds after it was offered the rows of these blocks, row by row. */
  ghost predicate FoundIn(isAsc: bool, q: QueryParam, conds: seq<Condition>, pos: nat, t: FieldType, blocks: seq<Block>,
                          s: BestState, isAdd: bool)
  {
    var all := Filter(conds, Offered(isAsc, q, blocks));
    && Outcome(s, true) == Fold(BestStep(isAsc, t, pos), BestStart(isAsc), all)
    && (isAdd <==> all != [])
  }

  /** TraversalDataPage with the function as the query: the matching rows of one block. */
  method VisitPage(part: CompDataPart, isAsc: bool, b: nat, q: QueryParam, conds: seq<Condition>, f: FirstOrLastValueFunc)
    returns (ok: bool, isAdd: bool)
    requires part.Valid() && Askable(part.part.schema, q, f.fieldPos, f.valType) && b < |part.part.blocks|
    requires f.isFirst == isAsc
    modifies f
    ensures var passed := Filter(conds, Oriented(isAsc, ProjectAll(q.fields, q.fieldCnt, part.part.blocks[b].rows)));
            && Outcome(f.State(), ok) == Fold(BestStep(isAsc, f.valType, f.fieldPos), old(f.State()), passed)
            && (isAdd <==> passed != [])
  {
    hide CompDataPart.Valid, PartOK, BlockValues.Valid, BlockValues.CacheOK, BlockValues.Survivors, Askable, Mapped,
         ParamOK, ProjectAll, Oriented, Filter, Fold, Available, Members;
    AskableParam(part.part.schema, q, f.fieldPos, f.valType);
    var page := part.LoadPage(isAsc, b, q);
    RunConditionArray(conds, page.value);
    ColumnsThere(part.part.schema, q, f.fieldPos, f.valType, page.value.columnVec);
    ok := f.AppendArray(page.value, 0, []);
    MembersUnlabelled(page.value, 0);
    SurvivorsSize(page.value);
    isAdd := page.value.resultSize > 0;
  }

  /** QueryDevData with querySingle set, for one aggregate: visits the selected blocks until one
      adds a row; in the `read` blocks before it no row passes. */
  method QueryDevSingle(part: CompDataPart, isAsc: bool, devId: Int64, q: QueryParam, conds: seq<Condition>,
                        f: FirstOrLastValueFunc) returns (isAdd: bool, ghost lo: nat, ghost hi: nat, ghost read: nat)
    requires part.Valid() && Askable(part.part.schema, q, f.fieldPos, f.valType)
    requires f.isFirst == isAsc && f.State() == BestStart(isAsc)
    requires Suited(isAsc, f.fieldPos, f.valType, Oriented(isAsc, ProjectAll(q.fields, q.fieldCnt, RowsOf(part.DeviceRun(devId)))))
    modifies f
    ensures part.Selected(devId, q.bgTs, q.edTs, lo, hi)
    ensures FoundIn(isAsc, q, conds, f.fieldPos, f.valType, Oriented(isAsc, part.Chosen(devId, lo, hi)), f.State(), isAdd)
    ensures var visit := Oriented(isAsc, part.Chosen(devId, lo, hi));
            && read <= |visit| && Filter(conds, Offered(isAsc, q, visit[..read])) == []
            && if isAdd then read < |visit| && Filter(conds, Oriented(isAsc, ProjectAll(q.fields, q.fieldCnt, visit[read].rows))) != []
               else read == |visit|
  {
    hide CompDataPart.Valid, PartOK, Askable, ProjectAll, Oriented, Offered, Starts, Range, RunMap, Filter, Fold, Suited;
    isAdd := false;
    var idxVec, first := part.GetDevIdxs(devId, q.bgTs, q.edTs);
    lo, hi, read := first, 0, 0;
    if idxVec.None? {
      NoBlocksFound(isAsc, q, conds, f.fieldPos, f.valType);
      return;
    }
    hi := first + |idxVec.value|;
    var visit := Oriented(isAsc, idxVec.value);
    ghost var blocks := Oriented(isAsc, part.RunOf(devId)[lo..hi]);
    OrientedSize(isAsc, idxVec.value);
    OrientedSize(isAsc, part.RunOf(devId)[lo..hi]);
    VisitSuited(isAsc, q, f.fieldPos, f.valType, conds, part.RunOf(devId), lo, hi);
    NothingFound(isAsc, q, f.fieldPos, f.valType, conds, blocks);
    for k := 0 to |visit|
      invariant read == k && f.State() == BestStart(isAsc) && Filter(conds, Offered(isAsc, q, blocks[..k])) == []
    {
      VisitIs(part, isAsc, devId, lo, hi, visit, k);
      FoundHere(isAsc, q, f.fieldPos, f.valType, conds, blocks, k);
      var ok;
      ok, isAdd := VisitPage(part, isAsc, visit[k], q, conds, f);
      if isAdd {
        return;
      }
      read := k + 1;
    }
    assert blocks[..|blocks|] == blocks;
    NothingKeptYet(isAsc, f.fieldPos, f.valType);
  }

  lemma SurvivorsSize(blk: BlockValues)
    requires blk.Valid()
    ensures |blk.Survivors()| == blk.resultSize
  {
  }

  lemma AskableParam(schema: seq<FieldType>, q: QueryParam, pos: nat, t: FieldType)
    requires Askable(schema, q, pos, t)
    ensures ParamOK(schema, q)
  {
  }

  lemma ColumnsThere(schema: seq<FieldType>, q: QueryParam, pos: nat, t: FieldType, columns: seq<Option<seq<DBVal>>>)
    requires Askable(schema, q, pos, t) && Available(q, columns)
    ensures pos < |columns| && columns[pos].Some? && TSTAMP_INDEX < |columns| && columns[TSTAMP_INDEX].Some?
  {
  }

  lemma NothingKeptYet(isAsc: bool, pos: nat, t: FieldType)
    ensures Fold(BestStep(isAsc, t, pos), BestStart(isAsc), []) == Outcome(BestStart(isAsc), true)
  {
  }

  lemma NoBlocksFound(isAsc: bool, q: QueryParam, conds: seq<Condition>, pos: nat, t: FieldType)
    ensures FoundIn(isAsc, q, conds, pos, t, Oriented(isAsc, []), BestStart(isAsc), false)
    ensures Oriented<Block>(isAsc, []) == [] && Filter(conds, Offered(isAsc, q, [])) == []
  {
  }

  lemma NothingFound(isAsc: bool, q: QueryParam, pos: nat, t: FieldType, conds: seq<Condition>, blocks: seq<Block>)
    ensures Filter(conds, Offered(isAsc, q, blocks[..0])) == []
  {
  }

  /** The selected blocks offer a stretch of the suited rows. */
  lemma VisitSuited(isAsc: bool, q: QueryParam, pos: nat, t: FieldType, conds: seq<Condition>, run: seq<Block>, lo: nat, hi: nat)
    requires lo <= hi <= |run|
    requires Suited(isAsc, pos, t, Oriented(isAsc, ProjectAll(q.fields, q.fieldCnt, RowsOf(run))))
    ensures Suited(isAsc, pos, t, Filter(conds, Offered(isAsc, q, Oriented(isAsc, run[lo..hi]))))
  {
    hide Suited, Oriented, Offered, ProjectAll, RowsOf, Filter;
    OfferedIs(isAsc, q, run);
    var a, b, c := run[..lo], run[lo..hi], run[hi..];
    assert run == a + b + c;
    OrientedAppend(isAsc, a + b, c);
    OrientedAppend(isAsc, a, b);
    var x, y, z := Oriented(isAsc, a), Oriented(isAsc, b), Oriented(isAsc, c);
    if isAsc {
      MiddleSuited(isAsc, q, pos, t, x, y, z);
    } else {
      assert z + (y + x) == z + y + x;
      MiddleSuited(isAsc, q, pos, t, z, y, x);
    }
    FilterSuited(isAsc, pos, t, conds, Offered(isAsc, q, y));
  }

  lemma MiddleSuited(isAsc: bool, q: QueryParam, pos: nat, t: FieldType, a: seq<Block>, b: seq<Block>, c: seq<Block>)
    requires Suited(isAsc, pos, t, Offered(isAsc, q, a + b + c))
    ensures Suited(isAsc, pos, t, Offered(isAsc, q, b))
  {
    hide Offered, Val, RowTs, HasType, Beats;
    OfferedAppend(isAsc, q, a + b, c);
    OfferedAppend(isAsc, q, a, b);
    var all, m, k := Offered(isAsc, q, a + b + c), Offered(isAsc, q, b), |Offered(isAsc, q, a)|;
    assert forall i :: 0 <= i < |m| ==> m[i] == all[k + i];
    forall i, j | 0 <= i < j < |m| ensures if isAsc then RowTs(m[i]) < RowTs(m[j]) else RowTs(m[i]) > RowTs(m[j]) {
      assert if isAsc then RowTs(all[k + i]) < RowTs(all[k + j]) else RowTs(all[k + i]) > RowTs(all[k + j]);
    }
  }

  /** Block k: either nothing passes in it, or what passes decides the result. */
  lemma FoundHere(isAsc: bool, q: QueryParam, pos: nat, t: FieldType, conds: seq<Condition>, blocks: seq<Block>, k: nat)
    requires k < |blocks| && Filter(conds, Offered(isAsc, q, blocks[..k])) == []
    requires Suited(isAsc, pos, t, Filter(conds, Offered(isAsc, q, blocks)))
    ensures var passed := Filter(conds, Oriented(isAsc, ProjectAll(q.fields, q.fieldCnt, blocks[k].rows)));
            var all := Filter(conds, Offered(isAsc, q, blocks));
            && Filter(conds, Offered(isAsc, q, blocks[..k + 1])) == passed
            && (passed != [] ==> (
                  && all != []
                  && Fold(BestStep(isAsc, t, pos), BestStart(isAsc), passed).ok
                  && Fold(BestStep(isAsc, t, pos), BestStart(isAsc), passed) == Fold(BestStep(isAsc, t, pos), BestStart(isAsc), all)))
            && (passed == [] ==> Fold(BestStep(isAsc, t, pos), BestStart(isAsc), passed) == Outcome(BestStart(isAsc), true))
  {
    hide Offered, Filter, Oriented, ProjectAll, Suited, Fold;
    var page := Oriented(isAsc, ProjectAll(q.fields, q.fieldCnt, blocks[k].rows));
    OfferStep(isAsc, q, blocks, k);
    OfferedAppend(isAsc, q, blocks[..k + 1], blocks[k + 1..]);
    assert blocks == blocks[..k + 1] + blocks[k + 1..];
    FilterAppend(conds, Offered(isAsc, q, blocks[..k]), page);
    FilterAppend(conds, Offered(isAsc, q, blocks[..k + 1]), Offered(isAsc, q, blocks[k + 1..]));
    var passed := Filter(conds, page);
    assert [] + passed == passed;
    NothingKeptYet(isAsc, pos, t);
    if passed != [] {
      StopHere(isAsc, t, pos, passed, Filter(conds, Offered(isAsc, q, blocks[k + 1..])), Filter(conds, Offered(isAsc, q, blocks)));
    }
  }

  lemma DeviceSuited(part: CompDataPart, isAsc: bool, devId: Int64, q: QueryParam, pos: nat, t: FieldType)
    requires part.Valid() && Askable(part.part.schema, q, pos, t)
    requires TimeOrdered(DeviceRows(RowsOf(part.part.blocks), devId))
    ensures Suited(isAsc, pos, t, Oriented(isAsc, ProjectAll(q.fields, q.fieldCnt, DeviceRows(RowsOf(part.part.blocks), devId))))
  {
    hide At, TsPlaced, CmpPlaced, BlockOK, Askable, Suited, TimeOrdered, RowsOf, DeviceRows, RunMap, Env.Sound, AllRowsOK;
    StoredRowsOK(part.part.schema, part.part.blocks);
    DeviceRowsOK(part.part.schema, RowsOf(part.part.blocks), devId);
    OrientedSuited(part.part.schema, q, pos, t, isAsc, DeviceRows(RowsOf(part.part.blocks), devId));
  }

  /** The value of the first of these rows, if there is one and its time lies inside the
      sentinel. */
  function Foremost(isAsc: bool, pos: nat, rows: seq<Row>): BestState {
    if rows != [] && (if isAsc then RowTs(rows[0]) < MAX_MICROSECOND else RowTs(rows[0]) > MIN_MICROSECOND) then
      BestState(RowTs(rows[0]), Val(rows[0], pos))
    else BestState(if isAsc then MAX_MICROSECOND else MIN_MICROSECOND, Null)
  }

  lemma ForemostKept(isAsc: bool, pos: nat, t: FieldType, conds: seq<Condition>, rows: seq<Row>)
    requires Suited(isAsc, pos, t, rows)
    ensures Fold(BestStep(isAsc, t, pos), BestStart(isAsc), Filter(conds, rows)) == Outcome(Foremost(isAsc, pos, Filter(conds, rows)), true)
    ensures var all := Filter(conds, rows);
            all != [] && MIN_MICROSECOND < RowTs(all[0]) < MAX_MICROSECOND ==>
              Foremost(isAsc, pos, all) == BestState(RowTs(all[0]), Val(all[0], pos))
  {
    hide Filter, Val, RowTs, HasType, Beats, Fold;
    FilterSuited(isAsc, pos, t, conds, rows);
    if Filter(conds, rows) == [] { NothingKeptYet(isAsc, pos, t); } else { FirstRowKept(isAsc, t, pos, Filter(conds, rows)); }
  }

  /** FIRST (ascending) and LAST (descending) of a device, with index pruning and early exit,
      are the fold over every matching row of the device: the value of the oldest (newest) of
      them, unless its time is the last (first) of all times there are. */
  method FirstOrLastOfDevice(part: CompDataPart, isAsc: bool, devId: Int64, q: QueryParam, conds: seq<Condition>,
                             f: FirstOrLastValueFunc) returns (isAdd: bool)
    requires part.Valid() && Askable(part.part.schema, q, f.fieldPos, f.valType) && devId > 0
    requires f.isFirst == isAsc && f.State() == BestStart(isAsc)
    requires Grouped(DevsOf(part.part.blocks)) && Spans(q, conds)
    requires TimeOrdered(DeviceRows(RowsOf(part.part.blocks), devId))
    requires Findable(conds, q, DeviceRows(RowsOf(part.part.blocks), devId))
    modifies f
    ensures var rows := DeviceRows(RowsOf(part.part.blocks), devId);
            var all := Filter(conds, Oriented(isAsc, ProjectAll(q.fields, q.fieldCnt, rows)));
            Outcome(f.State(), true) == Fold(BestStep(isAsc, f.valType, f.fieldPos), BestStart(isAsc), all)
            && (isAdd <==> all != []) && f.State() == Foremost(isAsc, f.fieldPos, all)
            && (all != [] && MIN_MICROSECOND < RowTs(all[0]) < MAX_MICROSECOND ==>
                  f.curTs == RowTs(all[0]) && f.curVal == Val(all[0], f.fieldPos))
  {
    hide CompDataPart.Valid, PartOK, Askable, ProjectAll, Oriented, Offered, Starts, RunMap, Grouped, DeviceRows, RowsOf,
         TimeOrdered, Bounded, Selection, Filter, Suited, Fold, Spans, Findable, Foremost;
    ghost var rows := DeviceRows(RowsOf(part.part.blocks), devId);
    RangeTaken(q, conds, rows);
    RunOfDevice(part, devId);
    NoBlocks([]);
    DeviceSuited(part, isAsc, devId, q, f.fieldPos, f.valType);
    ForemostKept(isAsc, f.fieldPos, f.valType, conds, Oriented(isAsc, ProjectAll(q.fields, q.fieldCnt, rows)));
    ghost var lo, hi, read;
    isAdd, lo, hi, read := QueryDevSingle(part, isAsc, devId, q, conds, f);
    if devId in part.tsIdxMap {
      SelectedIs(conds, isAsc, q, part.RunOf(devId), lo, hi, []);
      SelectionInside(Starts(part.RunOf(devId)), Unsigned(q.bgTs), Unsigned(q.edTs), lo, hi);
      FromNothing(Offered(isAsc, q, Oriented(isAsc, part.RunOf(devId)[lo..hi])));
      FromNothing(Oriented(isAsc, ProjectAll(q.fields, q.fieldCnt, rows)));
    } else {
      OfferedIs(isAsc, q, []);
    }
  }

  lemma FromNothing(rows: seq<Row>)
    ensures [] + rows == rows
  {
  }
}
