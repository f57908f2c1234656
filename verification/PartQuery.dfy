/** Queries over a partition file: the blocks that the index selects, in ascending or
    descending order, give the rows a scan of everything stored for the device would give. */
module PartQueries {
  import opened Coding
  import opened DbValue
  import opened ColumnDecoder
  import opened CompFormat
  import opened PartFile
  import opened QueryBlocks
  import opened ConditionFilters
  import opened QueryRaws
  import opened CompDataParts

  // ---------------------------------------------------------------- sequences

  lemma {:induction false} RowsOfAppend(a: seq<Block>, b: seq<Block>)
    ensures RowsOf(a + b) == RowsOf(a) + RowsOf(b)
  {
    hide RowsOf;
    if b == [] {
      NoBlocks(b);
      assert a + b == a;
    } else {
      var init, last := b[..|b| - 1], b[|b| - 1];
      RowsOfAppend(a, init);
      RowsOfSnoc(a + init, last);
      RowsOfSnoc(init, last);
      assert a + b == a + init + [last] && b == init + [last];
    }
  }

  lemma ReverseAppend<T>(a: seq<T>, b: seq<T>)
    ensures Reverse(a + b) == Reverse(b) + Reverse(a)
  {
    hide Reverse;
  }

  lemma ProjectAppend(fields: seq<FieldQueryMapping>, cnt: nat, a: seq<Row>, b: seq<Row>)
    ensures ProjectAll(fields, cnt, a + b) == ProjectAll(fields, cnt, a) + ProjectAll(fields, cnt, b)
  {
    hide Project;
  }

  // ---------------------------------------------------------------- pruning

  predicate InRange(bgTs: Int64, edTs: Int64, row: Row) { bgTs <= RowTs(row) <= edTs }

  /** The rows of a device: times not negative and strictly increasing. */
  ghost predicate TimeOrdered(rows: seq<Row>) {
    && (forall i :: 0 <= i < |rows| ==> RowTs(rows[i]) >= 0)
    && (forall i, j :: 0 <= i < j < |rows| ==> RowTs(rows[i]) < RowTs(rows[j]))
  }

  ghost predicate NonEmpty(run: seq<Block>) {
    forall b :: 0 <= b < |run| ==> run[b].rows != []
  }

  /** Every row of the first part is older than every row of the second. */
  lemma Older(a: seq<Row>, b: seq<Row>)
    requires TimeOrdered(a + b)
    ensures TimeOrdered(a) && TimeOrdered(b)
    ensures forall i, j :: 0 <= i < |a| && 0 <= j < |b| ==> RowTs(a[i]) < RowTs(b[j])
  {
    hide RowTs;
    var all := a + b;
    assert forall i :: 0 <= i < |a| ==> a[i] == all[i];
    assert forall j :: 0 <= j < |b| ==> b[j] == all[|a| + j];
    forall i, j | 0 <= i < |a| && 0 <= j < |b| ensures RowTs(a[i]) < RowTs(b[j]) {
      assert RowTs(all[i]) < RowTs(all[|a| + j]);
    }
    forall i, j | 0 <= i < j < |b| ensures RowTs(b[i]) < RowTs(b[j]) {
      assert RowTs(all[|a| + i]) < RowTs(all[|a| + j]);
    }
    forall j | 0 <= j < |b| ensures RowTs(b[j]) >= 0 { assert RowTs(all[|a| + j]) >= 0; }
  }

  /** Block b starts with the oldest of the rows from there on, and they are all younger than
      the rows of the blocks before it. */
  lemma StartsAt(run: seq<Block>, b: nat)
    requires NonEmpty(run) && b < |run| && TimeOrdered(RowsOf(run))
    ensures var before, rest := RowsOf(run[..b]), RowsOf(run[b..]);
            && RowsOf(run) == before + rest && FirstTs(run[b]) >= 0
            && (forall i :: 0 <= i < |before| ==> RowTs(before[i]) < FirstTs(run[b]))
            && (forall i :: 0 <= i < |rest| ==> RowTs(rest[i]) >= FirstTs(run[b]))
  {
    hide RowTs, RowsOf;
    var before, rest := RowsOf(run[..b]), RowsOf(run[b..]);
    RowsOfAppend(run[..b], run[b..]);
    assert run == run[..b] + run[b..];
    Older(before, rest);
    RowsOfAppend([run[b]], run[b + 1..]);
    assert run[b..] == [run[b]] + run[b + 1..];
    OneBlock(run[b]);
    assert rest[0] == run[b].rows[0];
  }

  lemma OneBlock(blk: Block)
    ensures RowsOf([blk]) == blk.rows
  {
    assert [blk][..0] == [];
  }

  lemma NoBlocks(run: seq<Block>)
    requires run == []
    ensures RowsOf(run) == []
  {
  }

  lemma {:induction false} NoneMatch(conds: seq<Condition>, fields: seq<FieldQueryMapping>, cnt: nat, rows: seq<Row>)
    requires forall i :: 0 <= i < |rows| ==> !Meets(conds, Project(fields, cnt, rows[i]))
    ensures Filter(conds, ProjectAll(fields, cnt, rows)) == []
  {
    hide Meets, Project;
    if rows != [] {
      NoneMatch(conds, fields, cnt, rows[..|rows| - 1]);
      assert ProjectAll(fields, cnt, rows)[..|rows| - 1] == ProjectAll(fields, cnt, rows[..|rows| - 1]);
    }
  }

  /** The conditions let only rows of the time range pass. */
  ghost predicate Bounded(conds: seq<Condition>, q: QueryParam, rows: seq<Row>) {
    forall i :: 0 <= i < |rows| && Meets(conds, Project(q.fields, q.fieldCnt, rows[i])) ==> InRange(q.bgTs, q.edTs, rows[i])
  }

  /** The times at which the unsigned comparisons of the search mean what they say. */
  predicate SearchSound(bgTs: Int64, edTs: Int64) { bgTs >= 0 || edTs < 0 }

  /** InitQueryParam: the time range is that of the conditions, and the column the query takes
      for the time, if it is queried, is the stored time. */
  ghost predicate Spans(q: QueryParam, conds: seq<Condition>) {
    && TsRange(q.bgTs, q.edTs) == TstampRange(conds)
    && (StoreOf(q.fields, TSTAMP_INDEX).Some? ==> StoreOf(q.fields, TSTAMP_INDEX).value == TSTAMP_INDEX)
  }

  ghost predicate InEra(rows: seq<Row>) {
    forall i :: 0 <= i < |rows| ==> Within(RowTs(rows[i]), ERA)
  }

  /** No row with a time outside of the era passes. */
  ghost predicate Findable(conds: seq<Condition>, q: QueryParam, rows: seq<Row>) {
    forall i :: 0 <= i < |rows| && Meets(conds, Project(q.fields, q.fieldCnt, rows[i])) ==> Within(RowTs(rows[i]), ERA)
  }

  /** A range taken from the conditions is one the search can handle, and all passing rows lie in
      it exactly when they lie in the era. */
  lemma RangeTaken(q: QueryParam, conds: seq<Condition>, rows: seq<Row>)
    requires Spans(q, conds)
    ensures SearchSound(q.bgTs, q.edTs) && (Bounded(conds, q, rows) <==> Findable(conds, q, rows))
  {
    hide TstampRange, StoreOf, CompareRange, RowTs, Meets, Project;
    RangeStart(conds);
    forall i | 0 <= i < |rows| && Meets(conds, Project(q.fields, q.fieldCnt, rows[i]))
      ensures InRange(q.bgTs, q.edTs, rows[i]) <==> Within(RowTs(rows[i]), ERA)
    {
      RangeIs(conds, RowTs(rows[i]));
      if Within(RowTs(rows[i]), ERA) { PassingInRange(q, conds, rows[i]); }
    }
  }

  lemma PassingInRange(q: QueryParam, conds: seq<Condition>, row: Row)
    requires Spans(q, conds) && Meets(conds, Project(q.fields, q.fieldCnt, row)) && Within(RowTs(row), ERA)
    ensures InRange(q.bgTs, q.edTs, row)
  {
    hide TstampRange, StoreOf, CompareRange, RowTs;
    RangeIs(conds, RowTs(row));
    forall c | 0 <= c < |conds| && conds[c].TstampCompare? ensures Within(RowTs(row), CompareRange(conds[c].op, conds[c].val)) {
      PassesInRange(q, conds[c], row);
    }
  }

  /** A partition whose times lie behind the era, as all of 31 December 2999 do, is lost: whatever
      the conditions, no block is selected. */
  lemma DayLost(q: QueryParam, conds: seq<Condition>, run: seq<Block>, lo: nat, hi: nat)
    requires Spans(q, conds) && q.edTs >= 0 && (forall b :: 0 <= b < |run| ==> FirstTs(run[b]) > MAX_MICROSECOND)
    requires Selection(Starts(run), Unsigned(q.bgTs), Unsigned(q.edTs), lo, hi)
    ensures run[lo..hi] == []
  {
    hide Unsigned, TstampRange;
    RangeEnd(conds);
    UnsignedIs(q.edTs);
    UnsignedIs(FirstTs(run[lo]));
    assert Starts(run)[lo] == Unsigned(FirstTs(run[lo]));
  }

  lemma PassesInRange(q: QueryParam, cond: Condition, row: Row)
    requires StoreOf(q.fields, TSTAMP_INDEX).Some? ==> StoreOf(q.fields, TSTAMP_INDEX).value == TSTAMP_INDEX
    requires cond.TstampCompare? && IsTrue(Value(cond, Project(q.fields, q.fieldCnt, row))) && Within(RowTs(row), ERA)
    ensures Within(RowTs(row), CompareRange(cond.op, cond.val))
  {
    hide StoreOf;
    var p := Project(q.fields, q.fieldCnt, row);
    assert p[TSTAMP_INDEX] == Cell(q.fields, row, TSTAMP_INDEX);
  }

  /** Behind the first selected block no block is selected in vain: its first row is in range. */
  lemma OnlyFirstInVain(run: seq<Block>, bgTs: Int64, edTs: Int64, lo: nat, hi: nat, i: nat)
    requires NonEmpty(run) && TimeOrdered(RowsOf(run)) && edTs >= 0
    requires Selection(Starts(run), Unsigned(bgTs), Unsigned(edTs), lo, hi) && lo < i < hi
    ensures InRange(bgTs, edTs, run[i].rows[0])
  {
    hide RowTs, RowsOf, Unsigned, TimeOrdered;
    StartsAt(run, i);
    StartsAt(run, lo);
    StartsAt(run, lo + 1);
    StartOrder(run, lo, lo + 1);
    if i > lo + 1 { StartOrder(run, lo + 1, i); }
    UnsignedIs(bgTs);
    UnsignedIs(edTs);
    UnsignedIs(FirstTs(run[lo]));
    UnsignedIs(FirstTs(run[lo + 1]));
    UnsignedIs(FirstTs(run[i]));
    assert Starts(run)[lo] == Unsigned(FirstTs(run[lo])) && Starts(run)[lo + 1] == Unsigned(FirstTs(run[lo + 1]));
    assert Starts(run)[i] == Unsigned(FirstTs(run[i]));
  }

  lemma UnsignedIs(x: Int64)
    ensures if x >= 0 then Unsigned(x) == x else Unsigned(x) >= P63
  {
  }

  lemma StartOrder(run: seq<Block>, b: nat, c: nat)
    requires NonEmpty(run) && b < c < |run| && TimeOrdered(RowsOf(run))
    ensures FirstTs(run[b]) < FirstTs(run[c])
  {
    hide RowTs, RowsOf;
    StartsAt(run, c);
    var before := RowsOf(run[..c]);
    RowsOfAppend(run[..b], run[b..c]);
    assert run[..c] == run[..b] + run[b..c];
    RowsOfAppend([run[b]], run[b + 1..c]);
    assert run[b..c] == [run[b]] + run[b + 1..c];
    OneBlock(run[b]);
    assert before[|RowsOf(run[..b])|] == run[b].rows[0];
  }

  /** No row before or behind the selected blocks is in range. */
  lemma OutsideMisses(run: seq<Block>, bgTs: Int64, edTs: Int64, lo: nat, hi: nat)
    requires NonEmpty(run) && TimeOrdered(RowsOf(run)) && SearchSound(bgTs, edTs)
    requires Selection(Starts(run), Unsigned(bgTs), Unsigned(edTs), lo, hi)
    ensures Misses(bgTs, edTs, RowsOf(run[..lo])) && Misses(bgTs, edTs, RowsOf(run[hi..]))
  {
    hide RowTs, RowsOf, Unsigned, TimeOrdered;
    UnsignedIs(bgTs);
    UnsignedIs(edTs);
    StartsAt(run, lo);
    NotNegative(RowsOf(run), RowsOf(run[..lo]), RowsOf(run[lo..]));
    UnsignedIs(FirstTs(run[lo]));
    assert Starts(run)[lo] == Unsigned(FirstTs(run[lo]));
    if lo == 0 { NoBlocks(run[..lo]); }
    if hi < |run| {
      StartsAt(run, hi);
      UnsignedIs(FirstTs(run[hi]));
      assert Starts(run)[hi] == Unsigned(FirstTs(run[hi]));
    } else {
      NoBlocks(run[hi..]);
    }
  }

  lemma NotNegative(all: seq<Row>, a: seq<Row>, b: seq<Row>)
    requires TimeOrdered(all) && all == a + b
    ensures forall i :: 0 <= i < |a| ==> RowTs(a[i]) >= 0
  {
    hide RowTs;
    forall i | 0 <= i < |a| ensures RowTs(a[i]) >= 0 { assert a[i] == all[i]; }
  }

  ghost predicate Misses(bgTs: Int64, edTs: Int64, rows: seq<Row>) {
    forall i :: 0 <= i < |rows| ==> !InRange(bgTs, edTs, rows[i])
  }

  lemma MissesNone(conds: seq<Condition>, q: QueryParam, rows: seq<Row>)
    requires Misses(q.bgTs, q.edTs, rows) && Bounded(conds, q, rows)
    ensures Filter(conds, ProjectAll(q.fields, q.fieldCnt, rows)) == []
  {
    hide Meets, Project, InRange, Filter, ProjectAll;
    NoneMatch(conds, q.fields, q.fieldCnt, rows);
  }

  /** Filtering the selected blocks is filtering everything. */
  lemma PruningTransparent(conds: seq<Condition>, q: QueryParam, run: seq<Block>, lo: nat, hi: nat)
    requires NonEmpty(run) && TimeOrdered(RowsOf(run)) && Bounded(conds, q, RowsOf(run))
    requires SearchSound(q.bgTs, q.edTs)
    requires Selection(Starts(run), Unsigned(q.bgTs), Unsigned(q.edTs), lo, hi)
    ensures Filter(conds, ProjectAll(q.fields, q.fieldCnt, RowsOf(run[lo..hi])))
         == Filter(conds, ProjectAll(q.fields, q.fieldCnt, RowsOf(run)))
  {
    hide RowTs, RowsOf, Filter, ProjectAll, Misses, Bounded, TimeOrdered;
    var a, m, c := RowsOf(run[..lo]), RowsOf(run[lo..hi]), RowsOf(run[hi..]);
    RowsOfAppend(run[..lo], run[lo..hi]);
    RowsOfAppend(run[..hi], run[hi..]);
    assert run[..hi] == run[..lo] + run[lo..hi] && run == run[..hi] + run[hi..];
    BoundedParts(conds, q, a, m, c);
    OutsideMisses(run, q.bgTs, q.edTs, lo, hi);
    MissesNone(conds, q, a);
    MissesNone(conds, q, c);
    MiddleMatches(conds, q, a, m, c);
  }

  lemma MiddleMatches(conds: seq<Condition>, q: QueryParam, a: seq<Row>, m: seq<Row>, c: seq<Row>)
    requires Filter(conds, ProjectAll(q.fields, q.fieldCnt, a)) == Filter(conds, ProjectAll(q.fields, q.fieldCnt, c)) == []
    ensures Filter(conds, ProjectAll(q.fields, q.fieldCnt, a + m + c)) == Filter(conds, ProjectAll(q.fields, q.fieldCnt, m))
  {
    hide Filter, ProjectAll;
    ProjectAppend(q.fields, q.fieldCnt, a + m, c);
    ProjectAppend(q.fields, q.fieldCnt, a, m);
    FilterAppend(conds, ProjectAll(q.fields, q.fieldCnt, a + m), ProjectAll(q.fields, q.fieldCnt, c));
    FilterAppend(conds, ProjectAll(q.fields, q.fieldCnt, a), ProjectAll(q.fields, q.fieldCnt, m));
  }

  lemma BoundedParts(conds: seq<Condition>, q: QueryParam, a: seq<Row>, m: seq<Row>, c: seq<Row>)
    requires Bounded(conds, q, a + m + c)
    ensures Bounded(conds, q, a) && Bounded(conds, q, m) && Bounded(conds, q, c)
  {
    hide Meets, Project, InRange;
    var all := a + m + c;
    assert forall i :: 0 <= i < |a| ==> a[i] == all[i];
    assert forall i :: 0 <= i < |m| ==> m[i] == all[|a| + i];
    assert forall i :: 0 <= i < |c| ==> c[i] == all[|a| + |m| + i];
  }

  /** Outside of SearchSound the search loses rows: with a negative lower bound it starts at the
      last block, whatever the upper bound. A range taken from conditions never starts below 0
      (RangeStart), so no query gets there. */
  lemma PruningLoses(bgTs: Int64, edTs: Int64, lo: nat, hi: nat)
    requires !SearchSound(bgTs, edTs)
    requires Selection(Starts([OneRow(0), OneRow(1)]), Unsigned(bgTs), Unsigned(edTs), lo, hi)
    ensures NonEmpty([OneRow(0), OneRow(1)]) && TimeOrdered(RowsOf([OneRow(0), OneRow(1)]))
    ensures InRange(bgTs, edTs, OneRow(0).rows[0]) && lo == 1
  {
    hide RowsOf, Unsigned, TimeOrdered;
    TwoBlocks();
    var run := [OneRow(0), OneRow(1)];
    assert FirstTs(run[0]) == 0 && FirstTs(run[1]) == 1;
    UnsignedIs(0);
    UnsignedIs(1);
    UnsignedIs(bgTs);
    assert Starts(run)[0] == 0 && Starts(run)[1] == 1;
  }

  lemma TwoBlocks()
    ensures TimeOrdered(RowsOf([OneRow(0), OneRow(1)]))
  {
    hide RowsOf;
    OneBlock(OneRow(0));
    RowsOfSnoc([OneRow(0)], OneRow(1));
    assert [OneRow(0), OneRow(1)] == [OneRow(0)] + [OneRow(1)];
  }

  /** A block with one row of device 1 at the given time. */
  function OneRow(ts: Int64): Block {
    Block(1, [[Int64(1), DateTime(ts), Int8(0)]])
  }

  // ---------------------------------------------------------------- descending order

  lemma {:induction false} FilterReverse(conds: seq<Condition>, rows: seq<Row>)
    ensures Filter(conds, Reverse(rows)) == Reverse(Filter(conds, rows))
  {
    hide Meets;
    if rows != [] {
      var init, last := rows[..|rows| - 1], rows[|rows| - 1];
      FilterReverse(conds, init);
      FilterAppend(conds, [last], Reverse(init));
      assert [last][..0] == [];
      if Meets(conds, last) { ReverseAppend(Filter(conds, init), [last]); }
      assert Reverse([last]) == [last];
    }
  }

  lemma FilterOriented(conds: seq<Condition>, isAsc: bool, a: seq<Row>, b: seq<Row>)
    requires Filter(conds, a) == Filter(conds, b)
    ensures Filter(conds, Oriented(isAsc, a)) == Filter(conds, Oriented(isAsc, b))
  {
    hide Filter, Reverse;
    FilterReverse(conds, a);
    FilterReverse(conds, b);
  }

  lemma OrientedAppend<T>(isAsc: bool, a: seq<T>, b: seq<T>)
    ensures Oriented(isAsc, a + b) == if isAsc then Oriented(isAsc, a) + Oriented(isAsc, b) else Oriented(isAsc, b) + Oriented(isAsc, a)
  {
    hide Reverse;
    ReverseAppend(a, b);
  }

  /** What the visited blocks offer to the query, in the order of the visit. */
  function Offered(isAsc: bool, q: QueryParam, visit: seq<Block>): seq<Row> {
    if visit == [] then []
    else Offered(isAsc, q, visit[..|visit| - 1]) + Oriented(isAsc, ProjectAll(q.fields, q.fieldCnt, visit[|visit| - 1].rows))
  }

  lemma {:induction false} OfferedAppend(isAsc: bool, q: QueryParam, a: seq<Block>, b: seq<Block>)
    ensures Offered(isAsc, q, a + b) == Offered(isAsc, q, a) + Offered(isAsc, q, b)
  {
    hide Oriented, ProjectAll;
    if b == [] {
      assert a + b == a;
    } else {
      OfferedAppend(isAsc, q, a, b[..|b| - 1]);
      assert (a + b)[..|a + b| - 1] == a + b[..|b| - 1];
    }
  }

  /** Reverse blocks, each read backwards, are the whole read backwards. */
  lemma {:induction false} OfferedIs(isAsc: bool, q: QueryParam, run: seq<Block>)
    ensures Offered(isAsc, q, Oriented(isAsc, run)) == Oriented(isAsc, ProjectAll(q.fields, q.fieldCnt, RowsOf(run)))
  {
    hide ProjectAll, RowsOf, Offered, Oriented;
    if run == [] {
      NothingStored(isAsc, q, run);
    } else {
      var init, last := run[..|run| - 1], run[|run| - 1];
      OfferedIs(isAsc, q, init);
      OfferedLast(isAsc, q, init, last);
      assert run == init + [last];
    }
  }

  lemma NothingStored(isAsc: bool, q: QueryParam, run: seq<Block>)
    requires run == []
    ensures Offered(isAsc, q, Oriented(isAsc, run)) == Oriented(isAsc, ProjectAll(q.fields, q.fieldCnt, RowsOf(run)))
  {
  }

  lemma OfferedLast(isAsc: bool, q: QueryParam, init: seq<Block>, last: Block)
    requires Offered(isAsc, q, Oriented(isAsc, init)) == Oriented(isAsc, ProjectAll(q.fields, q.fieldCnt, RowsOf(init)))
    ensures Offered(isAsc, q, Oriented(isAsc, init + [last])) == Oriented(isAsc, ProjectAll(q.fields, q.fieldCnt, RowsOf(init + [last])))
  {
    hide ProjectAll, RowsOf, Offered, Oriented;
    RowsOfSnoc(init, last);
    ProjectAppend(q.fields, q.fieldCnt, RowsOf(init), last.rows);
    OrientedAppend(isAsc, ProjectAll(q.fields, q.fieldCnt, RowsOf(init)), ProjectAll(q.fields, q.fieldCnt, last.rows));
    OrientedAppend(isAsc, init, [last]);
    SingleVisit(isAsc, q, last);
    OfferedAppend(isAsc, q, Oriented(isAsc, init), [last]);
    OfferedAppend(isAsc, q, [last], Oriented(isAsc, init));
  }

  lemma SingleVisit(isAsc: bool, q: QueryParam, blk: Block)
    ensures Oriented(isAsc, [blk]) == [blk]
    ensures Offered(isAsc, q, [blk]) == Oriented(isAsc, ProjectAll(q.fields, q.fieldCnt, blk.rows))
  {
    hide ProjectAll;
    assert [blk][..0] == [];
    assert [] + Oriented(isAsc, ProjectAll(q.fields, q.fieldCnt, blk.rows)) == Oriented(isAsc, ProjectAll(q.fields, q.fieldCnt, blk.rows));
  }

  // ---------------------------------------------------------------- the traversal

  /** The blocks behind the selected positions. */
  lemma VisitIs(part: CompDataPart, isAsc: bool, devId: Int64, lo: nat, hi: nat, visit: seq<nat>, k: nat)
    requires part.Valid() && devId in part.tsIdxMap && lo <= hi <= |part.RunOf(devId)| && k < hi - lo
    requires visit == Oriented(isAsc, Range(part.tsIdxMap[devId].bgPos + lo, hi - lo))
    ensures k < |visit| && visit[k] < |part.part.blocks|
    ensures var run := Oriented(isAsc, part.RunOf(devId)[lo..hi]); k < |run| && part.part.blocks[visit[k]] == run[k]
  {
    hide CompDataPart.Valid, PartOK, RunMap;
    part.RunInside(devId);
  }

  lemma OfferStep(isAsc: bool, q: QueryParam, blocks: seq<Block>, k: nat)
    requires k < |blocks|
    ensures Offered(isAsc, q, blocks[..k + 1])
         == Offered(isAsc, q, blocks[..k]) + Oriented(isAsc, ProjectAll(q.fields, q.fieldCnt, blocks[k].rows))
  {
    hide ProjectAll, Oriented;
    assert blocks[..k + 1][..k] == blocks[..k];
  }

  lemma OfferSplit(isAsc: bool, q: QueryParam, blocks: seq<Block>, k: nat, before: seq<Row>)
    requires k <= |blocks|
    ensures before + Offered(isAsc, q, blocks[..k]) + Offered(isAsc, q, blocks[k..]) == before + Offered(isAsc, q, blocks)
  {
    hide Offered;
    OfferedAppend(isAsc, q, blocks[..k], blocks[k..]);
    assert blocks == blocks[..k] + blocks[k..];
  }

  /** QueryDevData for one device: visits the selected blocks, in order or in reverse order,
      until the result is full. The query ends up as if it had been offered all their rows, though
      after `read` blocks no other is read: before the last of them the result was not full. */
  method QueryDevData(part: CompDataPart, isAsc: bool, devId: Int64, q: QueryParam, query: QueryRaw)
    returns (ghost lo: nat, ghost hi: nat, ghost read: nat)
    requires part.Valid() && query.Valid() && ParamOK(part.part.schema, q)
    modifies query
    ensures query.Valid()
    ensures if devId in part.tsIdxMap
            then Selection(Starts(part.RunOf(devId)), Unsigned(q.bgTs), Unsigned(q.edTs), lo, hi)
                 && query.input == old(query.input) + Offered(isAsc, q, Oriented(isAsc, part.RunOf(devId)[lo..hi]))
            else query.input == old(query.input)
    ensures lo <= hi && read <= hi - lo
    ensures devId in part.tsIdxMap && read > 1 ==>
              NotFull(query, old(query.input) + Offered(isAsc, q, Oriented(isAsc, part.RunOf(devId)[lo..hi])[..read - 1]))
  {
    hide CompDataPart.Valid, PartOK, QueryRaw.Valid, BlockValues.Valid, BlockValues.CacheOK, BlockValues.Survivors,
         ParamOK, ProjectAll, Oriented, Offered, Starts, Range, RunMap, NotFull, Selection, Unsigned;
    var idxVec, first := part.GetDevIdxs(devId, q.bgTs, q.edTs);
    lo, hi, read := first, first, 0;
    if idxVec.None? {
      return;
    }
    hi := first + |idxVec.value|;
    var visit := Oriented(isAsc, idxVec.value);
    SelectionInside(Starts(part.RunOf(devId)), Unsigned(q.bgTs), Unsigned(q.edTs), lo, hi);
    ghost var blocks := Oriented(isAsc, part.RunOf(devId)[lo..hi]);
    ghost var before := query.input;
    var isAdd := false;
    OrientedSize(isAsc, idxVec.value);
    OrientedSize(isAsc, part.RunOf(devId)[lo..hi]);
    NothingOffered(isAsc, q, blocks);
    for k := 0 to |visit|
      invariant query.Valid() && query.input == before + Offered(isAsc, q, blocks[..k])
      invariant read == k && (k > 0 ==> NotFull(query, before + Offered(isAsc, q, blocks[..k])))
      invariant k > 1 ==> NotFull(query, before + Offered(isAsc, q, blocks[..k - 1]))
    {
      VisitIs(part, isAsc, devId, lo, hi, visit, k);
      var page := part.LoadPage(isAsc, visit[k], q);
      if page.None? {
        return;
      }
      OfferStep(isAsc, q, blocks, k);
      read := k + 1;
      var retVal;
      retVal, isAdd := query.AppendArray(page.value, isAdd);
      assert query.input == before + Offered(isAsc, q, blocks[..k + 1]);
      if retVal == RESULT_FULL || query.curRecord >= query.queryRecord {
        OfferSplit(isAsc, q, blocks, k + 1, before);
        query.OfferRest(Offered(isAsc, q, blocks[k + 1..]));
        return;
      }
      RoomLeft(query);
    }
    assert blocks[..|blocks|] == blocks;
  }

  /** After these rows the window still has room. */
  ghost predicate NotFull(query: QueryRaw, rows: seq<Row>) {
    |Window(query.offset, query.queryRecord, Filter(query.condiFilter, rows))| < query.queryRecord
  }

  lemma SelectionInside(starts: seq<UInt64>, bg: UInt64, ed: UInt64, lo: nat, hi: nat)
    requires Selection(starts, bg, ed, lo, hi)
    ensures lo <= hi <= |starts|
  {
  }

  lemma RoomLeft(query: QueryRaw)
    requires query.Valid() && query.curRecord < query.queryRecord
    ensures NotFull(query, query.input)
  {
  }

  lemma NothingOffered(isAsc: bool, q: QueryParam, blocks: seq<Block>)
    ensures Offered(isAsc, q, blocks[..0]) == []
  {
  }

  // ---------------------------------------------------------------- the rows of one device

  function DeviceRows(rows: seq<Row>, devId: Int64): seq<Row> {
    if rows == [] then []
    else
      var init := DeviceRows(rows[..|rows| - 1], devId);
      if RowDev(rows[|rows| - 1]) == devId then init + [rows[|rows| - 1]] else init
  }

  /** Which rows a query of the device returns: those of the device for which every condition
      gives TRUE. */
  function Picks(conds: seq<Condition>, q: QueryParam, devId: Int64, rows: seq<Row>): (r: seq<bool>)
    ensures |r| == |rows|
  {
    seq(|rows|, i requires 0 <= i < |rows| =>
      RowDev(rows[i]) == devId
      && forall c :: 0 <= c < |conds| ==> Value(conds[c], Project(q.fields, q.fieldCnt, rows[i])) == Bool(true))
  }

  lemma MeetsIs(conds: seq<Condition>, row: Row)
    ensures Meets(conds, row) <==> forall c :: 0 <= c < |conds| ==> Value(conds[c], row) == Bool(true)
  {
    hide Value;
  }

  lemma PicksSnoc(conds: seq<Condition>, q: QueryParam, devId: Int64, rows: seq<Row>, row: Row)
    ensures Picks(conds, q, devId, rows + [row])
         == Picks(conds, q, devId, rows) + [RowDev(row) == devId && Meets(conds, Project(q.fields, q.fieldCnt, row))]
  {
    hide Value, Project, RowDev, Meets;
    MeetsIs(conds, Project(q.fields, q.fieldCnt, row));
  }

  lemma DeviceRowsSnoc(rows: seq<Row>, row: Row, devId: Int64)
    ensures DeviceRows(rows + [row], devId) == if RowDev(row) == devId then DeviceRows(rows, devId) + [row] else DeviceRows(rows, devId)
  {
    hide RowDev;
    assert (rows + [row])[..|rows|] == rows;
  }

  lemma ProjectSnoc(fields: seq<FieldQueryMapping>, cnt: nat, rows: seq<Row>, row: Row)
    ensures ProjectAll(fields, cnt, rows + [row]) == ProjectAll(fields, cnt, rows) + [Project(fields, cnt, row)]
  {
    hide Project;
  }

  lemma FilterSnoc(conds: seq<Condition>, rows: seq<Row>, row: Row)
    ensures Filter(conds, rows + [row]) == if Meets(conds, row) then Filter(conds, rows) + [row] else Filter(conds, rows)
  {
    hide Meets;
    assert (rows + [row])[..|rows|] == rows;
  }

  lemma {:induction false} MatchesAre(conds: seq<Condition>, q: QueryParam, devId: Int64, rows: seq<Row>)
    ensures Filter(conds, ProjectAll(q.fields, q.fieldCnt, DeviceRows(rows, devId)))
         == ProjectAll(q.fields, q.fieldCnt, Kept(rows, Picks(conds, q, devId, rows)))
  {
    if rows == [] {
      NoDeviceRows(devId);
    } else {
      hide Project, RowDev, Meets, Filter, DeviceRows, ProjectAll, Picks, Kept;
      var init, row := rows[..|rows| - 1], rows[|rows| - 1];
      MatchesAre(conds, q, devId, init);
      assert rows == init + [row];
      DeviceRowsSnoc(init, row, devId);
      PicksSnoc(conds, q, devId, init, row);
      ProjectSnoc(q.fields, q.fieldCnt, DeviceRows(init, devId), row);
      FilterSnoc(conds, ProjectAll(q.fields, q.fieldCnt, DeviceRows(init, devId)), Project(q.fields, q.fieldCnt, row));
      KeptSnoc(init, Picks(conds, q, devId, init), row, RowDev(row) == devId && Meets(conds, Project(q.fields, q.fieldCnt, row)));
      ProjectSnoc(q.fields, q.fieldCnt, Kept(init, Picks(conds, q, devId, init)), row);
    }
  }

  /** What a query of a device returns: the rows of the device for which every condition is TRUE,
      as the query sees them, each once, and in the order of insertion or in reverse. */
  lemma SelectMeans(conds: seq<Condition>, q: QueryParam, isAsc: bool, devId: Int64, rows: seq<Row>) returns (idx: seq<nat>)
    ensures var matches := Filter(conds, Oriented(isAsc, ProjectAll(q.fields, q.fieldCnt, DeviceRows(rows, devId))));
            && |matches| == |idx|
            && (forall k :: 0 <= k < |idx| ==> idx[k] < |rows| && matches[k] == Project(q.fields, q.fieldCnt, rows[idx[k]]))
    ensures forall k, l :: 0 <= k < l < |idx| ==> if isAsc then idx[k] < idx[l] else idx[k] > idx[l]
    ensures forall i: nat :: i < |rows| ==>
              (i in idx <==> RowDev(rows[i]) == devId
                             && forall c :: 0 <= c < |conds| ==> Value(conds[c], Project(q.fields, q.fieldCnt, rows[i])) == Bool(true))
  {
    hide Value, Project, RowDev, Filter, DeviceRows, Indices, Kept, Picks, Oriented;
    var picks := Picks(conds, q, devId, rows);
    MatchesAre(conds, q, devId, rows);
    KeptAt(rows, picks);
    FilterTurned(conds, isAsc, ProjectAll(q.fields, q.fieldCnt, DeviceRows(rows, devId)));
    idx := TurnedIndices(isAsc, picks, ProjectAll(q.fields, q.fieldCnt, Kept(rows, picks)));
    forall i: nat | i < |rows|
      ensures picks[i] <==> RowDev(rows[i]) == devId
                            && forall c :: 0 <= c < |conds| ==> Value(conds[c], Project(q.fields, q.fieldCnt, rows[i])) == Bool(true)
    {
      PickedIs(conds, q, devId, rows, i);
    }
  }

  lemma PickedIs(conds: seq<Condition>, q: QueryParam, devId: Int64, rows: seq<Row>, i: nat)
    requires i < |rows|
    ensures Picks(conds, q, devId, rows)[i]
       <==> RowDev(rows[i]) == devId
            && forall c :: 0 <= c < |conds| ==> Value(conds[c], Project(q.fields, q.fieldCnt, rows[i])) == Bool(true)
  {
  }

  lemma FilterTurned(conds: seq<Condition>, isAsc: bool, rows: seq<Row>)
    ensures Filter(conds, Oriented(isAsc, rows)) == Oriented(isAsc, Filter(conds, rows))
  {
    FilterReverse(conds, rows);
  }

  /** The kept positions in either direction, and where they lead. */
  lemma TurnedIndices(isAsc: bool, keep: seq<bool>, kept: seq<Row>) returns (idx: seq<nat>)
    requires |kept| == |Indices(keep)|
    ensures |idx| == |Oriented(isAsc, kept)| == |kept|
    ensures forall k :: 0 <= k < |idx| ==> idx[k] < |keep|
    ensures forall k :: 0 <= k < |idx| ==>
              exists j :: 0 <= j < |kept| && Indices(keep)[j] == idx[k] && Oriented(isAsc, kept)[k] == kept[j]
    ensures forall k, l :: 0 <= k < l < |idx| ==> if isAsc then idx[k] < idx[l] else idx[k] > idx[l]
    ensures forall i: nat :: i < |keep| ==> (i in idx <==> keep[i])
  {
    hide Indices, Oriented;
    var up := Indices(keep);
    forall k, l | 0 <= k < l < |up| ensures up[k] < up[l] { IndicesOrder(keep, k, l); }
    idx := Oriented(isAsc, up);
    OrientedSize(isAsc, kept);
    OrientedSize(isAsc, up);
    forall k | 0 <= k < |idx|
      ensures var j := Slot(isAsc, |up|, k); idx[k] == up[j] && Oriented(isAsc, kept)[k] == kept[j]
    {
      OrientedAt(isAsc, up, k);
      OrientedAt(isAsc, kept, k);
    }
    forall i: nat | i < |keep| ensures i in idx <==> keep[i] {
      IndicesComplete(keep, i);
      if i in up {
        var j :| 0 <= j < |up| && up[j] == i;
        assert idx[Slot(isAsc, |up|, j)] == i;
      }
    }
  }

  lemma {:induction false} DeviceRowsAppend(a: seq<Row>, b: seq<Row>, devId: Int64)
    ensures DeviceRows(a + b, devId) == DeviceRows(a, devId) + DeviceRows(b, devId)
  {
    hide RowDev;
    if b == [] {
      assert a + b == a;
    } else {
      DeviceRowsAppend(a, b[..|b| - 1], devId);
      assert (a + b)[..|a + b| - 1] == a + b[..|b| - 1];
    }
  }

  lemma {:induction false} DeviceRowsOK(schema: seq<FieldType>, rows: seq<Row>, devId: Int64)
    requires AllRowsOK(schema, rows)
    ensures AllRowsOK(schema, DeviceRows(rows, devId))
  {
    hide RowOK, RowDev;
    if rows != [] { DeviceRowsOK(schema, rows[..|rows| - 1], devId); }
  }

  lemma {:induction false} DeviceRowsSame(rows: seq<Row>, owner: Int64, devId: Int64)
    requires forall i :: 0 <= i < |rows| ==> RowDev(rows[i]) == owner
    ensures DeviceRows(rows, devId) == if owner == devId then rows else []
  {
    if rows != [] { DeviceRowsSame(rows[..|rows| - 1], owner, devId); }
  }

  /** Every row of a block belongs to the device of the block. */
  ghost predicate Owned(blocks: seq<Block>) {
    forall b, i :: 0 <= b < |blocks| && 0 <= i < |blocks[b].rows| ==> RowDev(blocks[b].rows[i]) == blocks[b].devId
  }

  lemma {:induction false} DeviceBlocks(blocks: seq<Block>, devId: Int64, all: bool)
    requires Owned(blocks) && forall b :: 0 <= b < |blocks| ==> (blocks[b].devId == devId <==> all)
    ensures DeviceRows(RowsOf(blocks), devId) == if all then RowsOf(blocks) else []
  {
    hide DeviceRows, RowDev;
    if blocks == [] {
      NoDeviceRows(devId);
    } else {
      var init, last := blocks[..|blocks| - 1], blocks[|blocks| - 1];
      DeviceBlocks(init, devId, all);
      DeviceRowsAppend(RowsOf(init), last.rows, devId);
      DeviceRowsSame(last.rows, last.devId, devId);
    }
  }

  lemma NoDeviceRows(devId: Int64)
    ensures DeviceRows([], devId) == []
  {
  }

  /** The blocks of a device are those between two positions. */
  ghost predicate Between(blocks: seq<Block>, devId: Int64, bg: nat, ed: nat) {
    bg <= ed <= |blocks| && forall b :: 0 <= b < |blocks| ==> (blocks[b].devId == devId <==> bg <= b < ed)
  }

  lemma BetweenRows(blocks: seq<Block>, devId: Int64, bg: nat, ed: nat)
    requires Owned(blocks) && Between(blocks, devId, bg, ed)
    ensures DeviceRows(RowsOf(blocks), devId) == RowsOf(blocks[bg..ed])
  {
    hide RowsOf, DeviceRows, RowDev;
    DeviceBlocks(blocks[..bg], devId, false);
    DeviceBlocks(blocks[bg..ed], devId, true);
    DeviceBlocks(blocks[ed..], devId, false);
    RowsOfAppend(blocks[..bg], blocks[bg..ed]);
    RowsOfAppend(blocks[..ed], blocks[ed..]);
    assert blocks[..ed] == blocks[..bg] + blocks[bg..ed] && blocks == blocks[..ed] + blocks[ed..];
    DeviceRowsAppend(RowsOf(blocks[..bg]), RowsOf(blocks[bg..ed]), devId);
    DeviceRowsAppend(RowsOf(blocks[..ed]), RowsOf(blocks[ed..]), devId);
  }

  lemma RunIsBetween(blocks: seq<Block>, m: map<Int64, TsIdxItem>, devId: Int64)
    requires Grouped(DevsOf(blocks)) && RunMap(DevsOf(blocks), m) && devId in m
    requires forall b :: 0 <= b < |blocks| ==> DevsOf(blocks)[b] > 0
    ensures Between(blocks, devId, m[devId].bgPos, m[devId].bgPos + m[devId].idxCnt)
  {
    hide Grouped;
    var devs := DevsOf(blocks);
    RunMapComplete(devs, m);
    assert FirstRun(devs, devId, m[devId]);
    assert forall b :: 0 <= b < |blocks| ==> devs[b] == blocks[b].devId;
  }

  /** With grouped blocks the run the map leads to holds exactly the rows of the device, and a
      device without a run has no rows. */
  lemma RunHoldsDevice(blocks: seq<Block>, m: map<Int64, TsIdxItem>, devId: Int64)
    requires Owned(blocks) && Grouped(DevsOf(blocks)) && RunMap(DevsOf(blocks), m) && devId > 0
    requires forall b :: 0 <= b < |blocks| ==> DevsOf(blocks)[b] > 0
    ensures DeviceRows(RowsOf(blocks), devId)
         == if devId in m && m[devId].bgPos + m[devId].idxCnt <= |blocks|
            then RowsOf(blocks[m[devId].bgPos..m[devId].bgPos + m[devId].idxCnt]) else []
  {
    hide RowsOf, DeviceRows, RowDev, Grouped, FirstRun, Owned;
    if devId in m {
      RunIsBetween(blocks, m, devId);
      BetweenRows(blocks, devId, m[devId].bgPos, m[devId].bgPos + m[devId].idxCnt);
    } else {
      assert forall b :: 0 <= b < |blocks| ==> DevsOf(blocks)[b] == blocks[b].devId;
      DeviceBlocks(blocks, devId, false);
    }
  }

  lemma PartOwned(p: Part)
    requires PartOK(p)
    ensures Owned(p.blocks) && NonEmpty(p.blocks)
  {
    BlocksOwned(p);
  }

  lemma BlocksOwned(p: Part)
    requires PartFileOK(p.env, p.schema, p.file, p.blocks, p.ts, p.rows, p.tsPos)
    ensures Owned(p.blocks) && NonEmpty(p.blocks)
  {
    hide At, Env.Sound, RowOK, TsPlaced, CmpPlaced;
    forall b | 0 <= b < |p.blocks| ensures p.blocks[b].rows != [] { assert BlockOK(p.schema, p.blocks[b]); }
    forall b, i | 0 <= b < |p.blocks| && 0 <= i < |p.blocks[b].rows|
      ensures RowDev(p.blocks[b].rows[i]) == p.blocks[b].devId
    {
      assert BlockOK(p.schema, p.blocks[b]);
    }
  }

  /** A query for one device over the stored rows. Whatever the blocks, the matching rows are
      those of the device, in the order they were appended or in reverse, and no others. */
  method QueryDevice(part: CompDataPart, isAsc: bool, devId: Int64, q: QueryParam, query: QueryRaw)
    requires part.Valid() && query.Valid() && ParamOK(part.part.schema, q) && devId > 0
    requires Grouped(DevsOf(part.part.blocks)) && Spans(q, query.condiFilter)
    requires TimeOrdered(DeviceRows(RowsOf(part.part.blocks), devId))
    requires Findable(query.condiFilter, q, DeviceRows(RowsOf(part.part.blocks), devId))
    modifies query
    ensures query.Valid()
    ensures Filter(query.condiFilter, query.input)
         == Filter(query.condiFilter, old(query.input)
              + Oriented(isAsc, ProjectAll(q.fields, q.fieldCnt, DeviceRows(RowsOf(part.part.blocks), devId))))
  {
    hide CompDataPart.Valid, PartOK, QueryRaw.Valid, ParamOK, ProjectAll, Oriented, Offered, Starts, RunMap, Grouped,
         DeviceRows, RowsOf, TimeOrdered, Bounded, Selection, Filter, Spans, Findable;
    ghost var before, rows := query.input, DeviceRows(RowsOf(part.part.blocks), devId);
    RangeTaken(q, query.condiFilter, rows);
    RunOfDevice(part, devId);
    ghost var lo, hi, read := QueryDevData(part, isAsc, devId, q, query);
    if devId in part.tsIdxMap {
      ghost var run := part.RunOf(devId);
      SelectedIs(query.condiFilter, isAsc, q, run, lo, hi, before);
    } else {
      NoRowsOffered(isAsc, q, rows, before);
    }
  }

  lemma NoRowsOffered(isAsc: bool, q: QueryParam, rows: seq<Row>, before: seq<Row>)
    requires rows == []
    ensures before + Oriented(isAsc, ProjectAll(q.fields, q.fieldCnt, rows)) == before
  {
  }

  lemma SelectedIs(conds: seq<Condition>, isAsc: bool, q: QueryParam, run: seq<Block>, lo: nat, hi: nat, before: seq<Row>)
    requires NonEmpty(run) && TimeOrdered(RowsOf(run)) && Bounded(conds, q, RowsOf(run)) && SearchSound(q.bgTs, q.edTs)
    requires Selection(Starts(run), Unsigned(q.bgTs), Unsigned(q.edTs), lo, hi)
    ensures Filter(conds, before + Offered(isAsc, q, Oriented(isAsc, run[lo..hi])))
         == Filter(conds, before + Oriented(isAsc, ProjectAll(q.fields, q.fieldCnt, RowsOf(run))))
  {
    hide Filter, RowsOf, ProjectAll, Oriented, Offered, TimeOrdered, Bounded;
    OfferedIs(isAsc, q, run[lo..hi]);
    PruningTransparent(conds, q, run, lo, hi);
    FilterOriented(conds, isAsc, ProjectAll(q.fields, q.fieldCnt, RowsOf(run[lo..hi])), ProjectAll(q.fields, q.fieldCnt, RowsOf(run)));
    FilterAppend(conds, before, Offered(isAsc, q, Oriented(isAsc, run[lo..hi])));
    FilterAppend(conds, before, Oriented(isAsc, ProjectAll(q.fields, q.fieldCnt, RowsOf(run))));
  }

  lemma RunOfDevice(part: CompDataPart, devId: Int64)
    requires part.Valid() && Grouped(DevsOf(part.part.blocks)) && devId > 0
    ensures DeviceRows(RowsOf(part.part.blocks), devId) == if devId in part.tsIdxMap then RowsOf(part.RunOf(devId)) else []
    ensures devId in part.tsIdxMap ==> NonEmpty(part.RunOf(devId))
  {
    hide PartOK, RunMap, Grouped, DeviceRows, RowsOf, Owned;
    PartOwned(part.part);
    DevsPositive(part.part);
    RunHoldsDevice(part.part.blocks, part.tsIdxMap, devId);
    if devId in part.tsIdxMap { part.RunInside(devId); }
  }

  // ---------------------------------------------------------------- snapshot

  /** With all times in the range the selection reaches to the last block. */
  lemma WholeEra(run: seq<Block>, lo: nat, hi: nat)
    requires NonEmpty(run) && InEra(RowsOf(run))
    requires Selection(Starts(run), Unsigned(MIN_MICROSECOND), Unsigned(MAX_MICROSECOND), lo, hi)
    ensures lo < hi == |run| && run[hi - 1].rows != [] && RowsOf(run) != []
    ensures RowsOf(run)[|RowsOf(run)| - 1] == run[hi - 1].rows[|run[hi - 1].rows| - 1]
  {
    hide RowsOf, RowTs, Unsigned;
    UnsignedIs(MAX_MICROSECOND);
    if hi < |run| { StartInEra(run, hi); }
    var n := |run| - 1;
    RowsOfSnoc(run[..n], run[n]);
    assert run == run[..n] + [run[n]];
  }

  lemma StartInEra(run: seq<Block>, b: nat)
    requires NonEmpty(run) && InEra(RowsOf(run)) && b < |run|
    ensures Starts(run)[b] <= MAX_MICROSECOND
  {
    hide RowsOf, RowTs, Unsigned;
    UnsignedIs(FirstTs(run[b]));
    RowsOfAppend(run[..b], run[b..]);
    RowsOfAppend([run[b]], run[b + 1..]);
    assert run == run[..b] + run[b..] && run[b..] == [run[b]] + run[b + 1..];
    OneBlock(run[b]);
    assert RowsOf(run)[|RowsOf(run[..b])|] == run[b].rows[0];
  }

  /** QueryDevData for a snapshot, up to the call of the query: the newest row of the device, in
      whatever order its rows were stored the one that was appended last. */
  method SnapshotRow(part: CompDataPart, devId: Int64, q: QueryParam) returns (r: Option<Row>)
    requires part.Valid() && ParamOK(part.part.schema, q) && devId > 0 && Grouped(DevsOf(part.part.blocks))
    requires InEra(DeviceRows(RowsOf(part.part.blocks), devId))
    ensures var rows := DeviceRows(RowsOf(part.part.blocks), devId);
            r == if rows == [] then None else Some(Project(q.fields, q.fieldCnt, rows[|rows| - 1]))
  {
    hide CompDataPart.Valid, PartOK, BlockValues.Valid, BlockValues.CacheOK, BlockValues.Survivors, ParamOK, Project,
         Range, RunMap, Grouped, DeviceRows, RowsOf, Available, Starts, Selection, InEra, RowTs, Unsigned;
    RunOfDevice(part, devId);
    var idxVec, first := part.GetDevIdxs(devId, MIN_MICROSECOND, MAX_MICROSECOND);
    if idxVec.None? {
      return None;
    }
    ghost var run, lo, hi := part.RunOf(devId), first, first + |idxVec.value|;
    WholeEra(run, lo, hi);
    var visit := Oriented(false, idxVec.value);
    VisitIs(part, false, devId, lo, hi, visit, 0);
    var page := part.LoadPage(false, visit[0], q);
    CacheIsInside(page.value);
    r := page.value.GetRecordValue(0);
  }

  // ---------------------------------------------------------------- all rows of a device

  /** The rows of a page one by one. */
  method ReadPage(blk: BlockValues) returns (rows: seq<Row>)
    requires blk.Valid() && blk.CacheOK()
    modifies blk`resultIdxVec, blk`cached
    ensures rows == old(blk.Survivors())
  {
    hide Indices, Kept, All, RowsOfColumns, ColumnsOK, Implies;
    rows := [];
    ghost var all := blk.Survivors();
    while |rows| < blk.resultSize
      invariant blk.Valid() && blk.CacheOK() && blk.Survivors() == all && |rows| <= |all| && rows == all[..|rows|]
      decreases blk.resultSize - |rows|
    {
      CacheIsInside(blk);
      var row := blk.GetRecordValue(|rows|);
      rows := rows + [row.value];
    }
  }

  lemma CacheIsInside(blk: BlockValues)
    requires blk.Valid() && blk.CacheOK()
    ensures blk.CacheInside() && |blk.Survivors()| == blk.resultSize
  {
  }

  /** Every block of the run of a device, in order or in reverse order: the rows of the device as
      they were stored, without any condition on their order or their times. */
  method ReadDevice(part: CompDataPart, isAsc: bool, devId: Int64, q: QueryParam) returns (rows: seq<Row>)
    requires part.Valid() && ParamOK(part.part.schema, q) && devId > 0 && Grouped(DevsOf(part.part.blocks))
    ensures rows == Oriented(isAsc, ProjectAll(q.fields, q.fieldCnt, DeviceRows(RowsOf(part.part.blocks), devId)))
  {
    hide CompDataPart.Valid, PartOK, BlockValues.Valid, BlockValues.CacheOK, BlockValues.Survivors, ParamOK, ProjectAll,
         Oriented, Offered, Range, RunMap, Grouped, DeviceRows, RowsOf, Available;
    rows := [];
    RunOfDevice(part, devId);
    if devId !in part.tsIdxMap {
      NothingRead(isAsc, q);
      return;
    }
    part.RunInside(devId);
    var item := part.tsIdxMap[devId];
    var visit := Oriented(isAsc, Range(item.bgPos, item.idxCnt));
    ghost var run := part.RunOf(devId);
    ghost var blocks := Oriented(isAsc, run);
    assert run[0..item.idxCnt] == run;
    OrientedSize(isAsc, Range(item.bgPos, item.idxCnt));
    OrientedSize(isAsc, run);
    NothingOffered(isAsc, q, blocks);
    for k := 0 to |visit|
      invariant rows == Offered(isAsc, q, blocks[..k])
    {
      VisitIs(part, isAsc, devId, 0, item.idxCnt, visit, k);
      var page := part.LoadPage(isAsc, visit[k], q);
      var more := ReadPage(page.value);
      OfferStep(isAsc, q, blocks, k);
      rows := rows + more;
    }
    assert blocks[..|blocks|] == blocks;
    OfferedIs(isAsc, q, run);
  }

  lemma NothingRead(isAsc: bool, q: QueryParam)
    ensures Oriented(isAsc, ProjectAll(q.fields, q.fieldCnt, [])) == []
  {
  }

  /** A query for every stored column. */
  function AllFields(schema: seq<FieldType>): QueryParam
    requires |schema| > 0
  {
    QueryParam(MIN_MICROSECOND, MAX_MICROSECOND, |schema|, Mappings(schema, |schema|))
  }

  function Mappings(schema: seq<FieldType>, n: nat): (r: seq<FieldQueryMapping>)
    requires 0 < n <= |schema|
    ensures forall c :: TSTAMP_INDEX <= c < n ==> StoreOf(r, c) == Some(c)
    ensures forall m :: m in r ==>
              TSTAMP_INDEX <= m.storeFieldPos < n && m == FieldQueryMapping(schema[m.storeFieldPos], m.storeFieldPos, m.storeFieldPos)
  {
    if n == 1 then [] else Mappings(schema, n - 1) + [FieldQueryMapping(schema[n - 1], n - 1, n - 1)]
  }

  /** It shows stored rows as they are. */
  lemma AllFieldsShow(schema: seq<FieldType>, rows: seq<Row>)
    requires SchemaOK(schema) && AllRowsOK(schema, rows)
    ensures ParamOK(schema, AllFields(schema))
    ensures ProjectAll(AllFields(schema).fields, AllFields(schema).fieldCnt, rows) == rows
  {
    hide StoreOf;
    var q := AllFields(schema);
    forall i | 0 <= i < |rows| ensures Project(q.fields, q.fieldCnt, rows[i]) == rows[i] {
      assert ValueOK(rows[i][DEVID_INDEX], schema[DEVID_INDEX]);
    }
  }

  // ---------------------------------------------------------------- from rows to blocks

  /** Each device owns one contiguous stretch of rows. */
  ghost predicate RowsGrouped(rows: seq<Row>) {
    forall i, j, k :: 0 <= i < j < k < |rows| && RowDev(rows[i]) == RowDev(rows[k]) ==> RowDev(rows[j]) == RowDev(rows[i])
  }

  /** The row with which block b starts. */
  lemma BlockRow(blocks: seq<Block>, b: nat)
    requires NonEmpty(blocks) && b < |blocks|
    ensures |RowsOf(blocks[..b])| < |RowsOf(blocks[..b + 1])| <= |RowsOf(blocks)|
    ensures RowsOf(blocks)[|RowsOf(blocks[..b])|] == blocks[b].rows[0]
  {
    hide RowsOf;
    RowsOfSnoc(blocks[..b], blocks[b]);
    assert blocks[..b + 1] == blocks[..b] + [blocks[b]];
    RowsOfAppend(blocks[..b + 1], blocks[b + 1..]);
    assert blocks == blocks[..b + 1] + blocks[b + 1..];
  }

  lemma {:induction false} BlockOrder(blocks: seq<Block>, b: nat, c: nat)
    requires NonEmpty(blocks) && b < c < |blocks|
    ensures |RowsOf(blocks[..b])| < |RowsOf(blocks[..c])|
  {
    hide RowsOf;
    BlockRow(blocks, c - 1);
    if b < c - 1 { BlockOrder(blocks, b, c - 1); }
  }

  lemma GroupedBlocks(blocks: seq<Block>)
    requires Owned(blocks) && NonEmpty(blocks) && RowsGrouped(RowsOf(blocks))
    ensures Grouped(DevsOf(blocks))
  {
    hide RowsOf, RowDev;
    var rows, devs := RowsOf(blocks), DevsOf(blocks);
    forall i, j, k | 0 <= i < j < k < |devs| && devs[i] == devs[k] ensures devs[j] == devs[i] {
      BlockRow(blocks, i);
      BlockRow(blocks, j);
      BlockRow(blocks, k);
      BlockOrder(blocks, i, j);
      BlockOrder(blocks, j, k);
      var x, y, z := |RowsOf(blocks[..i])|, |RowsOf(blocks[..j])|, |RowsOf(blocks[..k])|;
      assert RowDev(rows[x]) == devs[i] && RowDev(rows[y]) == devs[j] && RowDev(rows[z]) == devs[k];
    }
  }

  lemma {:induction false} BlockCount(blocks: seq<Block>)
    requires NonEmpty(blocks)
    ensures |blocks| <= |RowsOf(blocks)|
  {
    if blocks != [] { BlockCount(blocks[..|blocks| - 1]); }
  }
}
