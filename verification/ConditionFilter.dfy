/** The conditions of a query, merged into a block one after the other, and the time range that
    is collected from them (query/condition_filter.cpp). */
module ConditionFilters {
  import opened Coding
  import opened DbValue
  import opened QueryBlocks

  // ---------------------------------------------------------------- conditions

  datatype Comparison = Lt | Le | Gt | Ge | Eq | Ne

  predicate Holds(op: Comparison, x: Int64, y: Int64) {
    match op
    case Lt => x < y
    case Le => x <= y
    case Gt => x > y
    case Ge => x >= y
    case Eq => x == y
    case Ne => x != y
  }

  /** A condition of the WHERE clause: a comparison of the timestamp column with a constant, from
      which a time range can be taken, or any other function of the row. */
  datatype Condition = TstampCompare(op: Comparison, val: Int64) | General(eval: Row -> DBVal)

  /** A row passes when the value is the boolean TRUE. */
  function Value(cond: Condition, row: Row): DBVal {
    match cond
    case TstampCompare(op, val) =>
      if |row| > TSTAMP_INDEX && row[TSTAMP_INDEX].DateTime? then Bool(Holds(op, row[TSTAMP_INDEX].ts, val)) else Bool(false)
    case General(eval) => eval(row)
  }

  /** The comparisons over all 64-bit integers, from the sign of the difference: each one is the
      negation of its opposite, and `<=` is `<` or `==`. */
  lemma ComparisonLaws(x: Int64, y: Int64)
    ensures (Holds(Ge, x, y) <==> x - y >= 0) && (Holds(Le, x, y) <==> y - x >= 0)
    ensures (Holds(Lt, x, y) <==> !Holds(Ge, x, y)) && (Holds(Gt, x, y) <==> !Holds(Le, x, y))
    ensures (Holds(Eq, x, y) <==> !Holds(Ne, x, y)) && (Holds(Eq, x, y) <==> Holds(Le, x, y) && Holds(Ge, x, y))
    ensures (Holds(Le, x, y) <==> Holds(Lt, x, y) || Holds(Eq, x, y)) && (Holds(Ge, x, y) <==> Holds(Gt, x, y) || Holds(Eq, x, y))
  {
  }

  predicate Meets(conds: seq<Condition>, row: Row) {
    forall c :: 0 <= c < |conds| ==> IsTrue(Value(conds[c], row))
  }

  function Filter(conds: seq<Condition>, rows: seq<Row>): seq<Row> {
    if rows == [] then []
    else
      var init := Filter(conds, rows[..|rows| - 1]);
      if Meets(conds, rows[|rows| - 1]) then init + [rows[|rows| - 1]] else init
  }

  /** One flag a row: every condition gives the boolean TRUE for it. */
  function Passing(conds: seq<Condition>, rows: seq<Row>): (r: seq<bool>)
    ensures |r| == |rows|
  {
    seq(|rows|, i requires 0 <= i < |rows| => forall c :: 0 <= c < |conds| ==> Value(conds[c], rows[i]) == Bool(true))
  }

  /** Filtering keeps exactly those rows, each once and in their order. */
  lemma {:induction false} FilterIs(conds: seq<Condition>, rows: seq<Row>)
    ensures Filter(conds, rows) == Kept(rows, Passing(conds, rows))
    ensures |Filter(conds, rows)| == |Indices(Passing(conds, rows))|
    ensures forall k :: 0 <= k < |Filter(conds, rows)| ==> Filter(conds, rows)[k] == rows[Indices(Passing(conds, rows))[k]]
  {
    hide Value;
    if rows != [] {
      var init := rows[..|rows| - 1];
      FilterIs(conds, init);
      assert Passing(conds, rows)[..|init|] == Passing(conds, init);
    }
    KeptAt(rows, Passing(conds, rows));
  }

  lemma {:induction false} FilterAppend(conds: seq<Condition>, a: seq<Row>, b: seq<Row>)
    ensures Filter(conds, a + b) == Filter(conds, a) + Filter(conds, b)
  {
    if b == [] {
      assert a + b == a;
    } else {
      FilterAppend(conds, a, b[..|b| - 1]);
      assert (a + b)[..|a + b| - 1] == a + b[..|b| - 1];
    }
  }

  function Evaluate(cond: Condition, rows: seq<Row>): (r: seq<DBVal>)
    ensures |r| == |rows|
  {
    seq(|rows|, i requires 0 <= i < |rows| => Value(cond, rows[i]))
  }

  lemma EvaluateSnoc(cond: Condition, passed: seq<Row>, row: Row)
    ensures Kept(passed + [row], Flags(Evaluate(cond, passed + [row])))
         == var before := Kept(passed, Flags(Evaluate(cond, passed)));
            if IsTrue(Value(cond, row)) then before + [row] else before
  {
    hide Kept, IsTrue;
    var flags := Flags(Evaluate(cond, passed));
    assert Flags(Evaluate(cond, passed + [row])) == flags + [IsTrue(Value(cond, row))];
    KeptSnoc(passed, flags, row, IsTrue(Value(cond, row)));
  }

  /** Keeping the rows whose value is TRUE is filtering by one condition more. */
  lemma {:induction false} FilterStep(conds: seq<Condition>, cond: Condition, rows: seq<Row>)
    ensures var passed := Filter(conds, rows);
            Kept(passed, Flags(Evaluate(cond, passed))) == Filter(conds + [cond], rows)
  {
    hide Kept, Flags, Evaluate, Meets, IsTrue;
    if rows == [] {
      NothingKept([]);
    } else {
      var init, row := rows[..|rows| - 1], rows[|rows| - 1];
      FilterStep(conds, cond, init);
      MeetsStep(conds, cond, row);
      EvaluateSnoc(cond, Filter(conds, init), row);
    }
  }

  lemma NothingKept(keep: seq<bool>)
    requires keep == []
    ensures Kept<Row>([], keep) == []
  {
  }

  lemma MeetsStep(conds: seq<Condition>, cond: Condition, row: Row)
    ensures Meets(conds + [cond], row) <==> Meets(conds, row) && IsTrue(Value(cond, row))
  {
    var all := conds + [cond];
    assert all[..|conds|] == conds && all[|conds|] == cond;
    if Meets(all, row) {
      forall c | 0 <= c < |conds| ensures IsTrue(Value(conds[c], row)) { assert all[c] == conds[c]; }
    }
  }

  lemma {:induction false} NoConditions(rows: seq<Row>)
    ensures Filter([], rows) == rows
  {
    if rows != [] { NoConditions(rows[..|rows| - 1]); }
  }

  lemma {:induction false} NoneLeft(conds: seq<Condition>, k: nat, rows: seq<Row>)
    requires k <= |conds| && Filter(conds[..k], rows) == []
    ensures Filter(conds, rows) == []
  {
    if rows != [] {
      NoneLeft(conds, k, rows[..|rows| - 1]);
      var row := rows[|rows| - 1];
      assert forall c :: 0 <= c < k ==> conds[..k][c] == conds[c];
    }
  }

  method RunCondition(conds: seq<Condition>, row: Row) returns (result: bool)
    ensures result <==> Meets(conds, row)
  {
    for c := 0 to |conds|
      invariant forall j :: 0 <= j < c ==> IsTrue(Value(conds[j], row))
    {
      var v := Value(conds[c], row);
      if !IsTrue(v) {
        return false;
      }
    }
    return true;
  }

  /** The value of a condition for every surviving row (ValueItem::GetValueArray). */
  method GetValueArray(cond: Condition, blk: BlockValues) returns (vals: seq<DBVal>)
    requires blk.Valid()
    ensures vals == Evaluate(cond, blk.Survivors())
  {
    vals := [];
    ghost var rows, keep := blk.Rows(), blk.Keep();
    for idx := 0 to blk.recordSize
      invariant vals == Evaluate(cond, Kept(rows[..idx], keep[..idx]))
    {
      assert rows[..idx + 1][..idx] == rows[..idx] && keep[..idx + 1][..idx] == keep[..idx];
      if blk.filterVec == [] || blk.filterVec[idx] {
        var row := ReadRow(blk.columnVec, blk.recordSize, idx);
        vals := vals + [Value(cond, row)];
      }
    }
    assert rows[..blk.recordSize] == rows && keep[..blk.recordSize] == keep;
  }

  /** Vectorised WHERE: the surviving rows are those a row-at-a-time filter lets through. */
  method RunConditionArray(conds: seq<Condition>, blk: BlockValues)
    requires blk.Valid() && blk.CacheOK()
    modifies blk`filterVec, blk`resultSize
    ensures blk.Valid() && blk.CacheOK()
    ensures blk.Survivors() == Filter(conds, old(blk.Survivors()))
  {
    hide Kept, Meets, Flags, Filter, Evaluate, BlockValues.Valid, BlockValues.CacheOK, BlockValues.Survivors;
    ghost var before := blk.Survivors();
    NoConditions(before);
    assert conds[..0] == [];
    for c := 0 to |conds|
      invariant blk.Valid() && blk.CacheOK()
      invariant blk.Survivors() == Filter(conds[..c], before)
    {
      var vals := GetValueArray(conds[c], blk);
      var ok := blk.MergeFilter(vals);
      FilterStep(conds[..c], conds[c], before);
      assert conds[..c + 1] == conds[..c] + [conds[c]];
      if blk.resultSize == 0 {
        NoneLeft(conds, c + 1, before);
        return;
      }
    }
    assert conds[..|conds|] == conds;
  }

  // ---------------------------------------------------------------- the time range

  datatype TsRange = TsRange(min: Int64, max: Int64)

  predicate Within(ts: Int64, r: TsRange) { r.min <= ts <= r.max }

  /** All times there are. */
  const ERA := TsRange(MIN_MICROSECOND, MAX_MICROSECOND)

  /** FieldCompareFunction::GetTstampRange. */
  function CompareRange(op: Comparison, val: Int64): TsRange {
    match op
    case Lt | Le => TsRange(0, val)
    case Gt | Ge => TsRange(val, P63 - 1)
    case Eq => TsRange(val, val)
    case Ne => TsRange(0, P63 - 1)
  }

  /** What a comparison of the timestamp means: the time lies in the range of the comparison,
      which for the strict ones has one time too many. A row without a time never passes. */
  lemma ComparisonMeans(op: Comparison, val: Int64, row: Row)
    ensures |row| > TSTAMP_INDEX && row[TSTAMP_INDEX].DateTime? && row[TSTAMP_INDEX].ts >= 0 ==>
              (IsTrue(Value(TstampCompare(op, val), row))
               <==> CompareRange(op, val).min <= row[TSTAMP_INDEX].ts <= CompareRange(op, val).max
                    && (op in {Lt, Gt, Ne} ==> row[TSTAMP_INDEX].ts != val))
    ensures |row| <= TSTAMP_INDEX || !row[TSTAMP_INDEX].DateTime? ==> !IsTrue(Value(TstampCompare(op, val), row))
  {
  }

  /** The times in the range of a comparison: its bound included, and 0 as the lower end where the
      comparison has none. */
  lemma CompareRangeIs(op: Comparison, val: Int64, ts: Int64)
    ensures Within(ts, CompareRange(op, val))
       <==> (op in {Lt, Le, Ne} ==> ts >= 0) && (op in {Lt, Le, Eq} ==> ts - val <= 0) && (op in {Gt, Ge, Eq} ==> ts - val >= 0)
  {
  }

  function Narrowed(r: TsRange, cond: Condition): TsRange {
    match cond
    case TstampCompare(op, val) =>
      var tmp := CompareRange(op, val);
      TsRange(if r.min <= tmp.min then tmp.min else r.min, if r.max >= tmp.max then tmp.max else r.max)
    case General(_) => r
  }

  /** The range that the filter hands to the partitions. */
  function TstampRange(conds: seq<Condition>): TsRange {
    if conds == [] then ERA else Narrowed(TstampRange(conds[..|conds| - 1]), conds[|conds| - 1])
  }

  /** Without conditions it reaches from 1970 to the end of 30 December 2999. */
  lemma FullRange()
    ensures TstampRange([]) == TsRange(0, 32_503_593_599_999_999)
  {
  }

  /** It is the intersection of the ranges of all comparisons with the times there are. */
  lemma {:induction false} RangeIs(conds: seq<Condition>, ts: Int64)
    ensures Within(ts, TstampRange(conds))
       <==> Within(ts, ERA) && forall c :: 0 <= c < |conds| && conds[c].TstampCompare? ==>
                                 Within(ts, CompareRange(conds[c].op, conds[c].val))
  {
    if conds != [] {
      var init := conds[..|conds| - 1];
      RangeIs(init, ts);
      assert forall c :: 0 <= c < |init| ==> init[c] == conds[c];
    }
  }

  /** It never starts below 0. */
  lemma {:induction false} RangeStart(conds: seq<Condition>)
    ensures TstampRange(conds).min >= 0
  {
    if conds != [] { RangeStart(conds[..|conds| - 1]); }
  }

  lemma {:induction false} RangeEnd(conds: seq<Condition>)
    ensures TstampRange(conds).max <= MAX_MICROSECOND
  {
    if conds != [] { RangeEnd(conds[..|conds| - 1]); }
  }

  /** A row that meets all conditions lies in the range. */
  lemma RangeBounds(conds: seq<Condition>, row: Row)
    requires Meets(conds, row) && Within(RowTs(row), ERA)
    ensures Within(RowTs(row), TstampRange(conds))
  {
    RangeIs(conds, RowTs(row));
    forall c | 0 <= c < |conds| && conds[c].TstampCompare?
      ensures Within(RowTs(row), CompareRange(conds[c].op, conds[c].val))
    {
      assert IsTrue(Value(conds[c], row));
    }
  }

  // ---------------------------------------------------------------- the filter

  /** The WHERE clause: AND over conditions. */
  datatype WhereExpr = And(left: WhereExpr, right: WhereExpr) | Leaf(cond: Condition)

  function Conjuncts(expr: WhereExpr): seq<Condition> {
    match expr
    case And(left, right) => Conjuncts(left) + Conjuncts(right)
    case Leaf(cond) => [cond]
  }

  /** What the clause means. */
  predicate Passes(expr: WhereExpr, row: Row) {
    match expr
    case And(left, right) => Passes(left, row) && Passes(right, row)
    case Leaf(cond) => IsTrue(Value(cond, row))
  }

  /** AND is TRUE exactly when both of its sides are. */
  lemma BothTrue(a: WhereExpr, b: WhereExpr, cond: Condition, row: Row)
    ensures Passes(And(a, b), row) <==> Passes(a, row) && Passes(b, row)
    ensures Passes(And(Leaf(cond), b), row) <==> Value(cond, row) == Bool(true) && Passes(b, row)
    ensures Conjuncts(And(And(Leaf(cond), a), b)) == [cond] + Conjuncts(a) + Conjuncts(b)
  {
    hide IsTrue, Value;
    TrueIs(Value(cond, row));
    var ab := And(Leaf(cond), a);
    assert Conjuncts(ab) == [cond] + Conjuncts(a);
  }

  lemma TrueIs(v: DBVal)
    ensures IsTrue(v) <==> v == Bool(true)
  {
  }

  lemma {:induction false} ConjunctsMean(expr: WhereExpr, row: Row)
    ensures Meets(Conjuncts(expr), row) <==> Passes(expr, row)
  {
    match expr
    case And(left, right) =>
      ConjunctsMean(left, row);
      ConjunctsMean(right, row);
      MeetsBoth(Conjuncts(left), Conjuncts(right), row);
    case Leaf(cond) =>
      MeetsStep([], cond, row);
      assert [] + [cond] == [cond];
  }

  lemma MeetsBoth(a: seq<Condition>, b: seq<Condition>, row: Row)
    ensures Meets(a + b, row) <==> Meets(a, row) && Meets(b, row)
  {
    hide IsTrue, Value;
    if Meets(a + b, row) {
      forall c | 0 <= c < |a| ensures IsTrue(Value(a[c], row)) { assert (a + b)[c] == a[c]; }
      forall c | 0 <= c < |b| ensures IsTrue(Value(b[c], row)) { assert (a + b)[|a| + c] == b[c]; }
    }
  }

  class ConditionFilter {
    var conditionVec: seq<Condition>
    var minTstamp: Int64
    var maxTstamp: Int64

    ghost predicate Valid()
      reads this
    {
      TsRange(minTstamp, maxTstamp) == TstampRange(conditionVec)
    }

    constructor ()
      ensures Valid() && conditionVec == []
    {
      conditionVec, minTstamp, maxTstamp := [], MIN_MICROSECOND, MAX_MICROSECOND;
    }

    /** The conditions of the clause from left to right; each comparison of the timestamp column
        narrows the range. */
    method BuildCondition(expr: WhereExpr)
      requires Valid()
      modifies this
      ensures Valid() && conditionVec == old(conditionVec) + Conjuncts(expr)
      decreases expr
    {
      match expr
      case And(left, right) =>
        BuildCondition(left);
        BuildCondition(right);
      case Leaf(cond) =>
        assert (conditionVec + [cond])[..|conditionVec|] == conditionVec;
        conditionVec := conditionVec + [cond];
        if cond.TstampCompare? {
          var tmp := CompareRange(cond.op, cond.val);
          if minTstamp <= tmp.min {
            minTstamp := tmp.min;
          }
          if maxTstamp >= tmp.max {
            maxTstamp := tmp.max;
          }
        }
    }

    /** No row that the filter lets through lies outside of the range, and the range does not
        start below 0. */
    method GetTstampRange() returns (r: TsRange)
      requires Valid()
      ensures r == TstampRange(conditionVec) && r.min >= 0
      ensures forall row: Row :: Meets(conditionVec, row) && Within(RowTs(row), ERA) ==> Within(RowTs(row), r)
    {
      RangeStart(conditionVec);
      forall row: Row | Meets(conditionVec, row) && Within(RowTs(row), ERA)
        ensures Within(RowTs(row), TstampRange(conditionVec))
      {
        RangeBounds(conditionVec, row);
      }
      return TsRange(minTstamp, maxTstamp);
    }
  }
}
