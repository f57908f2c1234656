/** Aggregate functions (query/group_function.h). Each has a row form and an array form over a
    filtered block; both are proved against one step function, folded over rows. */
module GroupFunctions {
  import opened Coding
  import opened DbValue
  import opened QueryBlocks

  datatype Outcome<S> = Outcome(state: S, ok: bool)

  type Step<!S> = (S, Row) -> Outcome<S>

  /** Row after row, up to the first that is refused. */
  function Fold<S>(step: Step<S>, s: S, rows: seq<Row>): Outcome<S> {
    if rows == [] then Outcome(s, true)
    else
      var before := Fold(step, s, rows[..|rows| - 1]);
      if before.ok then step(before.state, rows[|rows| - 1]) else before
  }

  lemma {:induction false} FoldAppend<S>(step: Step<S>, s: S, a: seq<Row>, b: seq<Row>)
    ensures Fold(step, s, a + b) == var before := Fold(step, s, a);
                                    if before.ok then Fold(step, before.state, b) else before
  {
    if b == [] {
      assert a + b == a;
    } else {
      FoldAppend(step, s, a, b[..|b| - 1]);
      assert (a + b)[..|a + b| - 1] == a + b[..|b| - 1];
    }
  }

  lemma FoldSnoc<S>(step: Step<S>, s: S, rows: seq<Row>, row: Row)
    ensures Fold(step, s, rows + [row]) == var before := Fold(step, s, rows);
                                           if before.ok then step(before.state, row) else before
  {
    assert (rows + [row])[..|rows|] == rows;
  }

  lemma FoldOne<S>(step: Step<S>, s: S, row: Row)
    ensures Fold(step, s, [row]) == step(s, row)
  {
    assert [row][..0] == [];
  }

  function Val(row: Row, pos: nat): DBVal {
    if pos < |row| then row[pos] else Null
  }

  /** The sum of a weight over rows. */
  function Weigh(rows: seq<Row>, w: Row -> int): int {
    if rows == [] then 0 else Weigh(rows[..|rows| - 1], w) + w(rows[|rows| - 1])
  }

  lemma WeighSnoc(rows: seq<Row>, row: Row, w: Row -> int)
    ensures Weigh(rows + [row], w) == Weigh(rows, w) + w(row)
  {
    assert (rows + [row])[..|rows|] == rows;
  }

  lemma {:induction false} WeighAppend(a: seq<Row>, b: seq<Row>, w: Row -> int)
    ensures Weigh(a + b, w) == Weigh(a, w) + Weigh(b, w)
  {
    if b == [] {
      assert a + b == a;
    } else {
      WeighAppend(a, b[..|b| - 1], w);
      assert (a + b)[..|a + b| - 1] == a + b[..|b| - 1];
    }
  }

  function OneIfSet(pos: nat): Row -> int {
    row => if Val(row, pos).Null? then 0 else 1
  }

  function IntAt(pos: nat): Row -> int {
    row => IntOf(Val(row, pos))
  }

  // ---------------------------------------------------------------- the rows of a group

  /** Rows that survive and carry the label; without labels every survivor belongs. */
  function InGroup(keep: seq<bool>, ids: seq<nat>, id: nat): (r: seq<bool>)
    requires ids == [] || |ids| == |keep|
    ensures |r| == |keep|
  {
    seq(|keep|, i requires 0 <= i < |keep| => keep[i] && (ids == [] || ids[i] == id))
  }

  ghost function Members(blk: BlockValues, id: nat, ids: seq<nat>): seq<Row>
    requires blk.Valid() && (ids == [] || |ids| == blk.recordSize)
    reads blk
  {
    Kept(blk.Rows(), InGroup(blk.Keep(), ids, id))
  }

  lemma MembersUnlabelled(blk: BlockValues, id: nat)
    requires blk.Valid()
    ensures Members(blk, id, []) == blk.Survivors()
  {
    assert InGroup(blk.Keep(), [], id) == blk.Keep();
  }

  /** How far an array form has come: state `now` after the members among the first n rows. */
  ghost predicate Reached<S>(step: Step<S>, s: S, rows: seq<Row>, sel: seq<bool>, n: nat, now: Outcome<S>) {
    |sel| == |rows| && n <= |rows| && Fold(step, s, Kept(rows[..n], sel[..n])) == now
  }

  lemma ReachStart<S>(step: Step<S>, s: S, rows: seq<Row>, sel: seq<bool>)
    requires |sel| == |rows|
    ensures Reached(step, s, rows, sel, 0, Outcome(s, true))
  {
  }

  lemma ReachNext<S>(step: Step<S>, s: S, rows: seq<Row>, sel: seq<bool>, n: nat, now: S)
    requires Reached(step, s, rows, sel, n, Outcome(now, true)) && n < |rows|
    ensures Reached(step, s, rows, sel, n + 1, if sel[n] then step(now, rows[n]) else Outcome(now, true))
  {
    hide Fold, Kept;
    assert rows[..n + 1] == rows[..n] + [rows[n]] && sel[..n + 1] == sel[..n] + [sel[n]];
    KeptSnoc(rows[..n], sel[..n], rows[n], sel[n]);
    FoldSnoc(step, s, Kept(rows[..n], sel[..n]), rows[n]);
  }

  lemma {:induction false} ReachFailed<S>(step: Step<S>, s: S, rows: seq<Row>, sel: seq<bool>, n: nat, now: Outcome<S>)
    requires Reached(step, s, rows, sel, n, now) && !now.ok
    ensures Fold(step, s, Kept(rows, sel)) == now
    decreases |rows| - n
  {
    if n < |rows| {
      hide Fold, Kept;
      assert rows[..n + 1] == rows[..n] + [rows[n]] && sel[..n + 1] == sel[..n] + [sel[n]];
      KeptSnoc(rows[..n], sel[..n], rows[n], sel[n]);
      FoldSnoc(step, s, Kept(rows[..n], sel[..n]), rows[n]);
      ReachFailed(step, s, rows, sel, n + 1, now);
    } else {
      assert rows[..n] == rows && sel[..n] == sel;
    }
  }

  lemma ReachEnd<S>(step: Step<S>, s: S, rows: seq<Row>, sel: seq<bool>, now: Outcome<S>)
    requires Reached(step, s, rows, sel, |rows|, now)
    ensures Fold(step, s, Kept(rows, sel)) == now
  {
    assert rows[..|rows|] == rows && sel[..|rows|] == sel;
  }

  /** The loop's test of row idx. */
  method Selected(blk: BlockValues, id: nat, ids: seq<nat>, idx: nat) returns (b: bool)
    requires blk.Valid() && (ids == [] || |ids| == blk.recordSize) && idx < blk.recordSize
    ensures b == InGroup(blk.Keep(), ids, id)[idx]
  {
    if blk.filterVec != [] && !blk.filterVec[idx] {
      return false;
    }
    if ids != [] && ids[idx] != id {
      return false;
    }
    return true;
  }

  lemma CellOf(blk: BlockValues, pos: nat, idx: nat)
    requires blk.Valid() && pos < |blk.columnVec| && blk.columnVec[pos].Some? && idx < blk.recordSize
    ensures idx < |blk.columnVec[pos].value| && Val(blk.Rows()[idx], pos) == blk.columnVec[pos].value[idx]
  {
  }

  // ---------------------------------------------------------------- COUNT

  function CountStep(pos: nat): Step<Int64> {
    (n, row) => Outcome(if Val(row, pos).Null? then n else Wrap64(n + 1), true)
  }

  function CountOf(rows: seq<Row>, pos: nat): int {
    Weigh(rows, OneIfSet(pos))
  }

  /** COUNT counts the non-null values. */
  lemma {:induction false} CountMeaning(pos: nat, n: Int64, rows: seq<Row>)
    ensures Fold(CountStep(pos), n, rows) == Outcome(Wrap64(n + CountOf(rows, pos)), true)
  {
    if rows != [] {
      var init := rows[..|rows| - 1];
      CountMeaning(pos, n, init);
      WrapSum(1, n + CountOf(init, pos));
    }
  }

  /** The shortcut of the array form, which adds the number of surviving rows, counts right
      exactly when none of them is null. */
  lemma {:induction false} CountShortcut(pos: nat, rows: seq<Row>)
    ensures 0 <= CountOf(rows, pos) <= |rows|
    ensures CountOf(rows, pos) == |rows| <==> forall i :: 0 <= i < |rows| ==> !Val(rows[i], pos).Null?
  {
    if rows != [] {
      var init := rows[..|rows| - 1];
      CountShortcut(pos, init);
      assert forall i :: 0 <= i < |init| ==> init[i] == rows[i];
    }
  }

  class CountFunc {
    const fieldPos: nat
    var dataCnt: Int64
    /** The rows counted so far. */
    ghost var taken: seq<Row>

    /** The counter is that of the rows taken. */
    ghost predicate Valid()
      reads this
    {
      dataCnt == Wrap64(CountOf(taken, fieldPos))
    }

    constructor (pos: nat)
      ensures fieldPos == pos && dataCnt == 0 && Valid() && taken == []
    {
      fieldPos, dataCnt, taken := pos, 0, [];
    }

    method AppendSingle(row: Row) returns (ok: bool)
      requires fieldPos < |row|
      modifies this
      ensures Outcome(dataCnt, ok) == CountStep(fieldPos)(old(dataCnt), row)
      ensures taken == old(taken) + [row] && (old(Valid()) ==> Valid())
    {
      hide Weigh, Wrap64;
      assert Val(row, fieldPos) == row[fieldPos];
      if !row[fieldPos].Null? {
        dataCnt := Wrap64(dataCnt + 1);
      }
      WeighSnoc(taken, row, OneIfSet(fieldPos));
      WrapSum(1, CountOf(taken, fieldPos));
      taken := taken + [row];
      return true;
    }

    /** A column that cannot be null is counted without looking at it, which goes wrong exactly
        if it has nulls. */
    method AppendArray(blk: BlockValues, id: nat, ids: seq<nat>) returns (ok: bool)
      requires blk.Valid()
      requires ids != [] || fieldPos > TSTAMP_INDEX ==> fieldPos < |blk.columnVec| && blk.columnVec[fieldPos].Some?
      modifies this
      ensures ok == (ids == [] || |ids| == blk.recordSize)
      ensures taken == if ok then old(taken) + Members(blk, id, ids) else old(taken)
      ensures old(Valid()) && (ids != [] || fieldPos > TSTAMP_INDEX || CountOf(blk.Survivors(), fieldPos) == |blk.Survivors()|) ==> Valid()
      ensures !ok ==> dataCnt == old(dataCnt)
      ensures ok && ids == [] && fieldPos <= TSTAMP_INDEX ==> dataCnt == Wrap64(old(dataCnt) + |blk.Survivors()|)
      ensures ok && (ids != [] || fieldPos > TSTAMP_INDEX) ==>
                Outcome(dataCnt, ok) == Fold(CountStep(fieldPos), old(dataCnt), Members(blk, id, ids))
    {
      hide Fold, Kept, InGroup, BlockValues.Valid, BlockValues.Survivors, Reached, Weigh, Wrap64;
      if ids != [] && |ids| != blk.recordSize {
        return false;
      }
      ghost var earlier, added := taken, Members(blk, id, ids);
      WeighAppend(taken, added, OneIfSet(fieldPos));
      taken := taken + added;
      if ids == [] && fieldPos <= TSTAMP_INDEX {
        MembersUnlabelled(blk, id);
        WrapSum(|added|, CountOf(earlier, fieldPos));
        dataCnt := Wrap64(dataCnt + blk.resultSize);
        return true;
      }
      ghost var step, rows, sel := CountStep(fieldPos), blk.Rows(), InGroup(blk.Keep(), ids, id);
      ghost var start := dataCnt;
      ReachStart(step, start, rows, sel);
      for idx := 0 to blk.recordSize
        invariant Reached(step, start, rows, sel, idx, Outcome(dataCnt, true)) && taken == earlier + added
      {
        ReachNext(step, start, rows, sel, idx, dataCnt);
        var picked := Selected(blk, id, ids, idx);
        if !picked {
          continue;
        }
        CellOf(blk, fieldPos, idx);
        if blk.columnVec[fieldPos].value[idx].Null? {
          continue;
        }
        dataCnt := Wrap64(dataCnt + 1);
      }
      ReachEnd(step, start, rows, sel, Outcome(dataCnt, true));
      CountMeaning(fieldPos, start, added);
      WrapSum(CountOf(added, fieldPos), CountOf(earlier, fieldPos));
      return true;
    }

    /** Whatever rows and blocks came: the number of non-null values among all of them. */
    method GetResult() returns (v: DBVal)
      requires Valid()
      ensures v == Int64(Wrap64(CountOf(taken, fieldPos)))
    {
      return Int64(dataCnt);
    }
  }

  /** Which is their number: as many as there are positions of non-null values. */
  lemma {:induction false} CountIs(rows: seq<Row>, pos: nat)
    ensures var given := seq(|rows|, i requires 0 <= i < |rows| => !Val(rows[i], pos).Null?);
            CountOf(rows, pos) == |Indices(given)|
  {
    if rows != [] {
      var init := rows[..|rows| - 1];
      CountIs(init, pos);
      var flags := seq(|rows|, i requires 0 <= i < |rows| => !Val(rows[i], pos).Null?);
      assert flags[..|init|] == seq(|init|, i requires 0 <= i < |init| => !Val(init[i], pos).Null?);
    }
  }

  // ---------------------------------------------------------------- SUM

  datatype SumState = SumState(haveVal: bool, sumVal: Int64)

  /** The integer types; T is int64_t for all of them. */
  predicate IsNumber(t: FieldType) { t in {TInt8, TInt16, TInt32, TInt64} }

  function SumStep(t: FieldType, pos: nat): Step<SumState> {
    (s: SumState, row: Row) =>
      if Val(row, pos).Null? then Outcome(s, true)
      else if !HasType(Val(row, pos), t) then Outcome(s, false)
      else Outcome(SumState(true, Wrap64(s.sumVal + IntOf(Val(row, pos)))), true)
  }

  function SumOf(rows: seq<Row>, pos: nat): int {
    Weigh(rows, IntAt(pos))
  }

  ghost predicate Typed(rows: seq<Row>, pos: nat, t: FieldType) {
    forall i :: 0 <= i < |rows| ==> Val(rows[i], pos).Null? || HasType(Val(rows[i], pos), t)
  }

  /** SUM is the sum of the non-null values modulo 2^64, or NULL when there are none; it fails
      exactly on a value of another type. */
  lemma {:induction false} SumMeaning(t: FieldType, pos: nat, rows: seq<Row>)
    requires IsNumber(t)
    ensures var r := Fold(SumStep(t, pos), SumState(false, 0), rows);
            && (r.ok <==> Typed(rows, pos, t))
            && (r.ok ==> r.state == SumState(CountOf(rows, pos) > 0, Wrap64(SumOf(rows, pos))) && CountOf(rows, pos) >= 0)
  {
    hide Wrap64, HasType, Signed;
    if rows == [] {
      WrapIs(0);
    } else {
      var init, row := rows[..|rows| - 1], rows[|rows| - 1];
      SumMeaning(t, pos, init);
      assert forall i :: 0 <= i < |init| ==> init[i] == rows[i];
      WrapSum(IntOf(Val(row, pos)), SumOf(init, pos));
      WrapIs(0);
    }
  }

  class SumFunc {
    const valType: FieldType
    const fieldPos: nat
    var haveVal: bool
    var sumVal: Int64

    /** The rows taken so far. */
    ghost var taken: seq<Row>

    function State(): SumState
      reads this
    {
      SumState(haveVal, sumVal)
    }

    /** The state is that of the rows taken. */
    ghost predicate Valid()
      reads this
    {
      Fold(SumStep(valType, fieldPos), SumState(false, 0), taken) == Outcome(State(), true)
    }

    constructor (t: FieldType, pos: nat)
      requires IsNumber(t)
      ensures valType == t && fieldPos == pos && State() == SumState(false, 0) && Valid() && taken == []
    {
      valType, fieldPos, haveVal, sumVal, taken := t, pos, false, 0, [];
    }

    method AppendSingle(row: Row) returns (ok: bool)
      requires fieldPos < |row| && IsNumber(valType)
      modifies this
      ensures Outcome(State(), ok) == SumStep(valType, fieldPos)(old(State()), row)
      ensures taken == (if ok then old(taken) + [row] else old(taken)) && (old(Valid()) ==> Valid())
    {
      hide Fold;
      assert Val(row, fieldPos) == row[fieldPos];
      FoldSnoc(SumStep(valType, fieldPos), SumState(false, 0), taken, row);
      if row[fieldPos].Null? {
        taken := taken + [row];
        return true;
      }
      if !HasType(row[fieldPos], valType) {
        return false;
      }
      taken := taken + [row];
      haveVal := true;
      sumVal := Wrap64(sumVal + IntOf(row[fieldPos]));
      return true;
    }

    method AppendArray(blk: BlockValues, id: nat, ids: seq<nat>) returns (ok: bool)
      requires blk.Valid() && fieldPos < |blk.columnVec| && blk.columnVec[fieldPos].Some? && IsNumber(valType)
      modifies this
      ensures if ids == [] || |ids| == blk.recordSize
              then Outcome(State(), ok) == Fold(SumStep(valType, fieldPos), old(State()), Members(blk, id, ids))
              else !ok && State() == old(State())
      ensures ok ==> taken == old(taken) + Members(blk, id, ids) && (old(Valid()) ==> Valid())
    {
      hide Fold, Kept, InGroup, BlockValues.Valid, Reached;
      if ids != [] && |ids| != blk.recordSize {
        return false;
      }
      ghost var step, rows, sel := SumStep(valType, fieldPos), blk.Rows(), InGroup(blk.Keep(), ids, id);
      ghost var start := State();
      ReachStart(step, start, rows, sel);
      for idx := 0 to blk.recordSize
        invariant Reached(step, start, rows, sel, idx, Outcome(State(), true)) && taken == old(taken)
      {
        ReachNext(step, start, rows, sel, idx, State());
        var picked := Selected(blk, id, ids, idx);
        if !picked {
          continue;
        }
        CellOf(blk, fieldPos, idx);
        var v := blk.columnVec[fieldPos].value[idx];
        if v.Null? {
          continue;
        }
        if !HasType(v, valType) {
          ReachFailed(step, start, rows, sel, idx + 1, Outcome(State(), false));
          return false;
        }
        haveVal := true;
        sumVal := Wrap64(sumVal + IntOf(v));
      }
      ReachEnd(step, start, rows, sel, Outcome(State(), true));
      FoldAppend(step, SumState(false, 0), taken, Members(blk, id, ids));
      taken := taken + Members(blk, id, ids);
      return true;
    }

    /** Whatever rows and blocks came: the sum over all of them modulo 2^64, or NULL when there
        was no value. */
    method GetResult() returns (v: DBVal)
      requires Valid() && IsNumber(valType)
      ensures v == if CountOf(taken, fieldPos) > 0 then Int64(Wrap64(SumOf(taken, fieldPos))) else Null
    {
      SumMeaning(valType, fieldPos, taken);
      if !haveVal {
        return Null;
      }
      return Int64(sumVal);
    }
  }

  // ---------------------------------------------------------------- AVG

  datatype AvgState = AvgState(totalVal: Int64, dataCnt: Int64)

  function AvgStep(t: FieldType, pos: nat): Step<AvgState> {
    (s: AvgState, row: Row) =>
      if Val(row, pos).Null? then Outcome(s, true)
      else if !HasType(Val(row, pos), t) then Outcome(s, false)
      else Outcome(AvgState(Wrap64(s.totalVal + IntOf(Val(row, pos))), Wrap64(s.dataCnt + 1)), true)
  }

  /** AVG keeps the sum and the number of the non-null values. */
  lemma {:induction false} AvgMeaning(t: FieldType, pos: nat, rows: seq<Row>)
    requires IsNumber(t)
    ensures var r := Fold(AvgStep(t, pos), AvgState(0, 0), rows);
            && (r.ok <==> Typed(rows, pos, t))
            && (r.ok ==> r.state == AvgState(Wrap64(SumOf(rows, pos)), Wrap64(CountOf(rows, pos))))
  {
    hide Wrap64, HasType, Signed;
    if rows == [] {
      WrapIs(0);
    } else {
      var init, row := rows[..|rows| - 1], rows[|rows| - 1];
      AvgMeaning(t, pos, init);
      assert forall i :: 0 <= i < |init| ==> init[i] == rows[i];
      WrapSum(IntOf(Val(row, pos)), SumOf(init, pos));
      WrapSum(1, CountOf(init, pos));
      WrapIs(0);
    }
  }

  /** Integer division as C++ defines it. */
  function TruncDiv(a: int, b: int): int
    requires b > 0
  {
    if a >= 0 then a / b else -((-a) / b)
  }

  lemma TruncDivIs(a: int, b: int)
    requires b > 0
    ensures var q := TruncDiv(a, b);
            if a >= 0 then q * b <= a < (q + 1) * b else (q - 1) * b < a <= q * b
  {
  }

  /** The average of n values with this sum, cast to the type of the column. */
  function Mean(t: FieldType, sum: Int64, n: int): DBVal {
    if 0 < n < P63 && -P63 <= TruncDiv(sum, n) < P63 then MakeInt(t, TruncDiv(sum, n)) else Null
  }

  class AvgFunc {
    const valType: FieldType
    const fieldPos: nat
    var totalVal: Int64
    var dataCnt: Int64

    /** The rows taken so far. */
    ghost var taken: seq<Row>

    function State(): AvgState
      reads this
    {
      AvgState(totalVal, dataCnt)
    }

    /** The state is that of the rows taken. */
    ghost predicate Valid()
      reads this
    {
      Fold(AvgStep(valType, fieldPos), AvgState(0, 0), taken) == Outcome(State(), true)
    }

    constructor (t: FieldType, pos: nat)
      requires IsNumber(t)
      ensures valType == t && fieldPos == pos && State() == AvgState(0, 0) && Valid() && taken == []
    {
      valType, fieldPos, totalVal, dataCnt, taken := t, pos, 0, 0, [];
    }

    method AppendSingle(row: Row) returns (ok: bool)
      requires fieldPos < |row| && IsNumber(valType)
      modifies this
      ensures Outcome(State(), ok) == AvgStep(valType, fieldPos)(old(State()), row)
      ensures taken == (if ok then old(taken) + [row] else old(taken)) && (old(Valid()) ==> Valid())
    {
      hide Fold;
      assert Val(row, fieldPos) == row[fieldPos];
      FoldSnoc(AvgStep(valType, fieldPos), AvgState(0, 0), taken, row);
      if row[fieldPos].Null? {
        taken := taken + [row];
        return true;
      }
      if !HasType(row[fieldPos], valType) {
        return false;
      }
      taken := taken + [row];
      totalVal := Wrap64(totalVal + IntOf(row[fieldPos]));
      dataCnt := Wrap64(dataCnt + 1);
      return true;
    }

    method AppendArray(blk: BlockValues, id: nat, ids: seq<nat>) returns (ok: bool)
      requires blk.Valid() && fieldPos < |blk.columnVec| && blk.columnVec[fieldPos].Some? && IsNumber(valType)
      modifies this
      ensures if ids == [] || |ids| == blk.recordSize
              then Outcome(State(), ok) == Fold(AvgStep(valType, fieldPos), old(State()), Members(blk, id, ids))
              else !ok && State() == old(State())
      ensures ok ==> taken == old(taken) + Members(blk, id, ids) && (old(Valid()) ==> Valid())
    {
      hide Fold, Kept, InGroup, BlockValues.Valid, Reached;
      if ids != [] && |ids| != blk.recordSize {
        return false;
      }
      ghost var step, rows, sel := AvgStep(valType, fieldPos), blk.Rows(), InGroup(blk.Keep(), ids, id);
      ghost var start := State();
      ReachStart(step, start, rows, sel);
      for idx := 0 to blk.recordSize
        invariant Reached(step, start, rows, sel, idx, Outcome(State(), true)) && taken == old(taken)
      {
        ReachNext(step, start, rows, sel, idx, State());
        var picked := Selected(blk, id, ids, idx);
        if !picked {
          continue;
        }
        CellOf(blk, fieldPos, idx);
        var v := blk.columnVec[fieldPos].value[idx];
        if v.Null? {
          continue;
        }
        if !HasType(v, valType) {
          ReachFailed(step, start, rows, sel, idx + 1, Outcome(State(), false));
          return false;
        }
        totalVal := Wrap64(totalVal + IntOf(v));
        dataCnt := Wrap64(dataCnt + 1);
      }
      ReachEnd(step, start, rows, sel, Outcome(State(), true));
      FoldAppend(step, AvgState(0, 0), taken, Members(blk, id, ids));
      taken := taken + Members(blk, id, ids);
      return true;
    }

    /** For the types narrower than 64 bits the value is set, and yet the call reports an
        invalid parameter: the test for INT64 starts a new chain of branches. */
    method GetResult() returns (v: DBVal, ok: bool)
      requires IsNumber(valType)
      ensures Valid() && CountOf(taken, fieldPos) < P63 ==>
                v == Mean(valType, Wrap64(SumOf(taken, fieldPos)), CountOf(taken, fieldPos))
      ensures dataCnt <= 0 ==> v == Null && ok
      ensures dataCnt > 0 ==> v == MakeInt(valType, TruncDiv(totalVal, dataCnt)) && (ok <==> valType == TInt64)
    {
      hide Fold, Weigh, TruncDiv;
      AvgMeaning(valType, fieldPos, taken);
      CountShortcut(fieldPos, taken);
      if CountOf(taken, fieldPos) < P63 { WrapIs(CountOf(taken, fieldPos)); }
      if dataCnt > 0 {
        QuotientFits(totalVal, dataCnt);
        match valType {
          case TInt8 | TInt16 | TInt32 => v := MakeInt(valType, TruncDiv(totalVal, dataCnt));
          case _ => v := Null;
        }
        if valType == TInt64 {
          v := Int64(TruncDiv(totalVal, dataCnt));
        } else {
          return v, false;
        }
      } else {
        v := Null;
      }
      return v, true;
    }
  }

  /** The average of one INT32 is set and reported as an error all the same. */
  method AvgOfNarrow() returns (v: DBVal, ok: bool)
    ensures v == Int32(7) && !ok
  {
    hide Fold, Weigh;
    var f := new AvgFunc(TInt32, 0);
    var row: Row := [Int32(7)];
    assert Val(row, 0) == Int32(7);
    var added := f.AppendSingle(row);
    assert f.State() == AvgState(7, 1);
    assert TruncDiv(7, 1) == 7;
    v, ok := f.GetResult();
  }

  lemma QuotientFits(a: Int64, b: Int64)
    requires b > 0
    ensures -P63 <= TruncDiv(a, b) < P63
  {
    TruncDivIs(a, b);
  }

  // ---------------------------------------------------------------- groups and the total

  function Total(groups: seq<nat>, f: nat -> int): int {
    if groups == [] then 0 else Total(groups[..|groups| - 1], f) + f(groups[|groups| - 1])
  }

  ghost predicate Distinct(groups: seq<nat>) {
    forall i, j :: 0 <= i < j < |groups| ==> groups[i] != groups[j]
  }

  lemma {:induction false} TotalStep(groups: seq<nat>, f: nat -> int, g: nat -> int, d: nat, c: int)
    requires Distinct(groups)
    requires forall x: nat :: g(x) == f(x) + if x == d then c else 0
    ensures Total(groups, g) == Total(groups, f) + if d in groups then c else 0
  {
    if groups != [] {
      var init, last := groups[..|groups| - 1], groups[|groups| - 1];
      TotalStep(init, f, g, d, c);
      assert groups == init + [last];
    }
  }

  /** The weight of the surviving rows of one group. */
  function GroupWeight(rows: seq<Row>, keep: seq<bool>, ids: seq<nat>, w: Row -> int): nat -> int
    requires |keep| == |ids| == |rows|
  {
    (id: nat) => Weigh(Kept(rows, InGroup(keep, ids, id)), w)
  }

  lemma GroupWeightStep(rows: seq<Row>, keep: seq<bool>, ids: seq<nat>, w: Row -> int, row: Row, k: bool, d: nat, id: nat)
    requires |keep| == |ids| == |rows|
    ensures GroupWeight(rows + [row], keep + [k], ids + [d], w)(id)
         == GroupWeight(rows, keep, ids, w)(id) + if id == d && k then w(row) else 0
  {
    hide Kept, Weigh;
    assert InGroup(keep + [k], ids + [d], id) == InGroup(keep, ids, id) + [k && d == id];
    KeptSnoc(rows, InGroup(keep, ids, id), row, k && d == id);
    WeighSnoc(Kept(rows, InGroup(keep, ids, id)), row, w);
  }

  lemma {:induction false} GroupTotals(rows: seq<Row>, keep: seq<bool>, ids: seq<nat>, groups: seq<nat>, w: Row -> int)
    requires |keep| == |ids| == |rows| && Distinct(groups) && forall i :: 0 <= i < |ids| ==> ids[i] in groups
    ensures Total(groups, GroupWeight(rows, keep, ids, w)) == Weigh(Kept(rows, keep), w)
  {
    hide Kept, Weigh, Total, InGroup, GroupWeight;
    if rows == [] {
      NoGroupWeight(rows, keep, ids, groups, w);
    } else {
      var n := |rows| - 1;
      GroupTotals(rows[..n], keep[..n], ids[..n], groups, w);
      Last(rows);
      Last(keep);
      Last(ids);
      forall id: nat
        ensures GroupWeight(rows, keep, ids, w)(id)
             == GroupWeight(rows[..n], keep[..n], ids[..n], w)(id) + if id == ids[n] then (if keep[n] then w(rows[n]) else 0) else 0
      {
        GroupWeightStep(rows[..n], keep[..n], ids[..n], w, rows[n], keep[n], ids[n], id);
      }
      TotalStep(groups, GroupWeight(rows[..n], keep[..n], ids[..n], w), GroupWeight(rows, keep, ids, w), ids[n],
                if keep[n] then w(rows[n]) else 0);
      KeptSnoc(rows[..n], keep[..n], rows[n], keep[n]);
      if keep[n] { WeighSnoc(Kept(rows[..n], keep[..n]), rows[n], w); }
    }
  }

  lemma {:induction false} NoGroupWeight(rows: seq<Row>, keep: seq<bool>, ids: seq<nat>, groups: seq<nat>, w: Row -> int)
    requires rows == [] && |keep| == |ids| == |rows|
    ensures Total(groups, GroupWeight(rows, keep, ids, w)) == 0 == Weigh(Kept(rows, keep), w)
  {
    if groups != [] { NoGroupWeight(rows, keep, ids, groups[..|groups| - 1], w); }
  }

  /** The counts and the sums of all groups add up to those of the ungrouped rows. */
  lemma GroupsAddUp(rows: seq<Row>, keep: seq<bool>, ids: seq<nat>, groups: seq<nat>, pos: nat)
    requires |keep| == |ids| == |rows| && Distinct(groups) && forall i :: 0 <= i < |ids| ==> ids[i] in groups
    ensures Total(groups, GroupWeight(rows, keep, ids, OneIfSet(pos))) == CountOf(Kept(rows, keep), pos)
    ensures Total(groups, GroupWeight(rows, keep, ids, IntAt(pos))) == SumOf(Kept(rows, keep), pos)
  {
    GroupTotals(rows, keep, ids, groups, OneIfSet(pos));
    GroupTotals(rows, keep, ids, groups, IntAt(pos));
  }

  // ---------------------------------------------------------------- FIRST and LAST

  datatype BestState = BestState(curTs: Int64, curVal: DBVal)

  function BestStart(isFirst: bool): BestState {
    BestState(if isFirst then MAX_MICROSECOND else MIN_MICROSECOND, Null)
  }

  /** The time ts beats the time of the value that is kept. */
  predicate Beats(isFirst: bool, ts: Int64, curTs: Int64) {
    if isFirst then ts < curTs else ts > curTs
  }

  function BestStep(isFirst: bool, t: FieldType, pos: nat): Step<BestState> {
    (s: BestState, row: Row) =>
      if !Val(row, TSTAMP_INDEX).DateTime? || !(Val(row, pos).Null? || HasType(Val(row, pos), t)) then Outcome(s, false)
      else Outcome(if Beats(isFirst, RowTs(row), s.curTs) then BestState(RowTs(row), Val(row, pos)) else s, true)
  }

  ghost predicate Timed(rows: seq<Row>) {
    forall i :: 0 <= i < |rows| ==> Val(rows[i], TSTAMP_INDEX).DateTime?
  }

  /** What FIRST (LAST) keeps: of the rows inside the sentinel the one with the smallest
      (largest) time, of several the one that arrived first; NULL when there is none. */
  ghost predicate IsBest(isFirst: bool, pos: nat, rows: seq<Row>, s: BestState) {
    || (s == BestState(if isFirst then MAX_MICROSECOND else MIN_MICROSECOND, Null) && NoneBeyond(isFirst, rows, s.curTs))
    || (exists i :: 0 <= i < |rows| && IsBestRow(isFirst, pos, rows, s, i))
  }

  /** No row is older (FIRST) or newer (LAST) than this time. */
  ghost predicate NoneBeyond(isFirst: bool, rows: seq<Row>, ts: Int64) {
    forall j :: 0 <= j < |rows| ==> if isFirst then RowTs(rows[j]) >= ts else RowTs(rows[j]) <= ts
  }

  ghost predicate IsBestRow(isFirst: bool, pos: nat, rows: seq<Row>, s: BestState, i: nat)
    requires i < |rows|
  {
    && s == BestState(RowTs(rows[i]), Val(rows[i], pos))
    && (if isFirst then s.curTs < MAX_MICROSECOND else s.curTs > MIN_MICROSECOND)
    && NoneBeyond(isFirst, rows, s.curTs)
    && (forall j :: 0 <= j < i ==> RowTs(rows[j]) != s.curTs)
  }

  /** FIRST (LAST) fails exactly on a row without a time or with a value of another type. */
  lemma {:induction false} BestAccepts(isFirst: bool, t: FieldType, pos: nat, rows: seq<Row>)
    ensures Fold(BestStep(isFirst, t, pos), BestStart(isFirst), rows).ok <==> Timed(rows) && Typed(rows, pos, t)
  {
    if rows != [] {
      hide IntOf, HasType, Val;
      var init := rows[..|rows| - 1];
      assert forall i :: 0 <= i < |init| ==> init[i] == rows[i];
      BestAccepts(isFirst, t, pos, init);
    }
  }

  lemma {:induction false} BestMeaning(isFirst: bool, t: FieldType, pos: nat, rows: seq<Row>)
    requires Timed(rows) && Typed(rows, pos, t)
    ensures var r := Fold(BestStep(isFirst, t, pos), BestStart(isFirst), rows);
            r.ok && IsBest(isFirst, pos, rows, r.state)
  {
    if rows != [] {
      hide IntOf, HasType, Val;
      var init, row := rows[..|rows| - 1], rows[|rows| - 1];
      assert forall i :: 0 <= i < |init| ==> init[i] == rows[i];
      BestMeaning(isFirst, t, pos, init);
      BestNext(isFirst, t, pos, init, row, Fold(BestStep(isFirst, t, pos), BestStart(isFirst), init).state);
      assert rows == init + [row];
    }
  }

  lemma BestNext(isFirst: bool, t: FieldType, pos: nat, init: seq<Row>, row: Row, s: BestState)
    requires IsBest(isFirst, pos, init, s)
    ensures IsBest(isFirst, pos, init + [row], if Beats(isFirst, RowTs(row), s.curTs) then BestState(RowTs(row), Val(row, pos)) else s)
  {
    hide Val, RowTs;
    var rows := init + [row];
    assert rows[|init|] == row && forall i :: 0 <= i < |init| ==> rows[i] == init[i];
    if Beats(isFirst, RowTs(row), s.curTs) {
      assert IsBestRow(isFirst, pos, rows, BestState(RowTs(row), Val(row, pos)), |init|);
    } else if i :| 0 <= i < |init| && IsBestRow(isFirst, pos, init, s, i) {
      assert IsBestRow(isFirst, pos, rows, s, i);
    }
  }

  /** Rows in the direction FIRST (LAST) is queried in: times strictly up (down). */
  ghost predicate InOrder(isFirst: bool, rows: seq<Row>) {
    forall i, j :: 0 <= i < j < |rows| ==>
      if isFirst then RowTs(rows[i]) < RowTs(rows[j]) else RowTs(rows[i]) > RowTs(rows[j])
  }

  lemma {:induction false} NoneBetter(isFirst: bool, t: FieldType, pos: nat, s: BestState, rows: seq<Row>)
    requires Timed(rows) && Typed(rows, pos, t) && forall j :: 0 <= j < |rows| ==> !Beats(isFirst, RowTs(rows[j]), s.curTs)
    ensures Fold(BestStep(isFirst, t, pos), s, rows) == Outcome(s, true)
  {
    hide IntOf, HasType, Val;
    if rows != [] {
      var init := rows[..|rows| - 1];
      assert forall i :: 0 <= i < |init| ==> init[i] == rows[i];
      NoneBetter(isFirst, t, pos, s, init);
    }
  }

  /** Early exit: after the first part with a row, later rows change nothing. */
  lemma EarlyExit(isFirst: bool, t: FieldType, pos: nat, a: seq<Row>, b: seq<Row>)
    requires a != [] && Timed(a + b) && Typed(a + b, pos, t) && InOrder(isFirst, a + b)
    ensures var step := BestStep(isFirst, t, pos);
            Fold(step, BestStart(isFirst), a + b) == Fold(step, BestStart(isFirst), a)
  {
    hide Fold, IntOf, HasType, Val;
    var all := a + b;
    assert forall i :: 0 <= i < |a| ==> all[i] == a[i];
    assert forall j :: 0 <= j < |b| ==> all[|a| + j] == b[j];
    BestMeaning(isFirst, t, pos, a);
    var s := Fold(BestStep(isFirst, t, pos), BestStart(isFirst), a).state;
    forall j | 0 <= j < |b| ensures !Beats(isFirst, RowTs(b[j]), s.curTs) {
      assert if isFirst then RowTs(all[0]) < RowTs(all[|a| + j]) else RowTs(all[0]) > RowTs(all[|a| + j]);
      assert !Beats(isFirst, RowTs(a[0]), s.curTs);
    }
    FoldAppend(BestStep(isFirst, t, pos), BestStart(isFirst), a, b);
    NoneBetter(isFirst, t, pos, s, b);
  }

  /** Of ordered rows FIRST (LAST) keeps the first one exactly when its time lies before the
      last (behind the first) of all times there are; otherwise the result is NULL. */
  lemma FirstRowKept(isFirst: bool, t: FieldType, pos: nat, rows: seq<Row>)
    requires rows != [] && Timed(rows) && Typed(rows, pos, t) && InOrder(isFirst, rows)
    ensures var r := Fold(BestStep(isFirst, t, pos), BestStart(isFirst), rows);
            r.ok && r.state == if (if isFirst then RowTs(rows[0]) < MAX_MICROSECOND else RowTs(rows[0]) > MIN_MICROSECOND)
                               then BestState(RowTs(rows[0]), Val(rows[0], pos))
                               else BestState(if isFirst then MAX_MICROSECOND else MIN_MICROSECOND, Null)
  {
    hide IntOf, HasType, Val;
    var first := [rows[0]];
    assert rows == first + rows[1..];
    EarlyExit(isFirst, t, pos, first, rows[1..]);
    assert first[..0] == [];
    assert Val(rows[0], TSTAMP_INDEX).DateTime?;
  }

  /** LAST over one row at time 0 is NULL, and so is FIRST over one row in the last microsecond
      of 30 December 2999. */
  lemma BoundaryTimes()
    ensures var row: Row := [Int64(1), DateTime(0), Int64(7)];
            Fold(BestStep(false, TInt64, 2), BestStart(false), [row]) == Outcome(BestState(0, Null), true)
    ensures var row: Row := [Int64(1), DateTime(32_503_593_599_999_999), Int64(7)];
            Fold(BestStep(true, TInt64, 2), BestStart(true), [row]) == Outcome(BestState(32_503_593_599_999_999, Null), true)
  {
    var first: Row := [Int64(1), DateTime(0), Int64(7)];
    var last: Row := [Int64(1), DateTime(32_503_593_599_999_999), Int64(7)];
    FirstRowKept(false, TInt64, 2, [first]);
    FirstRowKept(true, TInt64, 2, [last]);
  }

  class FirstOrLastValueFunc {
    const isFirst: bool
    const valType: FieldType
    const fieldPos: nat
    var curTs: Int64
    var curVal: DBVal

    function State(): BestState
      reads this
    {
      BestState(curTs, curVal)
    }

    constructor (isFirst: bool, t: FieldType, pos: nat)
      ensures this.isFirst == isFirst && valType == t && fieldPos == pos && State() == BestStart(isFirst)
    {
      this.isFirst, valType, fieldPos := isFirst, t, pos;
      curTs, curVal := if isFirst then MAX_MICROSECOND else MIN_MICROSECOND, Null;
    }

    method AppendSingle(row: Row) returns (ok: bool)
      requires fieldPos < |row| && TSTAMP_INDEX < |row| && row[TSTAMP_INDEX].DateTime?
      modifies this`curTs, this`curVal
      ensures Outcome(State(), ok) == BestStep(isFirst, valType, fieldPos)(old(State()), row)
    {
      assert Val(row, fieldPos) == row[fieldPos] && Val(row, TSTAMP_INDEX) == row[TSTAMP_INDEX];
      if !row[fieldPos].Null? && !HasType(row[fieldPos], valType) {
        return false;
      }
      if isFirst {
        if row[TSTAMP_INDEX].ts >= curTs {
          return true;
        }
      } else {
        if row[TSTAMP_INDEX].ts <= curTs {
          return true;
        }
      }
      curVal := row[fieldPos];
      curTs := row[TSTAMP_INDEX].ts;
      return true;
    }

    method AppendArray(blk: BlockValues, id: nat, ids: seq<nat>) returns (ok: bool)
      requires blk.Valid() && fieldPos < |blk.columnVec| && TSTAMP_INDEX < |blk.columnVec|
      modifies this`curTs, this`curVal
      ensures if (ids == [] || |ids| == blk.recordSize) && blk.columnVec[TSTAMP_INDEX].Some? && blk.columnVec[fieldPos].Some?
              then Outcome(State(), ok) == Fold(BestStep(isFirst, valType, fieldPos), old(State()), Members(blk, id, ids))
              else !ok && State() == old(State())
    {
      hide Fold, Kept, InGroup, BlockValues.Valid, Reached, HasType;
      if ids != [] && |ids| != blk.recordSize {
        return false;
      }
      if blk.columnVec[TSTAMP_INDEX].None? || blk.columnVec[fieldPos].None? {
        return false;
      }
      ghost var step, rows, sel := BestStep(isFirst, valType, fieldPos), blk.Rows(), InGroup(blk.Keep(), ids, id);
      ghost var start := State();
      ReachStart(step, start, rows, sel);
      for idx := 0 to blk.recordSize
        invariant Reached(step, start, rows, sel, idx, Outcome(State(), true))
      {
        ReachNext(step, start, rows, sel, idx, State());
        var picked := Selected(blk, id, ids, idx);
        if !picked {
          continue;
        }
        CellOf(blk, fieldPos, idx);
        CellOf(blk, TSTAMP_INDEX, idx);
        var ts, v := blk.columnVec[TSTAMP_INDEX].value[idx], blk.columnVec[fieldPos].value[idx];
        if !ts.DateTime? {
          ReachFailed(step, start, rows, sel, idx + 1, Outcome(State(), false));
          return false;
        }
        if !v.Null? && !HasType(v, valType) {
          ReachFailed(step, start, rows, sel, idx + 1, Outcome(State(), false));
          return false;
        }
        if isFirst {
          if ts.ts >= curTs {
            continue;
          }
        } else {
          if ts.ts <= curTs {
            continue;
          }
        }
        curTs := ts.ts;
        curVal := v;
      }
      ReachEnd(step, start, rows, sel, Outcome(State(), true));
      return true;
    }
  }

  // ---------------------------------------------------------------- MAX and MIN

  /** The two forms differ in code, and in two places in what they do. */
  datatype Form = RowForm | ArrayForm

  datatype Extreme = Extreme(isMax: bool, compareType: FieldType, targetType: FieldType, comparePos: nat, targetPos: nat,
                             grow: nat -> nat)

  /** compareVal_, targetVal_, and length and capacity of the string behind the target value. */
  datatype ExtremeState = ExtremeState(compareVal: DBVal, targetVal: DBVal, bufLen: nat, bufCap: nat)

  /** The compare types for which the code is modelled: the integers, and DATETIME, for which
      it has no comparison at all. */
  predicate Compares(t: FieldType) { IsNumber(t) || t == TDateTime }

  /** The value that is kept stays. */
  predicate Stays(isMax: bool, v: int, c: int) {
    if isMax then v <= c else v >= c
  }

  /** The 32-bit part of a 64-bit integer. */
  function Low32(x: Int64): Int32 { Signed(x, P32) }

  /** What a value is compared with: the array form reads a kept INT64 as an INT32. */
  function Limit(form: Form, t: FieldType, c: Int64): Int64 {
    if form.ArrayForm? && t == TInt64 then Low32(c) else c
  }

  /** The row form copies into the string first and adjusts its length afterwards, which zeroes
      what lies behind the old length unless the string was enlarged before. */
  function Copied(form: Form, len: nat, cap: nat, data: Bytes): Bytes {
    if form.ArrayForm? || |data| > cap || |data| <= len then data
    else data[..len] + seq(|data| - len, _ => 0)
  }

  function WithBytes(v: DBVal, bytes: Bytes): DBVal {
    match v
    case String(_) => String(bytes)
    case Blob(_) => Blob(bytes)
    case _ => v
  }

  function Take(form: Form, e: Extreme, s: ExtremeState, c: DBVal, v: DBVal): ExtremeState {
    if v.String? || v.Blob? then
      ExtremeState(c, WithBytes(v, Copied(form, s.bufLen, s.bufCap, v.bytes)), |v.bytes|,
                   if |v.bytes| > s.bufCap then e.grow(|v.bytes|) else s.bufCap)
    else
      ExtremeState(c, v, s.bufLen, s.bufCap)
  }

  /** The string behind the target holds the bytes that were taken; where it was too small it has
      grown. */
  lemma TakenFits(form: Form, e: Extreme, s: ExtremeState, c: DBVal, v: DBVal)
    requires s.bufLen <= s.bufCap && forall n: nat :: e.grow(n) >= n
    ensures var next := Take(form, e, s, c, v);
            && s.bufCap <= next.bufCap && next.bufLen <= next.bufCap && next.compareVal == c
            && if v.String? || v.Blob? then next.bufLen == |v.bytes| && WithBytes(next.targetVal, v.bytes) == v
               else next.targetVal == v && next.bufLen == s.bufLen
  {
    assert e.grow(if v.String? || v.Blob? then |v.bytes| else 0) >= 0;
  }

  function Compare(form: Form, e: Extreme, s: ExtremeState, c: DBVal, v: DBVal): Outcome<ExtremeState> {
    if c.Null? then Outcome(s, true)
    else if !(v.Null? || HasType(v, e.targetType)) || !HasType(c, e.compareType) then Outcome(s, false)
    else if !s.compareVal.Null? && IsNumber(e.compareType) && Stays(e.isMax, IntOf(c), Limit(form, e.compareType, IntOf(s.compareVal))) then
      Outcome(s, true)
    else Outcome(Take(form, e, s, c, v), true)
  }

  function ExtremeStep(form: Form, e: Extreme): Step<ExtremeState> {
    (s: ExtremeState, row: Row) => Compare(form, e, s, Val(row, e.comparePos), Val(row, e.targetPos))
  }

  function ExtremeStart(cap: nat): ExtremeState { ExtremeState(Null, Null, 0, cap) }

  /** The array form does what the row form does with every next row exactly while the kept
      INT64 fits 32 bits. */
  lemma ResultsAgree(e: Extreme, s: ExtremeState)
    requires e.compareType == TInt64 && s.compareVal.Int64? && !e.targetType.TString? && !e.targetType.TBlob?
    ensures (forall c: DBVal, v: DBVal :: Compare(ArrayForm, e, s, c, v) == Compare(RowForm, e, s, c, v))
       <==> -0x8000_0000 <= IntOf(s.compareVal) < 0x8000_0000
  {
    hide Signed;
    var kept := s.compareVal.i64;
    if -0x8000_0000 <= kept < 0x8000_0000 {
      Low32Is(kept);
      forall c: DBVal, v: DBVal ensures Compare(ArrayForm, e, s, c, v) == Compare(RowForm, e, s, c, v) {
        ScalarTarget(v, e.targetType);
      }
    } else {
      Low32Far(kept);
      var c := Int64(if Low32(kept) < kept then kept - 1 else kept + 1);
      assert Compare(ArrayForm, e, s, c, Null) != Compare(RowForm, e, s, c, Null);
    }
  }

  lemma Low32Far(x: Int64)
    requires !(-0x8000_0000 <= x < 0x8000_0000)
    ensures Low32(x) < x - 1 || Low32(x) > x + 1
  {
  }

  /** The copy of the row form is right exactly when the string had to be enlarged, or when it
      had only zeros to lose. */
  lemma CopyRight(len: nat, cap: nat, data: Bytes)
    ensures Copied(ArrayForm, len, cap, data) == data
    ensures Copied(RowForm, len, cap, data) == data <==> |data| > cap || forall i :: len <= i < |data| ==> data[i] == 0
  {
    var zeros := Copied(RowForm, len, cap, data);
    if len < |data| <= cap {
      if zeros == data {
        forall i | len <= i < |data| ensures data[i] == 0 { assert zeros[i] == 0; }
      }
    }
  }

  /** MAX with a string target, row by row: into a string of capacity 15 that is still empty,
      the copy of "A" leaves a zero. */
  lemma CopyLoses(grow: nat -> nat)
    ensures var e := Extreme(true, TInt64, TString, 0, 1, grow);
            var row: Row := [Int64(1), String([65])];
            && Fold(ExtremeStep(RowForm, e), ExtremeStart(15), [row]).state.targetVal == String([0])
            && Fold(ExtremeStep(ArrayForm, e), ExtremeStart(15), [row]).state.targetVal == String([65])
  {
    var e := Extreme(true, TInt64, TString, 0, 1, grow);
    var row: Row := [Int64(1), String([65])];
    FoldOne(ExtremeStep(RowForm, e), ExtremeStart(15), row);
    FoldOne(ExtremeStep(ArrayForm, e), ExtremeStart(15), row);
    assert Val(row, 0) == Int64(1) && Val(row, 1) == String([65]);
    assert Copied(RowForm, 0, 15, [65]) == [0];
  }

  /** Every compare value fits the 32 bits the array form looks at. */
  ghost predicate Narrow(e: Extreme, rows: seq<Row>) {
    e.compareType == TInt64 ==> forall i :: 0 <= i < |rows| ==> -0x8000_0000 <= IntOf(Val(rows[i], e.comparePos)) < 0x8000_0000
  }

  /** On such rows, and with a target that is not a string, the array form refines the row form. */
  lemma {:induction false} FormsAgree(e: Extreme, cap: nat, rows: seq<Row>)
    requires Compares(e.compareType) && Narrow(e, rows) && !e.targetType.TString? && !e.targetType.TBlob?
    ensures Fold(ExtremeStep(ArrayForm, e), ExtremeStart(cap), rows) == Fold(ExtremeStep(RowForm, e), ExtremeStart(cap), rows)
    ensures var s := Fold(ExtremeStep(RowForm, e), ExtremeStart(cap), rows).state;
            e.compareType == TInt64 && !s.compareVal.Null? ==> -0x8000_0000 <= IntOf(s.compareVal) < 0x8000_0000
  {
    hide HasType, Val;
    if rows != [] {
      var init, row := rows[..|rows| - 1], rows[|rows| - 1];
      assert forall i :: 0 <= i < |init| ==> init[i] == rows[i];
      FormsAgree(e, cap, init);
      StepsAgree(e, Fold(ExtremeStep(RowForm, e), ExtremeStart(cap), init).state, row);
    }
  }

  lemma StepsAgree(e: Extreme, s: ExtremeState, row: Row)
    requires Compares(e.compareType) && Narrow(e, [row]) && !e.targetType.TString? && !e.targetType.TBlob?
    requires e.compareType == TInt64 && !s.compareVal.Null? ==> -0x8000_0000 <= IntOf(s.compareVal) < 0x8000_0000
    ensures ExtremeStep(ArrayForm, e)(s, row) == ExtremeStep(RowForm, e)(s, row)
    ensures var next := ExtremeStep(RowForm, e)(s, row).state;
            e.compareType == TInt64 && !next.compareVal.Null? ==> -0x8000_0000 <= IntOf(next.compareVal) < 0x8000_0000
  {
    hide Val, IntOf, Signed;
    assert [row][0] == row;
    if e.compareType == TInt64 && !s.compareVal.Null? { Low32Is(IntOf(s.compareVal)); }
    ScalarTarget(Val(row, e.targetPos), e.targetType);
  }

  lemma Low32Is(x: Int64)
    requires -0x8000_0000 <= x < 0x8000_0000
    ensures Low32(x) == x
  {
  }

  /** Otherwise it is another number with the same low 32 bits. */
  lemma Low32Keeps(x: Int64)
    ensures (Low32(x) - x) % 0x1_0000_0000 == 0
  {
    SignedIs(x, P32);
  }

  lemma ScalarTarget(v: DBVal, t: FieldType)
    requires !t.TString? && !t.TBlob?
    ensures HasType(v, t) ==> !v.String? && !v.Blob?
  {
  }

  /** Where they part: MAX over 2^32 and 5 is 2^32 row by row, but 5 in a block. */
  lemma FormsDiffer(grow: nat -> nat, cap: nat)
    ensures var e := Extreme(true, TInt64, TInt64, 0, 0, grow);
            var rows := [[Int64(P32)]] + [[Int64(5)]];
            && Fold(ExtremeStep(RowForm, e), ExtremeStart(cap), rows).state.targetVal == Int64(P32)
            && Fold(ExtremeStep(ArrayForm, e), ExtremeStart(cap), rows).state.targetVal == Int64(5)
  {
    hide Fold;
    var e := Extreme(true, TInt64, TInt64, 0, 0, grow);
    var big, small: Row := [Int64(P32)], [Int64(5)];
    assert Val(big, 0) == Int64(P32) && Val(small, 0) == Int64(5) && Low32(P32) == 0;
    var one := ExtremeState(Int64(P32), Int64(P32), 0, cap);
    forall form: Form
      ensures Fold(ExtremeStep(form, e), ExtremeStart(cap), [big] + [small])
           == Compare(form, e, one, Int64(5), Int64(5))
    {
      FoldOne(ExtremeStep(form, e), ExtremeStart(cap), big);
      FoldSnoc(ExtremeStep(form, e), ExtremeStart(cap), [big], small);
    }
  }

  /** No row has a compare value above (MAX) or below (MIN) the kept one. */
  ghost predicate HoldsExtreme(e: Extreme, rows: seq<Row>, s: ExtremeState) {
    forall j :: 0 <= j < |rows| && !Val(rows[j], e.comparePos).Null? ==>
      var v, c := IntOf(Val(rows[j], e.comparePos)), IntOf(s.compareVal);
      !s.compareVal.Null? && if e.isMax then v <= c else v >= c
  }

  /** What MAX (MIN) keeps: the compare value that no other one exceeds, with the target of the
      first row that has it; NULL when every compare value is null. */
  ghost predicate IsExtreme(e: Extreme, rows: seq<Row>, s: ExtremeState) {
    && HoldsExtreme(e, rows, s)
    && if s.compareVal.Null? then s.targetVal.Null? else exists i :: 0 <= i < |rows| && IsExtremeRow(e, rows, s, i)
  }

  ghost predicate IsExtremeRow(e: Extreme, rows: seq<Row>, s: ExtremeState, i: nat)
    requires i < |rows|
  {
    && s.compareVal == Val(rows[i], e.comparePos) && s.targetVal == Val(rows[i], e.targetPos) && !s.compareVal.Null?
    && (forall j :: 0 <= j < i && !Val(rows[j], e.comparePos).Null? ==>
          IntOf(Val(rows[j], e.comparePos)) != IntOf(s.compareVal))
  }

  /** MAX (MIN) fails exactly on a compare value of another type, and on a target of another
      type beside a compare value. */
  lemma {:induction false} ExtremeAccepts(form: Form, e: Extreme, cap: nat, rows: seq<Row>)
    ensures Fold(ExtremeStep(form, e), ExtremeStart(cap), rows).ok
       <==> forall i :: 0 <= i < |rows| && !Val(rows[i], e.comparePos).Null? ==>
              && HasType(Val(rows[i], e.comparePos), e.compareType)
              && (Val(rows[i], e.targetPos).Null? || HasType(Val(rows[i], e.targetPos), e.targetType))
  {
    hide HasType, Val;
    if rows != [] {
      var init := rows[..|rows| - 1];
      assert forall i :: 0 <= i < |init| ==> init[i] == rows[i];
      ExtremeAccepts(form, e, cap, init);
    }
  }

  lemma {:induction false} ExtremeMeaning(e: Extreme, cap: nat, rows: seq<Row>)
    requires IsNumber(e.compareType) && Typed(rows, e.comparePos, e.compareType) && Typed(rows, e.targetPos, e.targetType)
    requires !e.targetType.TString? && !e.targetType.TBlob?
    ensures var r := Fold(ExtremeStep(RowForm, e), ExtremeStart(cap), rows);
            r.ok && IsExtreme(e, rows, r.state)
  {
    hide Val, IntOf;
    if rows == [] {
      assert Fold(ExtremeStep(RowForm, e), ExtremeStart(cap), rows) == Outcome(ExtremeStart(cap), true);
    } else {
      var init, row := rows[..|rows| - 1], rows[|rows| - 1];
      assert forall i :: 0 <= i < |init| ==> init[i] == rows[i];
      ExtremeMeaning(e, cap, init);
      ExtremeNext(e, init, row, Fold(ExtremeStep(RowForm, e), ExtremeStart(cap), init).state);
      assert rows == init + [row];
    }
  }

  lemma ExtremeNext(e: Extreme, init: seq<Row>, row: Row, s: ExtremeState)
    requires IsNumber(e.compareType) && IsExtreme(e, init, s)
    requires Typed([row], e.comparePos, e.compareType) && Typed([row], e.targetPos, e.targetType)
    requires !e.targetType.TString? && !e.targetType.TBlob?
    ensures var r := ExtremeStep(RowForm, e)(s, row); r.ok && IsExtreme(e, init + [row], r.state)
  {
    hide Val, IntOf;
    var rows, r := init + [row], ExtremeStep(RowForm, e)(s, row);
    assert [row][0] == row;
    assert rows[|init|] == row && forall i :: 0 <= i < |init| ==> rows[i] == init[i];
    if !s.compareVal.Null? {
      var i :| 0 <= i < |init| && IsExtremeRow(e, init, s, i);
      var c := Val(row, e.comparePos);
      ScalarTarget(Val(row, e.targetPos), e.targetType);
      if c.Null? || Stays(e.isMax, IntOf(c), IntOf(s.compareVal)) {
        assert IsExtremeRow(e, rows, s, i);
      } else {
        assert IsExtremeRow(e, rows, r.state, |init|);
      }
    } else if !Val(row, e.comparePos).Null? {
      ScalarTarget(Val(row, e.targetPos), e.targetType);
      assert IsExtremeRow(e, rows, r.state, |init|);
    }
  }

  // ---------------------------------------------------------------- MAX and MIN over DATETIME

  /** The last row with a compare value. */
  function LastSet(rows: seq<Row>, pos: nat): (r: Option<nat>)
    ensures r.Some? ==> r.value < |rows| && !Val(rows[r.value], pos).Null?
    ensures forall j :: 0 <= j < |rows| && (r.Some? ==> r.value < j) ==> Val(rows[j], pos).Null?
  {
    if rows == [] then None
    else if Val(rows[|rows| - 1], pos).Null? then LastSet(rows[..|rows| - 1], pos)
    else Some(|rows| - 1)
  }

  /** Without a comparison both forms keep whatever came last. */
  lemma {:induction false} DateTimeKeepsLast(form: Form, e: Extreme, cap: nat, rows: seq<Row>)
    requires e.compareType == TDateTime && !e.targetType.TString? && !e.targetType.TBlob?
    requires Typed(rows, e.comparePos, TDateTime) && Typed(rows, e.targetPos, e.targetType)
    ensures Fold(ExtremeStep(form, e), ExtremeStart(cap), rows)
         == match LastSet(rows, e.comparePos)
            case None => Outcome(ExtremeStart(cap), true)
            case Some(i) => Outcome(ExtremeState(Val(rows[i], e.comparePos), Val(rows[i], e.targetPos), 0, cap), true)
  {
    hide Val;
    if rows != [] {
      var init, row := rows[..|rows| - 1], rows[|rows| - 1];
      assert forall i :: 0 <= i < |init| ==> init[i] == rows[i];
      DateTimeKeepsLast(form, e, cap, init);
      ScalarTarget(Val(row, e.targetPos), e.targetType);
    }
  }

  /** So the result is the extreme exactly when no time before the last one beats it. */
  lemma DateTimeRight(form: Form, e: Extreme, cap: nat, rows: seq<Row>)
    requires e.compareType == TDateTime && !e.targetType.TString? && !e.targetType.TBlob?
    requires Typed(rows, e.comparePos, TDateTime) && Typed(rows, e.targetPos, e.targetType)
    ensures HoldsExtreme(e, rows, Fold(ExtremeStep(form, e), ExtremeStart(cap), rows).state)
       <==> var last := LastSet(rows, e.comparePos);
            last.Some? ==> forall j :: 0 <= j < last.value && !Val(rows[j], e.comparePos).Null? ==>
              var v, c := IntOf(Val(rows[j], e.comparePos)), IntOf(Val(rows[last.value], e.comparePos));
              if e.isMax then v <= c else v >= c
  {
    hide Val, IntOf, Fold, LastSet;
    DateTimeKeepsLast(form, e, cap, rows);
  }

  /** MAX over the times 5 and 3 is 3, and MIN over 3 and 5 is 5. */
  lemma DateTimeWrong(form: Form, isMax: bool, grow: nat -> nat, cap: nat)
    ensures var e := Extreme(isMax, TDateTime, TDateTime, 0, 0, grow);
            var a, b := if isMax then 5 else 3, if isMax then 3 else 5;
            var rows: seq<Row> := [[DateTime(a)], [DateTime(b)]];
            var s := Fold(ExtremeStep(form, e), ExtremeStart(cap), rows).state;
            s.targetVal == DateTime(b) && !HoldsExtreme(e, rows, s)
  {
    var e := Extreme(isMax, TDateTime, TDateTime, 0, 0, grow);
    var a, b := if isMax then 5 else 3, if isMax then 3 else 5;
    var rows: seq<Row> := [[DateTime(a)], [DateTime(b)]];
    assert Val(rows[0], 0) == DateTime(a) && Val(rows[1], 0) == DateTime(b);
    DateTimeKeepsLast(form, e, cap, rows);
  }

  class ExtremeValueFunc {
    const e: Extreme
    var compareVal: DBVal
    var targetVal: DBVal
    var bufLen: nat
    var bufCap: nat

    function State(): ExtremeState
      reads this
    {
      ExtremeState(compareVal, targetVal, bufLen, bufCap)
    }

    constructor (e: Extreme, cap: nat)
      requires Compares(e.compareType)
      ensures this.e == e && State() == ExtremeStart(cap)
    {
      this.e := e;
      compareVal, targetVal, bufLen, bufCap := Null, Null, 0, cap;
    }

    method AppendSingle(row: Row) returns (ok: bool)
      requires Compares(e.compareType) && e.comparePos < |row| && e.targetPos < |row|
      modifies this
      ensures Outcome(State(), ok) == ExtremeStep(RowForm, e)(old(State()), row)
    {
      assert Val(row, e.comparePos) == row[e.comparePos] && Val(row, e.targetPos) == row[e.targetPos];
      var c, v := row[e.comparePos], row[e.targetPos];
      if c.Null? {
        return true;
      }
      if !v.Null? && !HasType(v, e.targetType) {
        return false;
      }
      if !HasType(c, e.compareType) {
        return false;
      }
      if !compareVal.Null? {
        if IsNumber(e.compareType) {
          if Stays(e.isMax, IntOf(c), IntOf(compareVal)) {
            return true;
          }
        }
      }
      compareVal := c;
      if v.String? || v.Blob? {
        var dataLen := |v.bytes|;
        if dataLen > bufCap {
          bufLen, bufCap := dataLen, e.grow(dataLen);
          targetVal := v;
        } else {
          targetVal := WithBytes(v, if dataLen <= bufLen then v.bytes else v.bytes[..bufLen] + seq(dataLen - bufLen, _ => 0));
          bufLen := dataLen;
        }
      } else {
        targetVal := v;
      }
      return true;
    }

    method AppendArray(blk: BlockValues, id: nat, ids: seq<nat>) returns (ok: bool)
      requires Compares(e.compareType) && blk.Valid() && e.comparePos < |blk.columnVec| && e.targetPos < |blk.columnVec|
      requires blk.columnVec[e.comparePos].Some? && blk.columnVec[e.targetPos].Some?
      modifies this
      ensures if ids == [] || |ids| == blk.recordSize
              then Outcome(State(), ok) == Fold(ExtremeStep(ArrayForm, e), old(State()), Members(blk, id, ids))
              else !ok && State() == old(State())
    {
      hide Fold, Kept, InGroup, BlockValues.Valid, Reached, HasType;
      if ids != [] && |ids| != blk.recordSize {
        return false;
      }
      ghost var step, rows, sel := ExtremeStep(ArrayForm, e), blk.Rows(), InGroup(blk.Keep(), ids, id);
      ghost var start := State();
      ReachStart(step, start, rows, sel);
      for idx := 0 to blk.recordSize
        invariant Reached(step, start, rows, sel, idx, Outcome(State(), true))
      {
        ReachNext(step, start, rows, sel, idx, State());
        var picked := Selected(blk, id, ids, idx);
        if !picked {
          continue;
        }
        CellOf(blk, e.comparePos, idx);
        CellOf(blk, e.targetPos, idx);
        var c, v := blk.columnVec[e.comparePos].value[idx], blk.columnVec[e.targetPos].value[idx];
        if c.Null? {
          continue;
        }
        if (!v.Null? && !HasType(v, e.targetType)) || !HasType(c, e.compareType) {
          ReachFailed(step, start, rows, sel, idx + 1, Outcome(State(), false));
          return false;
        }
        if !compareVal.Null? {
          if IsNumber(e.compareType) {
            var kept := if e.compareType == TInt64 then Low32(IntOf(compareVal)) else IntOf(compareVal);
            if Stays(e.isMax, IntOf(c), kept) {
              continue;
            }
          }
        }
        compareVal := c;
        targetVal := v;
        if v.String? || v.Blob? {
          bufLen := |v.bytes|;
          if bufLen > bufCap {
            bufCap := e.grow(bufLen);
          }
        }
      }
      ReachEnd(step, start, rows, sel, Outcome(State(), true));
      return true;
    }
  }
}
