/** SELECT without grouping (query/query_raw.cpp): LIMIT and OFFSET applied to rows that
    arrive one by one or in blocks. */
module QueryRaws {
  import opened Coding
  import opened DbValue
  import opened QueryBlocks
  import opened ConditionFilters
  import opened WireFormat

  datatype QueryErr = OK | RESULT_FULL

  /** LIMIT offset, limit. */
  function Window<T>(offset: nat, limit: nat, s: seq<T>): (r: seq<T>)
    ensures |r| <= limit
  {
    var rest := if offset <= |s| then s[offset..] else [];
    if |rest| <= limit then rest else rest[..limit]
  }

  /** Row i of the window is row offset + i, and it has as many rows as there are, up to the limit. */
  lemma WindowIs<T>(offset: nat, limit: nat, s: seq<T>)
    ensures var w := Window(offset, limit, s);
            && |w| == (if |s| <= offset then 0 else if |s| - offset <= limit then |s| - offset else limit)
            && forall i :: 0 <= i < |w| ==> w[i] == s[offset + i]
  {
  }

  lemma WindowSnoc<T>(offset: nat, limit: nat, s: seq<T>, x: T)
    ensures var w := Window(offset, limit, s);
            Window(offset, limit, s + [x]) == if |s| < offset || |w| == limit then w else w + [x]
  {
    if offset <= |s| {
      assert (s + [x])[offset..] == s[offset..] + [x];
    }
  }

  lemma {:induction false} WindowFull<T>(offset: nat, limit: nat, s: seq<T>, t: seq<T>)
    requires |Window(offset, limit, s)| == limit
    ensures Window(offset, limit, s + t) == Window(offset, limit, s)
  {
    if t == [] {
      assert s + t == s;
    } else {
      WindowFull(offset, limit, s, t[..|t| - 1]);
      WindowSnoc(offset, limit, s + t[..|t| - 1], t[|t| - 1]);
      assert s + t == s + t[..|t| - 1] + [t[|t| - 1]];
    }
  }

  lemma WindowSkip<T>(offset: nat, limit: nat, s: seq<T>, t: seq<T>)
    requires |s| + |t| <= offset
    ensures Window(offset, limit, s + t) == Window(offset, limit, s) == []
  {
  }

  type Target = Row -> DBVal

  function Targets(fields: seq<Target>, row: Row): (r: Row)
    ensures |r| == |fields|
  {
    seq(|fields|, f requires 0 <= f < |fields| => fields[f](row))
  }

  function Selected(fields: seq<Target>, rows: seq<Row>): (r: seq<Row>)
    ensures |r| == |rows|
  {
    seq(|rows|, i requires 0 <= i < |rows| => Targets(fields, rows[i]))
  }

  /** Column f of row i is target f of row i. */
  lemma SelectedIs(fields: seq<Target>, rows: seq<Row>, i: nat, f: nat)
    requires i < |rows| && f < |fields|
    ensures |Selected(fields, rows)| == |rows| && |Selected(fields, rows)[i]| == |fields|
    ensures Selected(fields, rows)[i][f] == fields[f](rows[i])
  {
  }

  lemma SelectedSnoc(fields: seq<Target>, rows: seq<Row>, row: Row)
    ensures EncodeRows(Selected(fields, rows + [row])) == EncodeRows(Selected(fields, rows)) + EncodeRow(Targets(fields, row))
  {
    var all := Selected(fields, rows + [row]);
    assert all[..|all| - 1] == Selected(fields, rows);
  }

  lemma NothingPushed()
    ensures EncodeRow([]) == []
  {
  }

  lemma PushOne(pushed: Row, v: DBVal)
    ensures EncodeRow(pushed + [v]) == EncodeRow(pushed) + EncodeValue(v)
  {
    assert (pushed + [v])[..|pushed|] == pushed;
  }

  lemma FilterOne(conds: seq<Condition>, row: Row)
    ensures Filter(conds, [row]) == if Meets(conds, row) then [row] else []
  {
    assert [row][..0] == [];
  }

  lemma TargetsPrefix(fields: seq<Target>, row: Row, f: nat)
    requires f < |fields|
    ensures Targets(fields, row)[..f] + [fields[f](row)] == Targets(fields, row)[..f + 1]
  {
  }

  lemma Prefix<T>(a: seq<T>, s: seq<T>, i: nat)
    requires i < |s|
    ensures a + s[..i] + [s[i]] == a + s[..i + 1]
  {
  }

  lemma After0<T>(s: seq<T>)
    ensures s + [] == s && s[..|s|] == s
  {
  }

  lemma Tail<T>(a: seq<T>, b: seq<T>, i: nat)
    requires i <= |b|
    ensures a + b[..i] + b[i..] == a + b
  {
  }

  lemma SurvivorsAre(blk: BlockValues)
    requires blk.Valid() && blk.CacheOK()
    ensures |blk.Survivors()| == blk.resultSize && blk.CacheInside()
  {
  }

  class QueryRaw {
    const condiFilter: seq<Condition>
    const fieldVec: seq<Target>
    /** The LIMIT clause. */
    const offset: nat
    const queryRecord: nat
    /** What the result starts with: the protocol head and the table description. */
    const head: Bytes
    var queryOffset: nat
    var curRecord: nat
    var resultData: Bytes
    /** The rows offered so far; once the result is full, also rows that were not even read. */
    ghost var input: seq<Row>

    ghost function Emitted(): seq<Row>
      reads this
    {
      Window(offset, queryRecord, Filter(condiFilter, input))
    }

    /** The fields after the matching rows `done`. */
    ghost predicate After(done: seq<Row>)
      reads this
    {
      var w := Window(offset, queryRecord, done);
      && curRecord == |w|
      && (curRecord < queryRecord ==> queryOffset == if |done| < offset then offset - |done| else 0)
      && resultData == head + EncodeRows(Selected(fieldVec, w))
    }

    ghost predicate Valid()
      reads this
    {
      After(Filter(condiFilter, input))
    }

    constructor (conds: seq<Condition>, fields: seq<Target>, offset: nat, limit: nat, head: Bytes)
      ensures Valid() && input == []
      ensures condiFilter == conds && fieldVec == fields && this.offset == offset && queryRecord == limit && this.head == head
    {
      condiFilter, fieldVec, this.offset, queryRecord, this.head := conds, fields, offset, limit, head;
      queryOffset, curRecord, resultData, input := offset, 0, head, [];
    }

    /** The result rows: for every history of single rows and blocks, the window of the
        matching rows, and their number. */
    method GetResult() returns (data: Bytes, recordCnt: nat)
      requires Valid()
      ensures data == head + EncodeRows(Selected(fieldVec, Emitted())) && recordCnt == |Emitted()|
    {
      return resultData, curRecord;
    }

    /** A full result does not change any more. */
    ghost method OfferRest(rows: seq<Row>)
      requires Valid() && curRecord >= queryRecord
      modifies this`input
      ensures Valid() && input == old(input) + rows
    {
      FilterAppend(condiFilter, input, rows);
      WindowFull(offset, queryRecord, Filter(condiFilter, input), Filter(condiFilter, rows));
      input := input + rows;
    }

    method PushRow(row: Row, ghost done: seq<Row>)
      requires After(done) && |done| >= offset && curRecord < queryRecord
      modifies this`curRecord, this`resultData
      ensures After(done + [row]) && curRecord == old(curRecord) + 1
    {
      hide EncodeRows, EncodeRow, EncodeValue, Selected, Targets, Window;
      ghost var before := resultData;
      ghost var targets := Targets(fieldVec, row);
      ghost var pushed: Row := [];
      NothingPushed();
      for f := 0 to |fieldVec|
        invariant pushed == targets[..f] && curRecord == old(curRecord) && queryOffset == old(queryOffset)
        invariant resultData == before + EncodeRow(pushed)
      {
        var tmpVal := fieldVec[f](row);
        PushOne(pushed, tmpVal);
        TargetsPrefix(fieldVec, row, f);
        resultData := resultData + EncodeValue(tmpVal);
        pushed := pushed + [tmpVal];
      }
      After0(targets);
      curRecord := curRecord + 1;
      WindowSnoc(offset, queryRecord, done, row);
      SelectedSnoc(fieldVec, Window(offset, queryRecord, done), row);
    }

    /** The flag tells whether the row was added to the result; a full result leaves it. */
    method AppendSingle(row: Row, was: bool) returns (r: QueryErr, isAdd: bool)
      requires Valid()
      modifies this
      ensures Valid() && input == old(input) + [row]
      ensures r == if old(curRecord) >= queryRecord then RESULT_FULL else OK
      ensures isAdd == if r == RESULT_FULL then was else curRecord > old(curRecord)
    {
      hide EncodeRows, Selected, Filter, Window, Meets;
      ghost var done := Filter(condiFilter, input);
      FilterAppend(condiFilter, input, [row]);
      FilterOne(condiFilter, row);
      input := input + [row];
      if curRecord >= queryRecord {
        WindowFull(offset, queryRecord, done, Filter(condiFilter, [row]));
        return RESULT_FULL, was;
      }
      isAdd := false;
      var result := RunCondition(condiFilter, row);
      if result {
        WindowSnoc(offset, queryRecord, done, row);
        if queryOffset > 0 {
          queryOffset := queryOffset - 1;
          return OK, false;
        }
        PushRow(row, done);
        isAdd := true;
      } else {
        After0(done);
      }
      return OK, isAdd;
    }

    /** The flag is also set when all matching rows were skipped and the offset is used up
        exactly: then nothing was added. */
    method AppendArray(blk: BlockValues, was: bool) returns (r: QueryErr, isAdd: bool)
      requires Valid() && blk.Valid() && blk.CacheOK()
      modifies this, blk`filterVec, blk`resultSize, blk`resultIdxVec, blk`cached
      ensures Valid() && input == old(input) + old(blk.Survivors())
      ensures r == if curRecord >= queryRecord then RESULT_FULL else OK
      ensures var matches := |Filter(condiFilter, old(blk.Survivors()))|;
              if old(curRecord) >= queryRecord then isAdd == was
              else isAdd <==> curRecord > old(curRecord) || (matches > 0 && matches == old(queryOffset))
    {
      hide EncodeRows, Selected, Filter, Window, Meets, BlockValues.Valid, BlockValues.CacheOK, BlockValues.Survivors, BlockValues.CacheInside,
           BlockValues.LookedUp;
      ghost var done, rows := Filter(condiFilter, input), blk.Survivors();
      ghost var passed := Filter(condiFilter, rows);
      FilterAppend(condiFilter, input, rows);
      input := input + rows;
      if curRecord >= queryRecord {
        WindowFull(offset, queryRecord, done, passed);
        return RESULT_FULL, was;
      }
      isAdd := false;
      RunConditionArray(condiFilter, blk);
      SurvivorsAre(blk);
      var resultSize := blk.resultSize;
      if resultSize > 0 {
        if resultSize < queryOffset {
          WindowSkip(offset, queryRecord, done, passed);
          queryOffset := queryOffset - resultSize;
          return OK, false;
        }
        var idx := queryOffset;
        After0(done);
        if |done| < offset {
          WindowSkip(offset, queryRecord, done, passed[..idx]);
        }
        queryOffset := 0;
        isAdd := true;
        while idx < resultSize
          invariant queryOffset == 0 && idx <= resultSize && curRecord < queryRecord
          invariant curRecord == old(curRecord) + idx - old(queryOffset)
          invariant input == old(input) + rows && |done| + idx >= offset
          invariant blk.Valid() && blk.CacheOK() && blk.Survivors() == passed && blk.resultSize == resultSize
          invariant After(done + passed[..idx])
        {
          SurvivorsAre(blk);
          var row := blk.GetRecordValue(idx);
          PushRow(row.value, done + passed[..idx]);
          Prefix(done, passed, idx);
          Tail(done, passed, idx + 1);
          idx := idx + 1;
          if curRecord >= queryRecord {
            WindowFull(offset, queryRecord, done + passed[..idx], passed[idx..]);
            return RESULT_FULL, isAdd;
          }
        }
      }
      After0(passed);
      After0(done);
      return OK, isAdd;
    }
  }
}
