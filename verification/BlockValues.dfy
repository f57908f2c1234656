/** Rows of one block as columns with a filter (query/block_values.h). */
module QueryBlocks {
  import opened Coding
  import opened DbValue

  // ---------------------------------------------------------------- filters

  /** The positions that are kept, in order. */
  function Indices(keep: seq<bool>): (r: seq<nat>)
    ensures |r| <= |keep|
    ensures forall k :: 0 <= k < |r| ==> r[k] < |keep| && keep[r[k]]
  {
    if keep == [] then []
    else
      var init := Indices(keep[..|keep| - 1]);
      if keep[|keep| - 1] then init + [|keep| - 1] else init
  }

  /** The elements that are kept, in order. */
  function Kept<T>(s: seq<T>, keep: seq<bool>): (r: seq<T>)
    requires |keep| == |s|
  {
    if s == [] then []
    else
      var init := Kept(s[..|s| - 1], keep[..|s| - 1]);
      if keep[|s| - 1] then init + [s[|s| - 1]] else init
  }

  lemma {:induction false} KeptAt<T>(s: seq<T>, keep: seq<bool>)
    requires |keep| == |s|
    ensures |Kept(s, keep)| == |Indices(keep)|
    ensures forall k :: 0 <= k < |Indices(keep)| ==> Kept(s, keep)[k] == s[Indices(keep)[k]]
  {
    if s != [] { KeptAt(s[..|s| - 1], keep[..|s| - 1]); }
  }

  /** A position belongs to the survivors exactly when it is kept. */
  lemma {:induction false} IndicesComplete(keep: seq<bool>, i: nat)
    requires i < |keep|
    ensures keep[i] <==> i in Indices(keep)
  {
    if i < |keep| - 1 { IndicesComplete(keep[..|keep| - 1], i); }
  }

  /** The positions are strictly increasing. */
  lemma {:induction false} IndicesOrder(keep: seq<bool>, i: nat, j: nat)
    requires i < j < |Indices(keep)|
    ensures Indices(keep)[i] < Indices(keep)[j]
  {
    var init := keep[..|keep| - 1];
    if j < |Indices(init)| { IndicesOrder(init, i, j); }
  }

  function All(n: nat): seq<bool> { seq(n, _ => true) }

  lemma {:induction false} AllKept<T>(s: seq<T>)
    ensures Kept(s, All(|s|)) == s && |Indices(All(|s|))| == |s|
    ensures forall k :: 0 <= k < |s| ==> Indices(All(|s|))[k] == k
  {
    if s != [] {
      var init := s[..|s| - 1];
      AllKept(init);
      assert All(|s|) == All(|init|) + [true];
      Last(s);
      KeptSnoc(init, All(|init|), s[|init|], true);
      IndicesSnoc(All(|init|), true);
    }
  }

  lemma {:induction false} CountBound(keep: seq<bool>, q: nat)
    requires q <= |keep|
    ensures |Indices(keep[..q])| <= |Indices(keep)|
    ensures |Indices(keep[..q])| == |Indices(keep)| ==> forall i :: q <= i < |keep| ==> !keep[i]
  {
    if q < |keep| {
      CountBound(keep[..|keep| - 1], q);
      assert keep[..|keep| - 1][..q] == keep[..q];
    } else {
      assert keep[..q] == keep;
    }
  }

  ghost predicate Implies(a: seq<bool>, b: seq<bool>) {
    |a| == |b| && forall i :: 0 <= i < |a| && a[i] ==> b[i]
  }

  /** Fewer survivors, or the same ones. */
  lemma {:induction false} SameSize(keep: seq<bool>, wider: seq<bool>)
    requires Implies(keep, wider)
    ensures |Indices(keep)| <= |Indices(wider)|
    ensures |Indices(keep)| == |Indices(wider)| ==> keep == wider
  {
    if keep != [] { SameSize(keep[..|keep| - 1], wider[..|keep| - 1]); }
  }

  /** One flag for every survivor of `keep`; the others stay out. */
  function Merge(keep: seq<bool>, flags: seq<bool>): (r: seq<bool>)
    requires |flags| == |Indices(keep)|
    ensures |r| == |keep|
  {
    if keep == [] then []
    else
      var init := keep[..|keep| - 1];
      if keep[|keep| - 1] then Merge(init, flags[..|flags| - 1]) + [flags[|flags| - 1]]
      else Merge(init, flags) + [false]
  }

  lemma KeptSnoc<T>(s: seq<T>, keep: seq<bool>, x: T, b: bool)
    requires |keep| == |s|
    ensures Kept(s + [x], keep + [b]) == if b then Kept(s, keep) + [x] else Kept(s, keep)
  {
    assert (s + [x])[..|s|] == s && (keep + [b])[..|s|] == keep;
  }

  lemma IndicesSnoc(keep: seq<bool>, b: bool)
    ensures Indices(keep + [b]) == if b then Indices(keep) + [|keep|] else Indices(keep)
  {
    assert (keep + [b])[..|keep|] == keep;
  }

  lemma MergeSnoc(keep: seq<bool>, flags: seq<bool>, b: bool)
    requires |flags| == |Indices(keep)|
    ensures |Indices(keep + [false])| == |flags| && Merge(keep + [false], flags) == Merge(keep, flags) + [false]
    ensures |Indices(keep + [true])| == |flags| + 1 && Merge(keep + [true], flags + [b]) == Merge(keep, flags) + [b]
  {
    assert (keep + [false])[..|keep|] == keep && (keep + [true])[..|keep|] == keep;
    assert (flags + [b])[..|flags|] == flags;
  }

  lemma Last<T>(s: seq<T>)
    requires s != []
    ensures s == s[..|s| - 1] + [s[|s| - 1]]
  {
  }

  /** Filtering the survivors. */
  lemma {:induction false} MergeKeeps<T>(s: seq<T>, keep: seq<bool>, flags: seq<bool>)
    requires |keep| == |s| && |flags| == |Indices(keep)|
    ensures |Kept(s, keep)| == |flags|
    ensures Kept(s, Merge(keep, flags)) == Kept(Kept(s, keep), flags)
    ensures Implies(Merge(keep, flags), keep)
  {
    hide Kept, Indices, Merge, Implies;
    if s == [] {
      NothingMerged(s, keep, flags);
    } else {
      var n := |s| - 1;
      Last(s);
      Last(keep);
      IndicesSnoc(keep[..n], keep[n]);
      if keep[n] {
        Last(flags);
        MergeKeeps(s[..n], keep[..n], flags[..|flags| - 1]);
        MergeKept(s[..n], keep[..n], flags[..|flags| - 1], s[n], flags[|flags| - 1]);
      } else {
        MergeKeeps(s[..n], keep[..n], flags);
        MergeDropped(s[..n], keep[..n], flags, s[n]);
      }
    }
  }

  lemma NothingMerged<T>(s: seq<T>, keep: seq<bool>, flags: seq<bool>)
    requires s == [] && |keep| == |s| && |flags| == |Indices(keep)|
    ensures |Kept(s, keep)| == |flags| && Kept(s, Merge(keep, flags)) == Kept(Kept(s, keep), flags)
    ensures Implies(Merge(keep, flags), keep)
  {
  }

  lemma MergeKept<T>(s: seq<T>, keep: seq<bool>, flags: seq<bool>, x: T, b: bool)
    requires |keep| == |s| && |flags| == |Indices(keep)| == |Kept(s, keep)|
    requires Kept(s, Merge(keep, flags)) == Kept(Kept(s, keep), flags) && Implies(Merge(keep, flags), keep)
    ensures |Indices(keep + [true])| == |flags| + 1 == |Kept(s + [x], keep + [true])|
    ensures Kept(s + [x], Merge(keep + [true], flags + [b])) == Kept(Kept(s + [x], keep + [true]), flags + [b])
    ensures Implies(Merge(keep + [true], flags + [b]), keep + [true])
  {
    hide Kept, Indices, Merge;
    MergeSnoc(keep, flags, b);
    KeptSnoc(s, keep, x, true);
    KeptSnoc(s, Merge(keep, flags), x, b);
    KeptSnoc(Kept(s, keep), flags, x, b);
  }

  lemma MergeDropped<T>(s: seq<T>, keep: seq<bool>, flags: seq<bool>, x: T)
    requires |keep| == |s| && |flags| == |Indices(keep)| == |Kept(s, keep)|
    requires Kept(s, Merge(keep, flags)) == Kept(Kept(s, keep), flags) && Implies(Merge(keep, flags), keep)
    ensures |Indices(keep + [false])| == |flags| == |Kept(s + [x], keep + [false])|
    ensures Kept(s + [x], Merge(keep + [false], flags)) == Kept(Kept(s + [x], keep + [false]), flags)
    ensures Implies(Merge(keep + [false], flags), keep + [false])
  {
    hide Kept, Indices, Merge;
    MergeSnoc(keep, flags, false);
    KeptSnoc(s, keep, x, false);
    KeptSnoc(s, Merge(keep, flags), x, false);
  }

  lemma {:induction false} MergeAll(flags: seq<bool>)
    ensures |Indices(All(|flags|))| == |flags| && Merge(All(|flags|), flags) == flags
  {
    hide Indices, Merge;
    if flags == [] {
      NothingMerged<bool>([], All(0), flags);
      AllKept<bool>([]);
    } else {
      var init := flags[..|flags| - 1];
      Last(flags);
      MergeAll(init);
      assert All(|flags|) == All(|init|) + [true];
      MergeSnoc(All(|init|), init, flags[|init|]);
    }
  }

  /** Nothing is left to merge: the rest of the filter is already clear. */
  lemma {:induction false} MergeRest(keep: seq<bool>, flags: seq<bool>, q: nat)
    requires q <= |keep| && |flags| == |Indices(keep)| == |Indices(keep[..q])|
    ensures Merge(keep, flags) == Merge(keep[..q], flags) + keep[q..]
  {
    CountBound(keep, q);
    if q < |keep| {
      var init := keep[..|keep| - 1];
      assert init[..q] == keep[..q];
      MergeRest(init, flags, q);
      assert keep[q..] == init[q..] + [false];
    } else {
      assert keep[..q] == keep;
    }
  }

  /** Progress of the two-pointer loop: p values were merged into the first q flags, of which
      `count` are still set; the others are untouched. */
  ghost predicate Merging(keep: seq<bool>, flags: seq<bool>, now: seq<bool>, q: nat, p: nat, count: nat) {
    && |flags| == |Indices(keep)| && |now| == |keep| && q <= |keep| && p <= |flags|
    && p == |Indices(keep[..q])|
    && now[..q] == Merge(keep[..q], flags[..p]) && now[q..] == keep[q..]
    && count == |Indices(now[..q])|
  }

  lemma MergeStart(keep: seq<bool>, flags: seq<bool>)
    requires |flags| == |Indices(keep)|
    ensures Merging(keep, flags, keep, 0, 0, 0)
  {
  }

  lemma MergeSkip(keep: seq<bool>, flags: seq<bool>, now: seq<bool>, q: nat, p: nat, count: nat)
    requires Merging(keep, flags, now, q, p, count) && q < |now| && !now[q]
    ensures Merging(keep, flags, now, q + 1, p, count)
  {
    assert keep[..q + 1][..q] == keep[..q] && now[..q + 1][..q] == now[..q];
    assert keep[q] == keep[q..][0] == now[q..][0];
    assert now[q + 1..] == now[q..][1..] && keep[q + 1..] == keep[q..][1..];
    assert now[..q + 1] == now[..q] + [false];
  }

  lemma MergeTake(keep: seq<bool>, flags: seq<bool>, now: seq<bool>, q: nat, p: nat, count: nat)
    requires Merging(keep, flags, now, q, p, count) && q < |now| && now[q] && p < |flags|
    ensures Merging(keep, flags, now[q := flags[p]], q + 1, p + 1, if flags[p] then count + 1 else count)
  {
    var next := now[q := flags[p]];
    assert keep[..q + 1][..q] == keep[..q] && next[..q + 1][..q] == now[..q] && flags[..p + 1][..p] == flags[..p];
    assert keep[q] == keep[q..][0] == now[q..][0];
    assert next[q + 1..] == now[q..][1..] && keep[q + 1..] == keep[q..][1..];
    assert next[..q + 1] == now[..q] + [flags[p]];
  }

  /** A value that is still to be merged has a flag to go to. */
  lemma MergeMore(keep: seq<bool>, flags: seq<bool>, now: seq<bool>, q: nat, p: nat, count: nat)
    requires Merging(keep, flags, now, q, p, count) && p < |flags|
    ensures q < |now|
  {
    assert keep[..|keep|] == keep;
  }

  lemma MergeDone(keep: seq<bool>, flags: seq<bool>, now: seq<bool>, q: nat, p: nat, count: nat)
    requires Merging(keep, flags, now, q, p, count) && p == |flags|
    ensures now == Merge(keep, flags) && count == |Indices(now)|
  {
    assert flags[..p] == flags;
    MergeRest(keep, flags, q);
    CountBound(keep, q);
    assert now == now[..q] + now[q..];
    ClearRest(now, q);
  }

  lemma {:induction false} ClearRest(now: seq<bool>, q: nat)
    requires q <= |now| && forall i :: q <= i < |now| ==> !now[i]
    ensures |Indices(now[..q])| == |Indices(now)|
  {
    if q < |now| {
      ClearRest(now[..|now| - 1], q);
      assert now[..|now| - 1][..q] == now[..q];
    } else {
      assert now[..q] == now;
    }
  }

  predicate IsTrue(v: DBVal) { v.Bool? && v.b }

  function Flags(vals: seq<DBVal>): (r: seq<bool>)
    ensures |r| == |vals|
  {
    seq(|vals|, i requires 0 <= i < |vals| => IsTrue(vals[i]))
  }

  lemma FlagsPrefix(vals: seq<DBVal>, p: nat, now: seq<bool>)
    requires p < |vals| && now == Flags(vals)[..p]
    ensures now + [IsTrue(vals[p])] == Flags(vals)[..p + 1]
    ensures |Indices(now + [IsTrue(vals[p])])| == if IsTrue(vals[p]) then |Indices(now)| + 1 else |Indices(now)|
  {
    var next := now + [IsTrue(vals[p])];
    assert next[..|next| - 1] == now;
  }

  lemma FlagsAt(vals: seq<DBVal>, p: nat)
    requires p < |vals|
    ensures Flags(vals)[p] == IsTrue(vals[p])
  {
  }

  lemma AllSize(n: nat)
    ensures |All(n)| == n && |Indices(All(n))| == n
  {
    AllKept(All(n));
  }

  lemma AllFlags(flags: seq<bool>)
    ensures flags[..|flags|] == flags
  {
  }

  // ---------------------------------------------------------------- the block

  ghost predicate ColumnsOK(columns: seq<Option<seq<DBVal>>>, n: nat) {
    forall c :: 0 <= c < |columns| && columns[c].Some? ==> |columns[c].value| == n
  }

  /** Row i; a column that was not queried reads as NULL. */
  function RowOfColumns(columns: seq<Option<seq<DBVal>>>, n: nat, i: nat): Row
    requires ColumnsOK(columns, n) && i < n
  {
    seq(|columns|, c requires 0 <= c < |columns| => if columns[c].None? then Null else columns[c].value[i])
  }

  function RowsOfColumns(columns: seq<Option<seq<DBVal>>>, n: nat): (r: seq<Row>)
    requires ColumnsOK(columns, n)
    ensures |r| == n
  {
    seq(n, i requires 0 <= i < n => RowOfColumns(columns, n, i))
  }

  class BlockValues {
    var recordSize: nat
    var resultSize: nat
    var resultIdxVec: seq<nat>
    /** One flag a row, or empty when nothing has been filtered yet. */
    var filterVec: seq<bool>
    var columnVec: seq<Option<seq<DBVal>>>
    /** The filter from which resultIdxVec was built. */
    ghost var cached: seq<bool>

    ghost function Keep(): seq<bool>
      reads this
    {
      if filterVec == [] then All(recordSize) else filterVec
    }

    ghost predicate Valid()
      reads this
    {
      && (filterVec == [] || |filterVec| == recordSize)
      && resultSize == |Indices(Keep())|
      && ColumnsOK(columnVec, recordSize)
    }

    /** The cache, if any, was built from a filter of the same rows that the present filter
        only narrows. */
    ghost predicate CacheOK()
      requires Valid()
      reads this
    {
      resultIdxVec == [] || (resultIdxVec == Indices(cached) && Implies(Keep(), cached))
    }

    ghost function Rows(): (r: seq<Row>)
      requires Valid()
      reads this
      ensures |r| == recordSize == |Keep()|
    {
      RowsOfColumns(columnVec, recordSize)
    }

    /** The rows no condition has excluded. */
    ghost function Survivors(): (r: seq<Row>)
      requires Valid()
      reads this
      ensures |r| == resultSize
    {
      KeptAt(Rows(), Keep());
      Kept(Rows(), Keep())
    }

    lemma Unfiltered()
      requires Valid() && filterVec == []
      ensures Survivors() == RowsOfColumns(columnVec, recordSize)
    {
      AllKept(Rows());
    }

    constructor (columnSize: nat)
      ensures Valid() && CacheOK() && recordSize == 0 && filterVec == [] && resultIdxVec == []
      ensures columnVec == seq(columnSize, _ => None)
    {
      recordSize, resultSize, resultIdxVec, filterVec, cached := 0, 0, [], [], [];
      columnVec := seq(columnSize, _ => None);
    }

    /** A block with its record size and all columns set. */
    constructor Filled(columns: seq<Option<seq<DBVal>>>, n: nat)
      requires ColumnsOK(columns, n)
      ensures Valid() && CacheOK() && recordSize == n && filterVec == [] && columnVec == columns
    {
      AllSize(n);
      recordSize, resultSize, resultIdxVec, filterVec, cached := n, n, [], [], [];
      columnVec := columns;
    }

    method SetRecordSize(n: nat)
      requires ColumnsOK(columnVec, n)
      modifies this
      ensures Valid() && recordSize == n && filterVec == []
      ensures columnVec == old(columnVec) && resultIdxVec == old(resultIdxVec)
      ensures resultIdxVec == [] ==> CacheOK()
    {
      AllSize(n);
      recordSize, resultSize, filterVec := n, n, [];
    }

    method SetColumnValues(c: nat, vals: seq<DBVal>)
      requires Valid() && c < |columnVec| && |vals| == recordSize
      modifies this`columnVec
      ensures Valid() && (old(CacheOK()) ==> CacheOK()) && columnVec == old(columnVec)[c := Some(vals)]
    {
      columnVec := columnVec[c := Some(vals)];
    }

    /** Refused exactly when there is not one value for each survivor; otherwise a row
        survives if it did before and its value is TRUE. */
    method MergeFilter(vals: seq<DBVal>) returns (ok: bool)
      requires Valid()
      modifies this`filterVec, this`resultSize
      ensures Valid() && (old(CacheOK()) ==> CacheOK())
      ensures ok == (|vals| == old(resultSize))
      ensures Keep() == if ok then Merge(old(Keep()), Flags(vals)) else old(Keep())
      ensures |vals| == |old(Survivors())| <==> ok
      ensures Survivors() == if ok then Kept(old(Survivors()), Flags(vals)) else old(Survivors())
    {
      hide Merge, Indices, Kept, Merging, Flags, All, RowsOfColumns, IsTrue, ColumnsOK;
      ghost var keep, flags := Keep(), Flags(vals);
      KeptAt(Rows(), keep);
      if |vals| != resultSize {
        return false;
      }
      MergeKeeps(Rows(), keep, flags);
      var p: nat := 0;
      var tmpResultSize: nat := 0;
      if filterVec == [] {
        AllSize(recordSize);
        MergeAll(flags);
        while p < |vals|
          invariant p <= |vals| && filterVec == flags[..p] && tmpResultSize == |Indices(filterVec)|
        {
          FlagsPrefix(vals, p, filterVec);
          filterVec := filterVec + [IsTrue(vals[p])];
          if IsTrue(vals[p]) {
            tmpResultSize := tmpResultSize + 1;
          }
          p := p + 1;
        }
        AllFlags(flags);
      } else {
        var q: nat := 0;
        MergeStart(keep, flags);
        while p < |vals|
          invariant p <= |vals| && |filterVec| == recordSize && Merging(keep, flags, filterVec, q, p, tmpResultSize)
        {
          while q < |filterVec| && !filterVec[q]
            invariant |filterVec| == recordSize && Merging(keep, flags, filterVec, q, p, tmpResultSize)
          {
            MergeSkip(keep, flags, filterVec, q, p, tmpResultSize);
            q := q + 1;
          }
          MergeMore(keep, flags, filterVec, q, p, tmpResultSize);
          if q >= |filterVec| {
            assert false;
          }
          FlagsAt(vals, p);
          MergeTake(keep, flags, filterVec, q, p, tmpResultSize);
          if IsTrue(vals[p]) {
            tmpResultSize := tmpResultSize + 1;
            assert filterVec[q := true] == filterVec;
          } else {
            filterVec := filterVec[q := false];
          }
          p, q := p + 1, q + 1;
        }
        MergeDone(keep, flags, filterVec, q, p, tmpResultSize);
      }
      resultSize := tmpResultSize;
      return true;
    }

    /** The cached positions are positions of this block. */
    ghost predicate CacheInside()
      reads this
    {
      forall j :: 0 <= j < |resultIdxVec| ==> resultIdxVec[j] < recordSize
    }

    /** The rows that looking up one survivor after the other gives. */
    ghost function LookedUp(): (r: seq<Row>)
      requires Valid() && CacheInside()
      reads this
      ensures |r| == resultSize
    {
      AllSize(recordSize);
      Looked(Rows(), filterVec, resultIdxVec)
    }

    /** Builds the cache of surviving positions; it is rebuilt only when its size does not
        match the number of survivors. */
    method GetRecordValue(k: nat) returns (r: Option<Row>)
      requires Valid() && CacheInside()
      modifies this`resultIdxVec, this`cached
      ensures Valid() && CacheInside() && Survivors() == old(Survivors())
      ensures r == if k < resultSize then Some(old(LookedUp()[k])) else None
      ensures k < resultSize && filterVec != [] && |old(resultIdxVec)| == resultSize ==> resultIdxVec == old(resultIdxVec)
      ensures k < resultSize && filterVec != [] && |old(resultIdxVec)| != resultSize ==>
                resultIdxVec == Indices(filterVec)
      ensures k < resultSize && (old(CacheOK()) || |old(resultIdxVec)| != resultSize) ==>
                r.value == Survivors()[k]
      ensures old(CacheOK()) ==> CacheOK()
    {
      hide Indices, Kept, All, RowOfColumns, ColumnsOK, Implies;
      KeptAt(Rows(), Keep());
      if k >= resultSize {
        return None;
      }
      var valIdx := k;
      if filterVec != [] {
        if |resultIdxVec| != resultSize {
          resultIdxVec := Scan(filterVec);
          cached := filterVec;
          ImpliesItself(cached);
        } else if CacheOK() {
          SameSize(Keep(), cached);
        }
        valIdx := resultIdxVec[k];
      } else {
        AllKept(Rows());
      }
      var row := ReadRow(columnVec, recordSize, valIdx);
      r := Some(row);
    }
  }

  /** The rows a cache points to. */
  function Picked(rows: seq<Row>, cache: seq<nat>): (r: seq<Row>)
    requires forall k :: 0 <= k < |cache| ==> cache[k] < |rows|
    ensures |r| == |cache|
  {
    seq(|cache|, k requires 0 <= k < |cache| => rows[cache[k]])
  }

  /** What GetRecordValue gives for row after row: without a filter the rows, otherwise those the
      cache points to, if it has one position for each survivor. */
  function Looked(rows: seq<Row>, filter: seq<bool>, cache: seq<nat>): (r: seq<Row>)
    requires (filter == [] || |filter| == |rows|) && forall k :: 0 <= k < |cache| ==> cache[k] < |rows|
    ensures |r| == if filter == [] then |rows| else |Indices(filter)|
  {
    if filter == [] then rows
    else if |cache| == |Indices(filter)| then Picked(rows, cache)
    else KeptAt(rows, filter); Kept(rows, filter)
  }

  /** This is right, whatever the rows are, exactly when nothing is filtered, when the size of the
      cache is not the number of survivors, or when the cache holds their positions. */
  lemma CacheRight(n: nat, filter: seq<bool>, cache: seq<nat>)
    requires (filter == [] || |filter| == n) && forall k :: 0 <= k < |cache| ==> cache[k] < n
    ensures (forall rows: seq<Row> :: |rows| == n ==>
               Looked(rows, filter, cache) == if filter == [] then rows else Kept(rows, filter))
       <==> filter == [] || |cache| != |Indices(filter)| || cache == Indices(filter)
  {
    hide Kept, Indices;
    if filter != [] && |cache| == |Indices(filter)| {
      if cache == Indices(filter) {
        forall rows: seq<Row> | |rows| == n ensures Picked(rows, cache) == Kept(rows, filter) { KeptAt(rows, filter); }
      } else {
        var rows := CacheFails(filter, cache);
        assert |rows| == n && Looked(rows, filter, cache) != Kept(rows, filter);
      }
    }
  }

  lemma CacheFails(keep: seq<bool>, cache: seq<nat>) returns (rows: seq<Row>)
    requires |cache| == |Indices(keep)| && forall k :: 0 <= k < |cache| ==> cache[k] < |keep|
    requires cache != Indices(keep)
    ensures |rows| == |keep| && Picked(rows, cache) != Kept(rows, keep)
  {
    hide Kept, Indices;
    var k :| 0 <= k < |cache| && cache[k] != Indices(keep)[k];
    rows := seq(|keep|, i requires 0 <= i < |keep| => seq(i, _ => Null));
    KeptAt(rows, keep);
    IndicesInside(keep, k);
    assert |Picked(rows, cache)[k]| == cache[k] && |Kept(rows, keep)[k]| == Indices(keep)[k];
  }

  lemma IndicesInside(keep: seq<bool>, k: nat)
    requires k < |Indices(keep)|
    ensures Indices(keep)[k] < |keep|
  {
  }

  lemma ImpliesItself(keep: seq<bool>)
    ensures Implies(keep, keep)
  {
  }

  /** The positions of the set flags. */
  method Scan(filter: seq<bool>) returns (r: seq<nat>)
    ensures r == Indices(filter)
  {
    r := [];
    for idx := 0 to |filter|
      invariant r == Indices(filter[..idx])
    {
      assert filter[..idx + 1][..idx] == filter[..idx];
      if filter[idx] {
        r := r + [idx];
      }
    }
    assert filter[..|filter|] == filter;
  }

  method ReadRow(columns: seq<Option<seq<DBVal>>>, n: nat, i: nat) returns (row: Row)
    requires ColumnsOK(columns, n) && i < n
    ensures row == RowOfColumns(columns, n, i)
  {
    row := [];
    for c := 0 to |columns|
      invariant row == RowOfColumns(columns, n, i)[..c]
    {
      match columns[c]
      case None => row := row + [Null];
      case Some(vals) => row := row + [vals[i]];
    }
  }

  lemma TwoRows(a: DBVal, b: DBVal)
    ensures Indices([true, false]) == [0] && Indices([false, true]) == [1]
    ensures Kept([[a], [b]], [false, true]) == [[b]]
    ensures RowsOfColumns([Some([a, b])], 2) == [[a], [b]]
  {
    assert [true, false][..1] == [true] && [false, true][..1] == [false];
    assert [true][..0] == [] && [false][..0] == [];
    KeptAt([[a], [b]], [false, true]);
    var rows := RowsOfColumns([Some([a, b])], 2);
    assert |rows| == 2 && rows[0] == [a] && rows[1] == [b];
  }

  lemma TwoFlags(a: bool, b: bool)
    ensures Flags([Bool(a), Bool(b)]) == [a, b]
    ensures |Indices(All(2))| == 2 && Merge(All(2), [a, b]) == [a, b]
  {
    MergeAll([a, b]);
  }

  /** Using a block again for other rows keeps the old cache: with one survivor before and
      after, the lookup returns a row that did not survive. */
  method StaleCache() returns (blk: BlockValues, r: Option<Row>)
    ensures blk.Valid() && blk.Survivors() == [[Int64(20)]] && r == Some([Int64(10)])
  {
    hide Indices, Kept, Merge, Flags, All, RowsOfColumns, Implies;
    TwoRows(Int64(10), Int64(20));
    TwoFlags(true, false);
    TwoFlags(false, true);
    blk := new BlockValues(1);
    blk.SetRecordSize(2);
    blk.SetColumnValues(0, [Int64(10), Int64(20)]);
    assert blk.columnVec == [Some([Int64(10), Int64(20)])];
    var ok := blk.MergeFilter([Bool(true), Bool(false)]);
    var first := blk.GetRecordValue(0);
    assert blk.resultIdxVec == [0];
    blk.SetRecordSize(2);
    ok := blk.MergeFilter([Bool(false), Bool(true)]);
    r := blk.GetRecordValue(0);
  }
}
