/** The block index of a partition file: timestamp entries, then one run of column entries per
    non-key field. While a partition is built its index is spilled to a side file in parts,
    each of which is laid out in the same way for the blocks it covers. */
module PartIndex {
  import opened Coding
  import opened CompFormat

  // ---------------------------------------------------------------- concatenation

  function Concat<T>(parts: seq<seq<T>>): seq<T> {
    if parts == [] then [] else Concat(parts[..|parts| - 1]) + parts[|parts| - 1]
  }

  lemma ConcatSnoc<T>(parts: seq<seq<T>>, p: seq<T>)
    ensures Concat(parts + [p]) == Concat(parts) + p
  {
    assert (parts + [p])[..|parts|] == parts;
  }

  lemma NothingToConcat<T>(parts: seq<seq<T>>)
    requires parts == []
    ensures Concat(parts) == []
  {
  }

  lemma {:induction false} ConcatAppend<T>(a: seq<seq<T>>, b: seq<seq<T>>)
    ensures Concat(a + b) == Concat(a) + Concat(b)
  {
    hide Concat;
    if b == [] {
      NothingToConcat(b);
      assert a + b == a;
    } else {
      var init, last := b[..|b| - 1], b[|b| - 1];
      ConcatAppend(a, init);
      ConcatSnoc(a + init, last);
      ConcatSnoc(init, last);
      assert a + b == a + init + [last] && b == init + [last];
    }
  }

  lemma SplitAt<T>(s: seq<T>, i: nat)
    requires i < |s|
    ensures s[..i] + [s[i]] + s[i + 1..] == s
  {
  }

  lemma ConcatAround<T>(a: seq<seq<T>>, p: seq<T>, c: seq<seq<T>>)
    ensures Concat(a + [p] + c) == Concat(a) + p + Concat(c)
  {
    hide Concat;
    ConcatAppend(a + [p], c);
    ConcatSnoc(a, p);
  }

  /** Part i starts where the parts before it end. */
  lemma ConcatPart<T>(parts: seq<seq<T>>, i: nat)
    requires i < |parts|
    ensures Concat(parts) == Concat(parts[..i]) + parts[i] + Concat(parts[i + 1..])
  {
    hide Concat;
    SplitAt(parts, i);
    ConcatAround(parts[..i], parts[i], parts[i + 1..]);
  }

  ghost predicate Uniform<T>(parts: seq<seq<T>>, size: nat) {
    forall i :: 0 <= i < |parts| ==> |parts[i]| == size
  }

  lemma {:induction false} ConcatLength<T>(parts: seq<seq<T>>, size: nat)
    requires Uniform(parts, size)
    ensures |Concat(parts)| == |parts| * size
  {
    if parts != [] {
      ConcatLength(parts[..|parts| - 1], size);
      assert |parts| * size == (|parts| - 1) * size + size;
    }
  }

  /** In parts of equal size, element j of part i stands at i * size + j. */
  lemma ConcatAt<T>(parts: seq<seq<T>>, size: nat, i: nat, j: nat)
    requires Uniform(parts, size) && i < |parts| && j < size
    ensures i * size + j < |Concat(parts)| && Concat(parts)[i * size + j] == parts[i][j]
  {
    ConcatPart(parts, i);
    ConcatLength(parts[..i], size);
  }

  /** Replacing it replaces that element of that part and nothing else. */
  lemma ConcatSet<T>(parts: seq<seq<T>>, size: nat, i: nat, j: nat, x: T)
    requires Uniform(parts, size) && i < |parts| && j < size
    ensures i * size + j < |Concat(parts)|
    ensures Concat(parts[i := parts[i][j := x]]) == Concat(parts)[i * size + j := x]
  {
    hide Concat;
    var now := parts[i := parts[i][j := x]];
    ConcatPart(parts, i);
    ConcatPart(now, i);
    assert now[..i] == parts[..i] && now[i + 1..] == parts[i + 1..];
    ConcatLength(parts[..i], size);
    SetInside(Concat(parts[..i]), parts[i], Concat(parts[i + 1..]), j, x);
  }

  lemma SetInside<T>(a: seq<T>, b: seq<T>, c: seq<T>, j: nat, x: T)
    requires j < |b|
    ensures (a + b + c)[|a| + j := x] == a + b[j := x] + c
  {
  }

  lemma UniformPartAt(parts: seq<Bytes>, size: nat, i: nat)
    requires Uniform(parts, size) && i < |parts|
    ensures At(Concat(parts), i * size, parts[i])
  {
    ConcatPart(parts, i);
    ConcatLength(parts[..i], size);
  }

  // ---------------------------------------------------------------- index layout

  type CmpRow = seq<CmpBlkIdx>

  function Entry(row: CmpRow, f: nat): CmpBlkIdx {
    if f < |row| then row[f] else CmpBlkIdx(0, 0, 0)
  }

  function TsParts(ts: seq<TsBlkIdx>): seq<Bytes> {
    seq(|ts|, i requires 0 <= i < |ts| => TsBytes(ts[i]))
  }

  function TsRun(ts: seq<TsBlkIdx>): (r: Bytes)
    ensures |r| == |ts| * TS_SIZE
  {
    ConcatLength(TsParts(ts), TS_SIZE);
    Concat(TsParts(ts))
  }

  function CmpParts(rows: seq<CmpRow>, f: nat): seq<Bytes> {
    seq(|rows|, i requires 0 <= i < |rows| => CmpBytes(Entry(rows[i], f)))
  }

  /** The entries of field f, block after block. */
  function CmpRun(rows: seq<CmpRow>, f: nat): (r: Bytes)
    ensures |r| == |rows| * CMP_SIZE
  {
    ConcatLength(CmpParts(rows, f), CMP_SIZE);
    Concat(CmpParts(rows, f))
  }

  function RunParts(rows: seq<CmpRow>, k: nat): seq<Bytes> {
    seq(k, f requires 0 <= f < k => CmpRun(rows, f))
  }

  /** The runs of the first k fields. */
  function CmpRuns(rows: seq<CmpRow>, k: nat): (r: Bytes)
    ensures |r| == k * (|rows| * CMP_SIZE)
  {
    ConcatLength(RunParts(rows, k), |rows| * CMP_SIZE);
    Concat(RunParts(rows, k))
  }

  function IndexBytes(ts: seq<TsBlkIdx>, rows: seq<CmpRow>, k: nat): Bytes {
    TsRun(ts) + CmpRuns(rows, k)
  }

  lemma TsRunAppend(a: seq<TsBlkIdx>, b: seq<TsBlkIdx>)
    ensures TsRun(a + b) == TsRun(a) + TsRun(b)
  {
    assert TsParts(a + b) == TsParts(a) + TsParts(b);
    ConcatAppend(TsParts(a), TsParts(b));
  }

  lemma CmpRunAppend(a: seq<CmpRow>, b: seq<CmpRow>, f: nat)
    ensures CmpRun(a + b, f) == CmpRun(a, f) + CmpRun(b, f)
  {
    assert CmpParts(a + b, f) == CmpParts(a, f) + CmpParts(b, f);
    ConcatAppend(CmpParts(a, f), CmpParts(b, f));
  }

  lemma CmpRunSnoc(rows: seq<CmpRow>, row: CmpRow, f: nat)
    ensures CmpRun(rows + [row], f) == CmpRun(rows, f) + CmpBytes(Entry(row, f))
  {
    assert CmpParts(rows + [row], f) == CmpParts(rows, f) + [CmpBytes(Entry(row, f))];
    ConcatSnoc(CmpParts(rows, f), CmpBytes(Entry(row, f)));
  }

  lemma EmptyRun(f: nat)
    ensures CmpRun([], f) == []
  {
  }

  lemma EmptyRuns(rows: seq<CmpRow>)
    ensures CmpRuns(rows, 0) == []
  {
  }

  lemma CmpRunsStep(rows: seq<CmpRow>, k: nat)
    ensures CmpRuns(rows, k + 1) == CmpRuns(rows, k) + CmpRun(rows, k)
  {
    assert RunParts(rows, k + 1) == RunParts(rows, k) + [CmpRun(rows, k)];
    ConcatSnoc(RunParts(rows, k), CmpRun(rows, k));
  }

  /** Where the reader finds the timestamp entry of block b. */
  lemma TsEntryAt(ts: seq<TsBlkIdx>, b: nat)
    requires b < |ts|
    ensures At(TsRun(ts), b * TS_SIZE, TsBytes(ts[b]))
  {
    UniformPartAt(TsParts(ts), TS_SIZE, b);
  }

  /** Index transposition: the entry of field f of block b in the column-major runs. */
  lemma CmpEntryAt(rows: seq<CmpRow>, k: nat, f: nat, b: nat)
    requires f < k && b < |rows|
    ensures At(CmpRuns(rows, k), f * (|rows| * CMP_SIZE) + b * CMP_SIZE, CmpBytes(Entry(rows[b], f)))
  {
    RunAt(rows, k, f);
    UniformPartAt(CmpParts(rows, f), CMP_SIZE, b);
    AtInside(CmpRuns(rows, k), f * (|rows| * CMP_SIZE), CmpRun(rows, f), b * CMP_SIZE, CmpBytes(Entry(rows[b], f)));
  }

  lemma RunAt(rows: seq<CmpRow>, k: nat, f: nat)
    requires f < k
    ensures At(CmpRuns(rows, k), f * (|rows| * CMP_SIZE), CmpRun(rows, f))
  {
    UniformPartAt(RunParts(rows, k), |rows| * CMP_SIZE, f);
  }

  // ---------------------------------------------------------------- spilled parts

  function Sum(nums: seq<nat>): nat {
    if nums == [] then 0 else Sum(nums[..|nums| - 1]) + nums[|nums| - 1]
  }

  lemma {:induction false} SumMonotone(nums: seq<nat>, i: nat)
    requires i <= |nums|
    ensures Sum(nums[..i]) <= Sum(nums)
  {
    if i < |nums| {
      SumMonotone(nums[..|nums| - 1], i);
      assert nums[..|nums| - 1][..i] == nums[..i];
    } else {
      assert nums[..i] == nums;
    }
  }

  lemma SumStep(nums: seq<nat>, i: nat)
    requires i < |nums|
    ensures Sum(nums[..i + 1]) == Sum(nums[..i]) + nums[i] <= Sum(nums)
  {
    SumMonotone(nums, i + 1);
    assert nums[..i + 1][..i] == nums[..i];
  }

  /** The index part of blocks from .. from + n. */
  function Chunk(ts: seq<TsBlkIdx>, rows: seq<CmpRow>, k: nat, from: nat, n: nat): Bytes
    requires from + n <= |ts| == |rows|
  {
    IndexBytes(ts[from..from + n], rows[from..from + n], k)
  }

  /** Bytes of an index of n blocks with k column runs. */
  function IndexSize(k: nat, n: nat): nat {
    (TS_SIZE + CMP_SIZE * k) * n
  }

  lemma IndexSizeSum(k: nat, x: nat, y: nat)
    ensures IndexSize(k, x + y) == IndexSize(k, x) + IndexSize(k, y)
  {
    Distribute(TS_SIZE + CMP_SIZE * k, x, y);
  }

  lemma IndexLength(ts: seq<TsBlkIdx>, rows: seq<CmpRow>, k: nat)
    requires |ts| == |rows|
    ensures |IndexBytes(ts, rows, k)| == IndexSize(k, |ts|)
  {
    RunOffset(k, |ts|);
  }

  lemma IndexIs(file: Bytes, ts: seq<TsBlkIdx>, rows: seq<CmpRow>, k: nat)
    ensures file + TsRun(ts) + CmpRuns(rows, k) == file + IndexBytes(ts, rows, k)
  {
    hide TsRun, CmpRuns;
  }

  lemma NoParts(k: nat)
    ensures Sum([]) == 0 && IndexSize(k, 0) == 0 && TsRun([]) == []
  {
  }

  /** The side file after parts of these sizes were spilled. */
  function SpillBytes(nums: seq<nat>, ts: seq<TsBlkIdx>, rows: seq<CmpRow>, k: nat): Bytes
    requires Sum(nums) <= |ts| == |rows|
  {
    if nums == [] then []
    else
      var init := nums[..|nums| - 1];
      SpillBytes(init, ts, rows, k) + Chunk(ts, rows, k, Sum(init), nums[|nums| - 1])
  }

  lemma ChunkSize(ts: seq<TsBlkIdx>, rows: seq<CmpRow>, k: nat, from: nat, n: nat)
    requires from + n <= |ts| == |rows|
    ensures |Chunk(ts, rows, k, from, n)| == IndexSize(k, n)
  {
    assert k * (n * CMP_SIZE) == CMP_SIZE * k * n;
  }

  lemma {:induction false} SpillSize(nums: seq<nat>, ts: seq<TsBlkIdx>, rows: seq<CmpRow>, k: nat)
    requires Sum(nums) <= |ts| == |rows|
    ensures |SpillBytes(nums, ts, rows, k)| == IndexSize(k, Sum(nums))
  {
    hide Chunk;
    if nums != [] {
      var init, n := nums[..|nums| - 1], nums[|nums| - 1];
      SpillSize(init, ts, rows, k);
      ChunkSize(ts, rows, k, Sum(init), n);
      Distribute(TS_SIZE + CMP_SIZE * k, Sum(init), n);
    }
  }

  lemma Distribute(a: nat, x: nat, y: nat)
    ensures a * (x + y) == a * x + a * y
  {
  }

  /** Spilling everything that is left. */
  lemma SpillRest(nums: seq<nat>, ts: seq<TsBlkIdx>, rows: seq<CmpRow>, k: nat)
    requires Sum(nums) <= |ts| == |rows|
    ensures var all := nums + [|ts| - Sum(nums)];
            Sum(all) == |ts|
            && SpillBytes(all, ts, rows, k)
            == SpillBytes(nums, ts, rows, k) + IndexBytes(ts[Sum(nums)..], rows[Sum(nums)..], k)
  {
    hide IndexBytes;
    var n := |ts| - Sum(nums);
    assert (nums + [n])[..|nums|] == nums;
    assert ts[Sum(nums)..Sum(nums) + n] == ts[Sum(nums)..] && rows[Sum(nums)..Sum(nums) + n] == rows[Sum(nums)..];
  }

  /** Part i of the side file. */
  lemma {:induction false} SpillAt(nums: seq<nat>, ts: seq<TsBlkIdx>, rows: seq<CmpRow>, k: nat, i: nat)
    requires Sum(nums) <= |ts| == |rows| && i < |nums|
    ensures Sum(nums[..i]) + nums[i] <= Sum(nums)
    ensures At(SpillBytes(nums, ts, rows, k), IndexSize(k, Sum(nums[..i])),
               Chunk(ts, rows, k, Sum(nums[..i]), nums[i]))
  {
    hide Chunk, At, IndexSize;
    var init := nums[..|nums| - 1];
    var last := Chunk(ts, rows, k, Sum(init), nums[|init|]);
    SumStep(nums, i);
    if i < |init| {
      SpillAt(init, ts, rows, k, i);
      assert init[..i] == nums[..i];
      AtStays(SpillBytes(init, ts, rows, k), last,
              IndexSize(k, Sum(nums[..i])), Chunk(ts, rows, k, Sum(nums[..i]), nums[i]));
    } else {
      SpillSize(init, ts, rows, k);
      AtEnd(SpillBytes(init, ts, rows, k), last);
    }
  }

  /** What is spilled does not depend on blocks added later. */
  lemma {:induction false} SpillStays(nums: seq<nat>, ts: seq<TsBlkIdx>, rows: seq<CmpRow>, k: nat, ts': seq<TsBlkIdx>, rows': seq<CmpRow>)
    requires Sum(nums) <= |ts| == |rows| && |ts'| == |rows'|
    requires Sum(nums) <= |ts'| && ts'[..Sum(nums)] == ts[..Sum(nums)] && rows'[..Sum(nums)] == rows[..Sum(nums)]
    ensures SpillBytes(nums, ts', rows', k) == SpillBytes(nums, ts, rows, k)
  {
    if nums != [] {
      var init, n := nums[..|nums| - 1], nums[|nums| - 1];
      var s := Sum(init);
      SliceSame(rows, rows', s, n);
      SliceSame(ts, ts', s, n);
      SpillStays(init, ts, rows, k, ts', rows');
    }
  }

  lemma SliceSame<T>(a: seq<T>, b: seq<T>, s: nat, n: nat)
    requires s + n <= |a| && s + n <= |b| && a[..s + n] == b[..s + n]
    ensures a[..s] == b[..s] && a[s..s + n] == b[s..s + n]
  {
    assert a[..s] == a[..s + n][..s] && b[..s] == b[..s + n][..s];
    assert a[s..s + n] == a[..s + n][s..] && b[s..s + n] == b[..s + n][s..];
  }

  /** Reading the timestamp entries of part i, blocks s .. s + n, back from the side file. */
  lemma SpilledTs(nums: seq<nat>, ts: seq<TsBlkIdx>, rows: seq<CmpRow>, k: nat, i: nat, s: nat, n: nat)
    requires Sum(nums) <= |ts| == |rows| && i < |nums| && s == Sum(nums[..i]) && n == nums[i] && s + n <= |ts|
    ensures ReadAt(SpillBytes(nums, ts, rows, k), IndexSize(k, s), TS_SIZE * n) == TsRun(ts[s..s + n])
  {
    hide SpillBytes, TsRun, CmpRuns, Sum, IndexSize, At;
    SpillAt(nums, ts, rows, k, i);
    var run, rest := TsRun(ts[s..s + n]), CmpRuns(rows[s..s + n], k);
    assert Chunk(ts, rows, k, s, n) == [] + run + rest;
    AtPart(SpillBytes(nums, ts, rows, k), IndexSize(k, s), [], run, rest);
    AtIsRead(SpillBytes(nums, ts, rows, k), IndexSize(k, s), run);
  }

  /** Reading the run of field f of that part. */
  lemma SpilledRun(nums: seq<nat>, ts: seq<TsBlkIdx>, rows: seq<CmpRow>, k: nat, i: nat, s: nat, cols: seq<CmpRow>, f: nat)
    requires Sum(nums) <= |ts| == |rows| && i < |nums| && s == Sum(nums[..i]) && s + nums[i] <= |ts|
    requires cols == rows[s..s + nums[i]] && f < k
    ensures ReadAt(SpillBytes(nums, ts, rows, k), IndexSize(k, s) + IndexSize(f, |cols|), CMP_SIZE * |cols|) == CmpRun(cols, f)
  {
    hide SpillBytes, CmpRun, Sum, IndexSize, At, IndexBytes, ReadAt;
    SpillAt(nums, ts, rows, k, i);
    var file, tss := SpillBytes(nums, ts, rows, k), ts[s..s + nums[i]];
    ChunkRun(tss, cols, k, f, |cols|);
    AtInside(file, IndexSize(k, s), IndexBytes(tss, cols, k), IndexSize(f, |cols|), CmpRun(cols, f));
    AtIsRead(file, IndexSize(k, s) + IndexSize(f, |cols|), CmpRun(cols, f));
  }

  lemma AtIsRead(file: Bytes, pos: nat, bytes: Bytes)
    requires At(file, pos, bytes)
    ensures ReadAt(file, pos, |bytes|) == bytes
  {
  }

  lemma ChunkRun(ts: seq<TsBlkIdx>, rows: seq<CmpRow>, k: nat, f: nat, n: nat)
    requires n == |ts| == |rows| && f < k
    ensures At(IndexBytes(ts, rows, k), IndexSize(f, n), CmpRun(rows, f))
  {
    hide TsRun, CmpRuns, CmpRun, IndexSize, At;
    var run, runs := TsRun(ts), CmpRuns(rows, k);
    assert run + runs == run + runs + [];
    RunAt(rows, k, f);
    AtEnd(run, runs);
    RunOffset(f, n);
    AtInside(run + runs, |run|, runs, f * (n * CMP_SIZE), CmpRun(rows, f));
  }

  lemma RunOffset(f: nat, n: nat)
    ensures IndexSize(f, n) == n * TS_SIZE + f * (n * CMP_SIZE)
  {
    assert CMP_SIZE * f * n == f * (n * CMP_SIZE);
    Distribute(n, TS_SIZE, CMP_SIZE * f);
  }
}
