/** Where a writer cuts rows into blocks: as late as possible, so that the rows alone decide it. */
module PartCuts {
  import opened Coding
  import opened DbValue
  import opened ColumnCodec
  import opened CompFormat
  import opened PartFile
  import opened CompDataParts
  import opened PartQueries

  // ---------------------------------------------------------------- a block only gets fuller

  lemma {:induction false} EncodeGrows(t: FieldType, vals: seq<DBVal>, n: nat)
    requires n <= |vals|
    ensures |EncodeColumn(t, vals[..n])| <= |EncodeColumn(t, vals)|
  {
    if n == |vals| {
      assert vals[..n] == vals;
    } else {
      hide Token;
      var prev := vals[..|vals| - 1];
      EncodeGrows(t, prev, n);
      assert prev[..n] == vals[..n];
    }
  }

  lemma FullGrows(schema: seq<FieldType>, rows: seq<Row>, n: nat)
    requires n <= |rows| && Full(schema, rows[..n])
    ensures Full(schema, rows)
  {
    hide EncodeColumn;
    if |rows| < 8192 {
      var f :| TSTAMP_INDEX <= f < |schema| && |EncodeColumn(schema[f], Column(rows[..n], f))| >= 490 * 1024;
      assert Column(rows[..n], f) == Column(rows, f)[..n];
      EncodeGrows(schema[f], Column(rows, f), n);
    }
  }

  // ---------------------------------------------------------------- the cut is unique

  lemma FirstBlock(blocks: seq<Block>)
    requires blocks != []
    ensures RowsOf(blocks) == blocks[0].rows + RowsOf(blocks[1..])
  {
    hide RowsOf;
    assert blocks == [blocks[0]] + blocks[1..];
    RowsOfAppend([blocks[0]], blocks[1..]);
    OneBlock(blocks[0]);
  }

  lemma SamePrefix<T>(x: seq<T>, r: seq<T>, y: seq<T>, t: seq<T>)
    requires x + r == y + t && |x| <= |y|
    ensures y[..|x|] == x
  {
    assert (x + r)[..|x|] == x && (y + t)[..|x|] == y[..|x|];
  }

  lemma SecondBlock(blocks: seq<Block>)
    requires NonEmpty(blocks) && blocks != [] && |RowsOf(blocks)| > |blocks[0].rows|
    ensures |blocks| > 1 && RowsOf(blocks)[|blocks[0].rows|] == blocks[1].rows[0]
  {
    hide RowsOf;
    FirstBlock(blocks);
    if |blocks| == 1 { NoBlocks(blocks[1..]); }
    FirstBlock(blocks[1..]);
  }

  lemma NotFullBefore(schema: seq<FieldType>, rows: seq<Row>, n: nat)
    requires NotLate(schema, rows) && n < |rows|
    ensures !Full(schema, rows[..n])
  {
    hide Full;
    if Full(schema, rows[..n]) {
      assert rows[..|rows| - 1][..n] == rows[..n];
      FullGrows(schema, rows[..|rows| - 1], n);
    }
  }

  /** The first block of one cut cannot end before that of another one does. */
  lemma NotShorter(schema: seq<FieldType>, a: seq<Block>, b: seq<Block>)
    requires CutRight(schema, a) && CutRight(schema, b) && NonEmpty(a) && NonEmpty(b) && Owned(a) && Owned(b)
    requires a != [] && b != [] && RowsOf(a) == RowsOf(b)
    ensures |a[0].rows| >= |b[0].rows|
  {
    hide RowsOf, Full, RowDev, NotLate;
    FirstBlock(a);
    FirstBlock(b);
    var n := |a[0].rows|;
    if n < |b[0].rows| {
      SecondBlock(a);
      SamePrefix(a[0].rows, RowsOf(a[1..]), b[0].rows, RowsOf(b[1..]));
      assert a[1].rows[0] == b[0].rows[n] && a[0].rows[0] == b[0].rows[0];
      assert a[0].devId == a[1].devId;
      NotFullBefore(schema, b[0].rows, n);
    }
  }

  lemma TailCut(schema: seq<FieldType>, blocks: seq<Block>)
    requires CutRight(schema, blocks) && NonEmpty(blocks) && Owned(blocks) && blocks != []
    ensures CutRight(schema, blocks[1..]) && NonEmpty(blocks[1..]) && Owned(blocks[1..])
  {
    hide Full, NotLate;
    var tail := blocks[1..];
    assert forall b :: 0 <= b < |tail| ==> tail[b] == blocks[b + 1];
  }

  /** There is one way to cut rows into blocks that are neither closed too early nor too late. */
  lemma {:induction false} CutUnique(schema: seq<FieldType>, a: seq<Block>, b: seq<Block>)
    requires CutRight(schema, a) && CutRight(schema, b) && NonEmpty(a) && NonEmpty(b) && Owned(a) && Owned(b)
    requires RowsOf(a) == RowsOf(b)
    ensures a == b
  {
    hide RowsOf, CutRight;
    if a == [] || b == [] {
      NoBlocks([]);
      BlockCount(a);
      BlockCount(b);
    } else {
      NotShorter(schema, a, b);
      NotShorter(schema, b, a);
      FirstBlock(a);
      FirstBlock(b);
      var n := |a[0].rows|;
      assert a[0].rows == RowsOf(a)[..n] && b[0].rows == RowsOf(b)[..n];
      assert RowsOf(a[1..]) == RowsOf(a)[n..] && RowsOf(b[1..]) == RowsOf(b)[n..];
      assert a[0] == b[0] by { assert a[0].rows[0] == b[0].rows[0]; }
      TailCut(schema, a);
      TailCut(schema, b);
      CutUnique(schema, a[1..], b[1..]);
      assert a == [a[0]] + a[1..] && b == [b[0]] + b[1..];
    }
  }

  // ---------------------------------------------------------------- the number of blocks

  /** No 8192 rows in a row fill a column up to 490 KB. */
  ghost predicate Slim(schema: seq<FieldType>, rows: seq<Row>) {
    forall i, j, f :: 0 <= i <= j <= |rows| && j - i <= 8192 && TSTAMP_INDEX <= f < |schema| ==>
      |EncodeColumn(schema[f], Column(rows[i..j], f))| < 490 * 1024
  }

  /** A block that is followed by one of the same device has 8192 rows. */
  ghost predicate FullRows(blocks: seq<Block>) {
    && (forall b :: 0 <= b < |blocks| ==> 0 < |blocks[b].rows| <= 8192)
    && (forall b, c :: 0 <= b && c == b + 1 < |blocks| && blocks[b].devId == blocks[c].devId ==> |blocks[b].rows| == 8192)
  }

  lemma BlockSlice(blocks: seq<Block>, b: nat)
    requires b < |blocks|
    ensures var i := |RowsOf(blocks[..b])|;
            i + |blocks[b].rows| <= |RowsOf(blocks)| && RowsOf(blocks)[i..i + |blocks[b].rows|] == blocks[b].rows
  {
    hide RowsOf;
    RowsOfSnoc(blocks[..b], blocks[b]);
    assert blocks[..b + 1] == blocks[..b] + [blocks[b]];
    RowsOfAppend(blocks[..b + 1], blocks[b + 1..]);
    assert blocks == blocks[..b + 1] + blocks[b + 1..];
  }

  lemma SlimBlocks(schema: seq<FieldType>, blocks: seq<Block>)
    requires CutRight(schema, blocks) && Slim(schema, RowsOf(blocks))
    requires forall b :: 0 <= b < |blocks| ==> 0 < |blocks[b].rows| <= 8192
    ensures FullRows(blocks)
  {
    hide RowsOf, EncodeColumn, Column;
    forall b, c | 0 <= b && c == b + 1 < |blocks| && blocks[b].devId == blocks[c].devId ensures |blocks[b].rows| == 8192 {
      var i := |RowsOf(blocks[..b])|;
      BlockSlice(blocks, b);
      assert RowsOf(blocks)[i..i + |blocks[b].rows|] == blocks[b].rows;
      assert Full(schema, blocks[b].rows);
    }
  }

  /** The blocks of one device. */
  function BlocksOf(blocks: seq<Block>, devId: Int64): nat {
    if blocks == [] then 0
    else BlocksOf(blocks[..|blocks| - 1], devId) + if blocks[|blocks| - 1].devId == devId then 1 else 0
  }

  lemma {:induction false} NoneOfDevice(blocks: seq<Block>, devId: Int64)
    requires Owned(blocks) && forall b :: 0 <= b < |blocks| ==> blocks[b].devId != devId
    ensures BlocksOf(blocks, devId) == 0 && DeviceRows(RowsOf(blocks), devId) == []
  {
    hide DeviceRows, RowsOf;
    DeviceBlocks(blocks, devId, false);
    if blocks != [] { NoneOfDevice(blocks[..|blocks| - 1], devId); }
  }

  lemma InitCut(blocks: seq<Block>)
    requires FullRows(blocks) && Owned(blocks) && Grouped(DevsOf(blocks)) && blocks != []
    ensures var init := blocks[..|blocks| - 1]; FullRows(init) && Owned(init) && Grouped(DevsOf(init))
  {
    var init := blocks[..|blocks| - 1];
    assert forall b :: 0 <= b < |init| ==> init[b] == blocks[b] && DevsOf(init)[b] == DevsOf(blocks)[b];
  }

  /** If the block before the last one belongs to another device, no earlier block belongs to the
      device of the last one. */
  lemma FirstOfDevice(blocks: seq<Block>)
    requires Grouped(DevsOf(blocks)) && |blocks| > 1 && blocks[|blocks| - 2].devId != blocks[|blocks| - 1].devId
    ensures forall b :: 0 <= b < |blocks| - 1 ==> blocks[b].devId != blocks[|blocks| - 1].devId
  {
    var devs, n := DevsOf(blocks), |blocks|;
    forall b | 0 <= b < n - 1 ensures blocks[b].devId != blocks[n - 1].devId {
      assert devs[b] == blocks[b].devId && devs[n - 1] == blocks[n - 1].devId && devs[n - 2] == blocks[n - 2].devId;
    }
  }

  lemma {:induction false} DeviceBlockCount(blocks: seq<Block>, devId: Int64)
    requires FullRows(blocks) && Owned(blocks) && Grouped(DevsOf(blocks))
    ensures var n, c := |DeviceRows(RowsOf(blocks), devId)|, BlocksOf(blocks, devId);
            && 8192 * c - 8192 < n <= 8192 * c
            && (blocks != [] && blocks[|blocks| - 1].devId == devId && |blocks[|blocks| - 1].rows| == 8192 ==> n == 8192 * c)
  {
    hide DeviceRows, RowsOf, Grouped, Owned, FullRows;
    if blocks == [] {
      NoBlocks(blocks);
      NoDeviceRows(devId);
    } else {
      var init, last := blocks[..|blocks| - 1], blocks[|blocks| - 1];
      assert blocks == init + [last];
      InitCut(blocks);
      RowsOfSnoc(init, last);
      DeviceRowsAppend(RowsOf(init), last.rows, devId);
      LastRows(blocks, devId);
      DeviceBlockCount(init, devId);
      if last.devId == devId && init != [] {
        if init[|init| - 1].devId != devId {
          FirstOfDevice(blocks);
          NoneOfDevice(init, devId);
        } else {
          BeforeLast(blocks);
        }
      } else if init == [] {
        NoBlocks(init);
        NoDeviceRows(devId);
      }
    }
  }

  lemma LastRows(blocks: seq<Block>, devId: Int64)
    requires FullRows(blocks) && Owned(blocks) && blocks != []
    ensures var last := blocks[|blocks| - 1];
            DeviceRows(last.rows, devId) == (if last.devId == devId then last.rows else []) && 0 < |last.rows| <= 8192
  {
    var last := blocks[|blocks| - 1];
    DeviceRowsSame(last.rows, last.devId, devId);
  }

  lemma BeforeLast(blocks: seq<Block>)
    requires FullRows(blocks) && |blocks| > 1 && blocks[|blocks| - 2].devId == blocks[|blocks| - 1].devId
    ensures |blocks[|blocks| - 2].rows| == 8192
  {
  }

  /** The sum over devices of their rows divided by 8192, rounded up. */
  function BlocksFor(devs: seq<Int64>, rows: seq<Row>): nat {
    if devs == [] then 0
    else BlocksFor(devs[..|devs| - 1], rows) + (|DeviceRows(rows, devs[|devs| - 1])| + 8191) / 8192
  }

  function BlocksOfAll(devs: seq<Int64>, blocks: seq<Block>): nat {
    if devs == [] then 0 else BlocksOfAll(devs[..|devs| - 1], blocks) + BlocksOf(blocks, devs[|devs| - 1])
  }

  ghost predicate Different(devs: seq<Int64>) {
    forall i, j :: 0 <= i < j < |devs| ==> devs[i] != devs[j]
  }

  lemma {:induction false} OneMore(devs: seq<Int64>, blocks: seq<Block>, blk: Block)
    requires Different(devs)
    ensures BlocksOfAll(devs, blocks + [blk]) == BlocksOfAll(devs, blocks) + if blk.devId in devs then 1 else 0
  {
    if devs != [] {
      OneMore(devs[..|devs| - 1], blocks, blk);
      assert (blocks + [blk])[..|blocks|] == blocks;
      assert devs == devs[..|devs| - 1] + [devs[|devs| - 1]];
    }
  }

  lemma {:induction false} NoneAtAll(devs: seq<Int64>)
    ensures BlocksOfAll(devs, []) == 0
  {
    if devs != [] { NoneAtAll(devs[..|devs| - 1]); }
  }

  lemma {:induction false} AllBlocks(devs: seq<Int64>, blocks: seq<Block>)
    requires Different(devs) && forall b :: 0 <= b < |blocks| ==> blocks[b].devId in devs
    ensures BlocksOfAll(devs, blocks) == |blocks|
  {
    if blocks == [] {
      NoneAtAll(devs);
    } else {
      var init, last := blocks[..|blocks| - 1], blocks[|blocks| - 1];
      AllBlocks(devs, init);
      OneMore(devs, init, last);
      assert blocks == init + [last];
    }
  }

  lemma {:induction false} EachDevice(devs: seq<Int64>, blocks: seq<Block>)
    requires FullRows(blocks) && Owned(blocks) && Grouped(DevsOf(blocks))
    ensures BlocksFor(devs, RowsOf(blocks)) == BlocksOfAll(devs, blocks)
  {
    hide DeviceRows, RowsOf, BlocksOf, Grouped, Owned, FullRows;
    if devs != [] {
      EachDevice(devs[..|devs| - 1], blocks);
      DeviceBlockCount(blocks, devs[|devs| - 1]);
    }
  }

  lemma DevicesListed(blocks: seq<Block>, devs: seq<Int64>)
    requires Owned(blocks) && NonEmpty(blocks)
    requires forall i :: 0 <= i < |RowsOf(blocks)| ==> RowDev(RowsOf(blocks)[i]) in devs
    ensures forall b :: 0 <= b < |blocks| ==> blocks[b].devId in devs
  {
    hide RowsOf, RowDev;
    forall b | 0 <= b < |blocks| ensures blocks[b].devId in devs {
      BlockRow(blocks, b);
      assert RowDev(blocks[b].rows[0]) == blocks[b].devId;
    }
  }

  /** Rows grouped by device, with columns that stay small, take as many blocks as the devices
      need for their rows, 8192 to a block. */
  lemma BlockNumber(schema: seq<FieldType>, blocks: seq<Block>, devs: seq<Int64>)
    requires CutRight(schema, blocks) && Owned(blocks) && Slim(schema, RowsOf(blocks)) && RowsGrouped(RowsOf(blocks))
    requires forall b :: 0 <= b < |blocks| ==> 0 < |blocks[b].rows| <= 8192
    requires Different(devs) && forall i :: 0 <= i < |RowsOf(blocks)| ==> RowDev(RowsOf(blocks)[i]) in devs
    ensures |blocks| == BlocksFor(devs, RowsOf(blocks))
  {
    hide RowsOf, CutRight, Slim, RowsGrouped, RowDev;
    assert NonEmpty(blocks);
    SlimBlocks(schema, blocks);
    GroupedBlocks(blocks);
    DevicesListed(blocks, devs);
    EachDevice(devs, blocks);
    AllBlocks(devs, blocks);
  }
}
