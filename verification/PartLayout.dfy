/** Where the writer of a partition has put what it wrote so far: behind the file's own meta data
    one column after the other, without gaps, each column once (storage/comp_part_builder.cpp). */
module PartLayout {
  import opened Coding
  import opened DbValue
  import opened CompFormat
  import opened PartIndex
  import opened PartFile

  function PayloadsOf(env: Env, schema: seq<FieldType>, blocks: seq<Block>, keys: seq<Key>): Bytes {
    if keys == [] then []
    else PayloadsOf(env, schema, blocks, keys[..|keys| - 1]) + PayloadOf(env, schema, blocks, keys[|keys| - 1])
  }

  /** The columns that are in the file when Sync has come to column f of block b: all
      timestamps, the other columns of the first `placed` blocks, and what Sync has written. */
  predicate InFile(fieldCnt: nat, blockCnt: nat, placed: nat, f: nat, b: nat, k: Key) {
    && k.blk < blockCnt
    && (|| k.field == TSTAMP_INDEX
        || (DATA_COLUMN <= k.field < fieldCnt
            && (k.blk < placed || k.field < DATA_COLUMN + f || (k.field == DATA_COLUMN + f && k.blk < b))))
  }

  ghost predicate Once(keys: seq<Key>) {
    forall i, j :: 0 <= i < j < |keys| ==> keys[i] != keys[j]
  }

  /** The file is the meta data and then the payloads in the order `written`, in which no column
      occurs twice; every index entry has the offset of its payload. */
  ghost predicate WrittenOK(env: Env, schema: seq<FieldType>, meta: Bytes, file: Bytes, blocks: seq<Block>, ts: seq<TsBlkIdx>,
                            rows: seq<CmpRow>, written: seq<Key>, placed: nat, f: nat, b: nat)
  {
    && file == meta + PayloadsOf(env, schema, blocks, written)
    && (forall i :: 0 <= i < |written| ==>
          PosOf(ts, rows, written[i]) == |meta| + |PayloadsOf(env, schema, blocks, written[..i])|)
    && (forall k :: k in written <==> InFile(|schema|, |blocks|, placed, f, b, k))
    && Once(written)
  }

  /** What stands between the columns and the index: a header that gives the number of zeros
      behind it. */
  function PadBytes(env: Env, n: nat): (r: Bytes)
    ensures |r| == HEAD_SIZE + n
  {
    var head := CmpBlockHead(0, 0, 0, n, 0, 0);
    HeadBytes(head.(crc := env.crc32(HeadPrefix(head)))) + seq(n, _ => 0)
  }

  /** A finished file up to its index: the meta data, every column of every block once and without
      gaps, and no more padding than up to the next 1024-byte boundary. */
  ghost predicate Gapless(env: Env, schema: seq<FieldType>, meta: Bytes, file: Bytes, blocks: seq<Block>, tsPos: nat) {
    exists keys: seq<Key>, n: nat {:trigger PayloadsOf(env, schema, blocks, keys), PadBytes(env, n)} ::
      && Once(keys) && (forall k :: k in keys <==> IsColumn(schema, blocks, k))
      && 0 < n <= 1024 && tsPos == |meta| + |PayloadsOf(env, schema, blocks, keys)| + 20 + n
      && meta + PayloadsOf(env, schema, blocks, keys) + PadBytes(env, n) <= file
  }

  lemma GaplessIs(env: Env, schema: seq<FieldType>, meta: Bytes, data: Bytes, blocks: seq<Block>, ts: seq<TsBlkIdx>,
                  rows: seq<CmpRow>, written: seq<Key>, n: nat, rest: Bytes)
    requires SchemaOK(schema) && WrittenOK(env, schema, meta, data, blocks, ts, rows, written, |blocks|, 0, |blocks|) && 0 < n <= 1024
    ensures Gapless(env, schema, meta, data + PadBytes(env, n) + rest, blocks, |data| + 20 + n)
  {
    hide PayloadsOf, PadBytes, PosOf, Once;
    assert forall k :: k in written <==> IsColumn(schema, blocks, k);
    assert meta + PayloadsOf(env, schema, blocks, written) == data;
    assert data + PadBytes(env, n) <= data + PadBytes(env, n) + rest;
  }

  lemma PayloadsNone(env: Env, schema: seq<FieldType>, blocks: seq<Block>)
    ensures PayloadsOf(env, schema, blocks, []) == []
  {
  }

  lemma PayloadsSnoc(env: Env, schema: seq<FieldType>, blocks: seq<Block>, keys: seq<Key>, k: Key)
    ensures PayloadsOf(env, schema, blocks, keys + [k]) == PayloadsOf(env, schema, blocks, keys) + PayloadOf(env, schema, blocks, k)
  {
    assert (keys + [k])[..|keys|] == keys;
  }

  lemma {:induction false} PayloadsAppend(env: Env, schema: seq<FieldType>, blocks: seq<Block>, a: seq<Key>, b: seq<Key>)
    ensures PayloadsOf(env, schema, blocks, a + b) == PayloadsOf(env, schema, blocks, a) + PayloadsOf(env, schema, blocks, b)
  {
    hide PayloadOf;
    if b == [] {
      assert a + b == a;
    } else {
      PayloadsAppend(env, schema, blocks, a, b[..|b| - 1]);
      assert (a + b)[..|a + b| - 1] == a + b[..|b| - 1];
    }
  }

  /** A block closed later changes no payload. */
  lemma {:induction false} PayloadsStay(env: Env, schema: seq<FieldType>, blocks: seq<Block>, blk: Block, keys: seq<Key>)
    requires forall i :: 0 <= i < |keys| ==> keys[i].blk < |blocks|
    ensures PayloadsOf(env, schema, blocks + [blk], keys) == PayloadsOf(env, schema, blocks, keys)
  {
    hide BlockPayload;
    if keys != [] { PayloadsStay(env, schema, blocks, blk, keys[..|keys| - 1]); }
  }

  lemma MetaFirst(env: Env, schema: seq<FieldType>, meta: Bytes, file: Bytes, blocks: seq<Block>, ts: seq<TsBlkIdx>,
                  rows: seq<CmpRow>, written: seq<Key>, placed: nat)
    requires WrittenOK(env, schema, meta, file, blocks, ts, rows, written, placed, 0, placed)
    ensures meta <= file
  {
    hide PayloadsOf, PosOf, Once;
  }

  /** Nothing but the meta data. */
  lemma WrittenNone(env: Env, schema: seq<FieldType>, meta: Bytes)
    ensures WrittenOK(env, schema, meta, meta, [], [], [], [], 0, 0, 0)
  {
  }

  /** Appending a column, whose entry gets the old end of the file. */
  lemma WrittenNext(env: Env, schema: seq<FieldType>, meta: Bytes, file: Bytes, blocks: seq<Block>, ts: seq<TsBlkIdx>,
                    rows: seq<CmpRow>, ts': seq<TsBlkIdx>, rows': seq<CmpRow>, written: seq<Key>, k: Key)
    requires file == meta + PayloadsOf(env, schema, blocks, written) && Once(written) && k !in written
    requires forall i :: 0 <= i < |written| ==>
               PosOf(ts, rows, written[i]) == |meta| + |PayloadsOf(env, schema, blocks, written[..i])|
    requires forall i :: 0 <= i < |written| ==> PosOf(ts', rows', written[i]) == PosOf(ts, rows, written[i])
    requires PosOf(ts', rows', k) == |file|
    ensures file + PayloadOf(env, schema, blocks, k) == meta + PayloadsOf(env, schema, blocks, written + [k])
    ensures Once(written + [k])
    ensures forall i :: 0 <= i < |written + [k]| ==>
              PosOf(ts', rows', (written + [k])[i]) == |meta| + |PayloadsOf(env, schema, blocks, (written + [k])[..i])|
  {
    hide PayloadsOf, PayloadOf, PosOf;
    PayloadsSnoc(env, schema, blocks, written, k);
    var all := written + [k];
    forall i | 0 <= i < |all|
      ensures PosOf(ts', rows', all[i]) == |meta| + |PayloadsOf(env, schema, blocks, all[..i])|
    {
      if i < |written| { assert all[..i] == written[..i]; } else { assert all[..i] == written; }
    }
  }

  /** One round of Sync's inner loop. */
  lemma WrittenStep(env: Env, schema: seq<FieldType>, meta: Bytes, file: Bytes, blocks: seq<Block>, ts: seq<TsBlkIdx>,
                    rows: seq<CmpRow>, written: seq<Key>, placed: nat, f: nat, b: nat, e: CmpBlkIdx)
    requires WrittenOK(env, schema, meta, file, blocks, ts, rows, written, placed, f, b)
    requires placed <= b < |blocks| == |rows| && DATA_COLUMN + f < |schema| && f < |rows[b]| && e.blkPos == |file|
    ensures WrittenOK(env, schema, meta, file + PayloadOf(env, schema, blocks, Key(b, DATA_COLUMN + f)), blocks, ts,
                      rows[b := rows[b][f := e]], written + [Key(b, DATA_COLUMN + f)], placed, f, b + 1)
  {
    hide PayloadsOf, PayloadOf, Once;
    var k, rows' := Key(b, DATA_COLUMN + f), rows[b := rows[b][f := e]];
    forall i | 0 <= i < |written| ensures PosOf(ts, rows', written[i]) == PosOf(ts, rows, written[i]) {
      assert written[i] in written;
    }
    WrittenNext(env, schema, meta, file, blocks, ts, rows, ts, rows', written, k);
  }

  lemma WrittenNextField(env: Env, schema: seq<FieldType>, meta: Bytes, file: Bytes, blocks: seq<Block>, ts: seq<TsBlkIdx>,
                         rows: seq<CmpRow>, written: seq<Key>, placed: nat, f: nat)
    requires WrittenOK(env, schema, meta, file, blocks, ts, rows, written, placed, f, |blocks|)
    ensures WrittenOK(env, schema, meta, file, blocks, ts, rows, written, placed, f + 1, placed)
  {
    hide PayloadsOf, PosOf, Once;
  }

  lemma WrittenDone(env: Env, schema: seq<FieldType>, meta: Bytes, file: Bytes, blocks: seq<Block>, ts: seq<TsBlkIdx>,
                    rows: seq<CmpRow>, written: seq<Key>, placed: nat)
    requires |schema| > DATA_COLUMN
    requires WrittenOK(env, schema, meta, file, blocks, ts, rows, written, placed, |schema| - DATA_COLUMN, placed)
    ensures WrittenOK(env, schema, meta, file, blocks, ts, rows, written, |blocks|, 0, |blocks|)
  {
    hide PayloadsOf, PosOf, Once;
  }

  /** What was added between a state and one in which nothing is pending: the pending columns,
      each of them once. */
  lemma AddedPending(fieldCnt: nat, blockCnt: nat, placed: nat, before: seq<Key>, added: seq<Key>)
    requires placed <= blockCnt && Once(before + added)
    requires forall k :: k in before <==> InFile(fieldCnt, blockCnt, placed, 0, placed, k)
    requires forall k :: k in before + added <==> InFile(fieldCnt, blockCnt, blockCnt, 0, blockCnt, k)
    ensures Once(added)
    ensures forall k :: k in added <==> placed <= k.blk < blockCnt && DATA_COLUMN <= k.field < fieldCnt
  {
    var all := before + added;
    forall i, j | 0 <= i < j < |added| ensures added[i] != added[j] {
      assert all[|before| + i] != all[|before| + j];
    }
    forall i, j | 0 <= i < |before| && 0 <= j < |added| ensures before[i] != added[j] {
      assert all[i] != all[|before| + j];
    }
    forall k | k in added ensures placed <= k.blk < blockCnt && DATA_COLUMN <= k.field < fieldCnt {
      assert k in all && k !in before;
    }
    forall k: Key | placed <= k.blk < blockCnt && DATA_COLUMN <= k.field < fieldCnt ensures k in added {
      assert k in all && k !in before;
    }
  }

  /** Closing a block: its timestamps are appended. */
  lemma WrittenClosed(env: Env, schema: seq<FieldType>, meta: Bytes, file: Bytes, blocks: seq<Block>, ts: seq<TsBlkIdx>,
                      rows: seq<CmpRow>, written: seq<Key>, placed: nat, blk: Block, e: TsBlkIdx, row: CmpRow)
    requires WrittenOK(env, schema, meta, file, blocks, ts, rows, written, placed, 0, placed)
    requires |schema| > DATA_COLUMN && |ts| == |rows| == |blocks| && placed <= |blocks| && e.blkPos == |file|
    ensures WrittenOK(env, schema, meta, file + BlockPayload(env, schema[TSTAMP_INDEX], blk, TSTAMP_INDEX), blocks + [blk], ts + [e],
                      rows + [row], written + [Key(|blocks|, TSTAMP_INDEX)], placed, 0, placed)
  {
    hide PayloadsOf, BlockPayload, Once;
    var k, all := Key(|blocks|, TSTAMP_INDEX), blocks + [blk];
    assert PayloadOf(env, schema, all, k) == BlockPayload(env, schema[TSTAMP_INDEX], blk, TSTAMP_INDEX);
    assert forall i :: 0 <= i < |written| ==> written[i] in written;
    PayloadsStay(env, schema, blocks, blk, written);
    forall i | 0 <= i < |written|
      ensures PayloadsOf(env, schema, all, written[..i]) == PayloadsOf(env, schema, blocks, written[..i])
      ensures PosOf(ts + [e], rows + [row], written[i]) == PosOf(ts, rows, written[i])
    {
      PayloadsStay(env, schema, blocks, blk, written[..i]);
    }
    WrittenNext(env, schema, meta, file, all, ts, rows, ts + [e], rows + [row], written, k);
  }

  lemma {:induction false} PrefixEnds(env: Env, schema: seq<FieldType>, blocks: seq<Block>, keys: seq<Key>, i: nat, j: nat)
    requires i < j <= |keys|
    ensures |PayloadsOf(env, schema, blocks, keys[..i])| + |PayloadOf(env, schema, blocks, keys[i])|
         <= |PayloadsOf(env, schema, blocks, keys[..j])|
  {
    hide PayloadOf;
    assert keys[..j][..j - 1] == keys[..j - 1];
    if i < j - 1 { PrefixEnds(env, schema, blocks, keys, i, j - 1); }
  }

  /** When nothing is pending the ranges of all columns are disjoint, behind the meta data and
      inside the file. */
  lemma WrittenApart(env: Env, schema: seq<FieldType>, meta: Bytes, file: Bytes, blocks: seq<Block>, ts: seq<TsBlkIdx>,
                     rows: seq<CmpRow>, written: seq<Key>)
    requires WrittenOK(env, schema, meta, file, blocks, ts, rows, written, |blocks|, 0, |blocks|)
    ensures PayloadsApart(env, schema, blocks, ts, rows, |file|)
    ensures forall k :: IsColumn(schema, blocks, k) ==> PosOf(ts, rows, k) >= |meta|
  {
    hide PayloadsOf, PayloadOf, PosOf;
    assert written[..|written|] == written;
    forall k | IsColumn(schema, blocks, k)
      ensures |meta| <= PosOf(ts, rows, k) <= PosOf(ts, rows, k) + |PayloadOf(env, schema, blocks, k)| <= |file|
    {
      assert k in written;
      var i :| 0 <= i < |written| && written[i] == k;
      PrefixEnds(env, schema, blocks, written, i, |written|);
    }
    forall k, l | IsColumn(schema, blocks, k) && IsColumn(schema, blocks, l) && k != l
      ensures || PosOf(ts, rows, k) + |PayloadOf(env, schema, blocks, k)| <= PosOf(ts, rows, l)
              || PosOf(ts, rows, l) + |PayloadOf(env, schema, blocks, l)| <= PosOf(ts, rows, k)
    {
      assert k in written && l in written;
      var i :| 0 <= i < |written| && written[i] == k;
      var j :| 0 <= j < |written| && written[j] == l;
      if i < j { PrefixEnds(env, schema, blocks, written, i, j); } else { PrefixEnds(env, schema, blocks, written, j, i); }
    }
  }
}
