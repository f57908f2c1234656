/** The .NET writer against both readers. */
module Wire {
  import opened Coding
  import opened DbValue
  import opened WireFormat
  import opened IntTool
  import opened WireReaders

  lemma WritableIsSendable(rows: seq<Row>, cnt: nat)
    requires TableWritable(rows) && forall i :: 0 <= i < |rows| ==> |rows[i]| == cnt
    ensures TableSendable(rows, cnt)
  {
    forall i | 0 <= i < |rows| ensures RowSendable(rows[i]) {
      assert RowWritable(rows[i]);
      forall j | 0 <= j < |rows[i]| ensures Sendable(rows[i][j]) { assert Writable(rows[i][j]); }
    }
  }

  /** Table in, table out: rows written into chunks, flattened into a packet and read by either
      client are the same rows, and both readers stop exactly at the end of the packet. */
  method RoundTrip(headLen: nat, names: Row, rows: seq<Row>, cnt: nat)
    returns (written: bool, dotNet: Option<seq<Row>>, cpp: Option<(seq<Row>, nat)>, ghost size: nat)
    requires forall i :: 0 <= i < |names| ==> names[i].String?
    requires cnt > 0 && forall i :: 0 <= i < |rows| ==> |rows[i]| == cnt
    ensures written <==> RowWritable(names) && TableWritable(rows)
    ensures written ==> dotNet == Some(rows) && cpp == Some((rows, size))
    ensures written ==> size == headLen + |EncodeRow(names)| + |EncodeRows(rows)|
  {
    hide RowWritable, TableWritable, TableSendable, EncodeRow, EncodeRows, ReadRows;
    size := 0;
    var packet := MakePacket(headLen, names, rows);
    if packet == null {
      return false, None, None, 0;
    }
    var data := packet[..];
    ghost var pre := seq(headLen, _ => 0) + EncodeRow(names);
    assert data == pre + EncodeRows(rows) + [];
    WritableIsSendable(rows, cnt);
    RowsRoundTrip(rows, cnt, pre, []);
    size := |data|;
    var namesLen := NamesLength(names);
    dotNet := DecodeRows(cnt, data, headLen + namesLen, |rows|);
    cpp := ParseRows(cnt, data, headLen + namesLen, |rows|);
    written := true;
  }

  method NamesLength(names: Row) returns (n: nat)
    ensures n == |EncodeRow(names)|
  {
    n := 0;
    for i := 0 to |names|
      invariant n == |EncodeRow(names[..i])|
    {
      assert names[..i + 1][..i] == names[..i];
      n := n + |EncodeValue(names[i])|;
    }
    assert names[..|names|] == names;
  }
}
