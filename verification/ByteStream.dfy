/** The chunked output stream of the .NET client: bounded byte buffers (ByteBuffer.cs) in a
    growing list (ByteStream.cs). */
module ByteStreams {
  import opened Coding

  class ByteBuffer {
    const buf: array<Byte>
    var pos: nat

    ghost predicate Valid()
      reads this
    {
      pos <= buf.Length
    }

    ghost function Contents(): Bytes
      requires Valid()
      reads this, buf
    {
      buf[..pos]
    }

    constructor (bufSize: nat)
      ensures Valid() && Contents() == [] && fresh(buf) && buf.Length == bufSize
    {
      buf := new Byte[bufSize](_ => 0);
      pos := 0;
    }

    /** All or nothing: refused exactly when the bytes do not fit behind what is stored. */
    method WriteBytes(val: array<Byte>, offset: nat, dataLen: nat) returns (ok: bool)
      requires Valid() && offset + dataLen <= val.Length && val != buf
      modifies this`pos, buf
      ensures Valid() && ok == (|old(Contents())| + dataLen <= buf.Length)
      ensures Contents() == old(Contents()) + if ok then val[offset..offset + dataLen] else []
    {
      if pos + dataLen > buf.Length {
        return false;
      }
      for i := 0 to dataLen
        invariant pos == old(pos) && buf[..pos] == old(buf[..pos])
        invariant buf[pos..pos + i] == val[offset..offset + i]
      {
        buf[pos + i] := val[offset + i];
      }
      pos := pos + dataLen;
      assert buf[..pos] == buf[..old(pos)] + buf[old(pos)..pos];
      return true;
    }

    /** Copies the stored bytes to an offset of the destination; None (an exception) when they
        do not fit. */
    method ReadBytes(dest: array<Byte>, offset: nat) returns (n: Option<nat>)
      requires Valid() && dest != buf
      modifies dest
      ensures n == if offset + |Contents()| <= dest.Length then Some(|Contents()|) else None
      ensures dest[..] == if n.Some? then old(dest[..offset]) + Contents() + old(dest[offset + |Contents()|..]) else old(dest[..])
    {
      if offset + pos > dest.Length {
        return None;
      }
      for i := 0 to pos
        invariant dest[..offset] == old(dest[..offset]) && dest[offset..offset + i] == buf[..i]
        invariant dest[offset + i..] == old(dest[offset + i..])
      {
        dest[offset + i] := buf[i];
      }
      return Some(pos);
    }

    method GetDataLength() returns (n: nat)
      requires Valid()
      ensures n == |Contents()|
    {
      return pos;
    }
  }

  const CHUNK_SIZE := 128

  class ByteStream {
    var bufList: seq<ByteBuffer>
    ghost var repr: set<object>

    ghost predicate Valid()
      reads this, repr
    {
      && this in repr
      && (forall i :: 0 <= i < |bufList| ==> bufList[i] in repr && bufList[i].buf in repr && bufList[i].Valid())
      && (forall i, j :: 0 <= i < j < |bufList| ==> bufList[i] != bufList[j] && bufList[i].buf != bufList[j].buf)
    }

    static ghost function Joined(bufs: seq<ByteBuffer>): Bytes
      requires forall i :: 0 <= i < |bufs| ==> bufs[i].Valid()
      reads bufs, set b | b in bufs :: b.buf
    {
      if bufs == [] then [] else Joined(bufs[..|bufs| - 1]) + bufs[|bufs| - 1].Contents()
    }

    /** Everything written so far. */
    ghost function Contents(): Bytes
      requires Valid()
      reads this, repr
    {
      Joined(bufList)
    }

    constructor ()
      ensures Valid() && Contents() == [] && fresh(repr)
    {
      bufList := [];
      repr := {this};
    }

    /** curBuf_ is the last buffer of the list. A write never straddles two buffers: when it
        does not fit, a new buffer that is large enough is started. */
    method Write(val: array<Byte>, offset: nat, dataLen: nat)
      requires Valid() && val !in repr && offset + dataLen <= val.Length
      modifies repr
      ensures Valid() && fresh(repr - old(repr))
      ensures Contents() == old(Contents()) + val[offset..offset + dataLen]
    {
      hide ByteStream.Joined;
      var size := if dataLen > CHUNK_SIZE then dataLen else CHUNK_SIZE;
      if bufList == [] {
        AddBuffer(size);
      }
      var ok := WriteLast(val, offset, dataLen);
      if !ok {
        AddBuffer(size);
        ok := WriteLast(val, offset, dataLen);
      }
    }

    method AddBuffer(size: nat)
      requires Valid()
      modifies this
      ensures Valid() && fresh(repr - old(repr))
      ensures bufList != [] && bufList[|bufList| - 1].pos == 0 && bufList[|bufList| - 1].buf.Length == size
      ensures Contents() == old(Contents())
    {
      var next := new ByteBuffer(size);
      ghost var before := bufList;
      bufList := bufList + [next];
      repr := repr + {next, next.buf};
      assert bufList[..|bufList| - 1] == before;
    }

    method WriteLast(val: array<Byte>, offset: nat, dataLen: nat) returns (ok: bool)
      requires Valid() && bufList != [] && val !in repr && offset + dataLen <= val.Length
      modifies bufList[|bufList| - 1], bufList[|bufList| - 1].buf
      ensures Valid() && bufList == old(bufList) && repr == old(repr)
      ensures ok == (old(bufList[|bufList| - 1].pos) + dataLen <= bufList[|bufList| - 1].buf.Length)
      ensures Contents() == old(Contents()) + if ok then val[offset..offset + dataLen] else []
    {
      ghost var init, last := bufList[..|bufList| - 1], bufList[|bufList| - 1];
      ghost var before := Joined(init);
      ok := bufList[|bufList| - 1].WriteBytes(val, offset, dataLen);
      assert Joined(init) == before;
    }

    lemma JoinedStep(i: nat)
      requires Valid() && i < |bufList|
      ensures Joined(bufList[..i + 1]) == Joined(bufList[..i]) + bufList[i].Contents()
    {
      assert bufList[..i + 1][..i] == bufList[..i];
    }

    lemma JoinedPrefix(i: nat)
      requires Valid() && i <= |bufList|
      ensures |Joined(bufList[..i])| <= |Contents()|
      decreases |bufList| - i
    {
      if i < |bufList| {
        JoinedStep(i);
        JoinedPrefix(i + 1);
      } else {
        assert bufList[..i] == bufList;
      }
    }

    method GetTotalLen() returns (totalLen: nat)
      requires Valid()
      ensures totalLen == |Contents()|
    {
      hide ByteStream.Joined;
      totalLen := 0;
      NothingJoined();
      for i := 0 to |bufList|
        invariant totalLen == |Joined(bufList[..i])|
      {
        JoinedStep(i);
        var n := bufList[i].GetDataLength();
        totalLen := totalLen + n;
      }
      assert bufList[..|bufList|] == bufList;
    }

    lemma Empty()
      requires Valid() && bufList == []
      ensures Contents() == []
    {
    }

    lemma NothingJoined()
      ensures Joined(bufList[..0]) == []
    {
    }

    /** Copies every buffer behind the previous one: the stream, flattened, at an offset of the
        destination. */
    method Read(dest: array<Byte>, offset: nat) returns (ok: bool)
      requires Valid() && dest !in repr
      modifies dest
      ensures ok == (bufList == [] || offset + |Contents()| <= dest.Length)
      ensures ok && bufList != [] ==> dest[..] == old(dest[..offset]) + Contents() + old(dest[offset + |Contents()|..])
      ensures bufList == [] ==> dest[..] == old(dest[..])
    {
      hide ByteStream.Joined;
      ghost var was := dest[..];
      var at := offset;
      NothingJoined();
      for i := 0 to |bufList|
        invariant i > 0 ==> at <= dest.Length
        invariant at == offset + |Joined(bufList[..i])|
        invariant dest[..] == if i == 0 then was else was[..offset] + Joined(bufList[..i]) + was[at..]
      {
        JoinedStep(i);
        JoinedPrefix(i + 1);
        var n := bufList[i].ReadBytes(dest, at);
        if n.None? {
          return false;
        }
        at := at + n.value;
      }
      assert bufList[..|bufList|] == bufList;
      return true;
    }
  }
}
