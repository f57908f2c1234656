/** The connection table (server/server_connection.cpp): connection records are carved from
    blocks of 64, of which there are at most 16; records not in use wait on a list. */
module ServerConnections {
  import opened Coding

  const CONN_CNT_PER_BLK := 64
  const MAX_BLK_CNT := 16
  const IP_ADDR_STR_LEN := 16
  const USER_NAME_LEN := 48

  /** Record `index` of block `blk`. */
  datatype Slot = Slot(blk: nat, index: nat)

  datatype ConnInfo = ConnInfo(role: int, remotePort: int, connTime: Int64, remoteHost: Bytes, loginName: Bytes)

  /** strncpy into an array of n bytes that always ends with a zero. */
  function Clipped(s: Bytes, n: nat): Bytes
    requires n > 0
  {
    if |s| < n then s else s[..n - 1]
  }

  /** SetRemoteInfo: the login of an earlier use is forgotten. */
  function RemoteInfo(host: Bytes, port: int, now: Int64): ConnInfo {
    ConnInfo(0, port, now, Clipped(host, IP_ADDR_STR_LEN), [])
  }

  function LoginInfo(info: ConnInfo, name: Bytes, role: int): ConnInfo {
    info.(loginName := Clipped(name, USER_NAME_LEN), role := role)
  }

  /** A new connection has no role and no login; the name of its host is the longest prefix that
      fits 15 bytes. */
  lemma NewConnection(host: Bytes, port: int, now: Int64)
    ensures var info := RemoteInfo(host, port, now);
            && info.role == 0 && info.loginName == [] && info.remotePort == port && info.connTime == now
            && info.remoteHost <= host && |info.remoteHost| == if |host| < 15 then |host| else 15
  {
  }

  /** A login sets the role and the name, of which 47 bytes are kept, and nothing else. */
  lemma LoggedIn(info: ConnInfo, name: Bytes, role: int)
    ensures var next := LoginInfo(info, name, role);
            && next.role == role && next.loginName <= name && |next.loginName| == (if |name| < 47 then |name| else 47)
            && next.remoteHost == info.remoteHost && next.remotePort == info.remotePort && next.connTime == info.connTime
  {
  }

  predicate Carved(blkCnt: nat, s: Slot) {
    s.blk < blkCnt && s.index < CONN_CNT_PER_BLK
  }

  ghost predicate NoTwice(free: seq<Slot>) {
    forall i, j :: 0 <= i < j < |free| ==> free[i] != free[j]
  }

  /** owner is the inverse of connMap. */
  ghost predicate Inverse(connMap: map<UInt64, Slot>, owner: map<Slot, UInt64>) {
    && (forall k :: k in connMap ==> connMap[k] in owner && owner[connMap[k]] == k)
    && (forall s :: s in owner ==> owner[s] in connMap && connMap[owner[s]] == s)
  }

  /** Every carved record is either on the free list, once, or in the hands of one key; `loose`
      is a record on its way from one to the other. */
  ghost predicate Conserved(connMap: map<UInt64, Slot>, owner: map<Slot, UInt64>, free: seq<Slot>, blkCnt: nat, loose: Option<Slot>) {
    && NoTwice(free) && Inverse(connMap, owner)
    && (forall s :: s in free ==> Carved(blkCnt, s) && s !in owner && loose != Some(s))
    && (forall s :: s in owner ==> Carved(blkCnt, s) && loose != Some(s))
    && (loose.Some? ==> Carved(blkCnt, loose.value))
    && (forall s :: Carved(blkCnt, s) ==> s in free || s in owner || loose == Some(s))
    && |free| + (if loose.Some? then 1 else 0) + |connMap| == blkCnt * CONN_CNT_PER_BLK
  }

  lemma FrontTaken(connMap: map<UInt64, Slot>, owner: map<Slot, UInt64>, free: seq<Slot>, blkCnt: nat)
    requires Conserved(connMap, owner, free, blkCnt, None) && free != []
    ensures Conserved(connMap, owner, free[1..], blkCnt, Some(free[0]))
  {
    assert free == [free[0]] + free[1..];
    assert forall x :: x in free <==> x == free[0] || x in free[1..];
    assert free[0] !in free[1..];
  }

  lemma InverseWith(connMap: map<UInt64, Slot>, owner: map<Slot, UInt64>, k: UInt64, s: Slot)
    requires Inverse(connMap, owner) && k !in connMap && s !in owner
    ensures Inverse(connMap[k := s], owner[s := k]) && |connMap[k := s]| == |connMap| + 1
  {
    var next := connMap[k := s];
    assert next.Keys == connMap.Keys + {k} && |next.Keys| == |next| && |connMap.Keys| == |connMap|;
  }

  lemma InverseWithout(connMap: map<UInt64, Slot>, owner: map<Slot, UInt64>, k: UInt64)
    requires Inverse(connMap, owner) && k in connMap
    ensures Inverse(connMap - {k}, owner - {connMap[k]}) && |connMap - {k}| == |connMap| - 1
  {
    var next := connMap - {k};
    assert next.Keys == connMap.Keys - {k} && |next.Keys| == |next| && |connMap.Keys| == |connMap|;
  }

  lemma KeyTakes(connMap: map<UInt64, Slot>, owner: map<Slot, UInt64>, free: seq<Slot>, blkCnt: nat, s: Slot, k: UInt64)
    requires Conserved(connMap, owner, free, blkCnt, Some(s)) && k !in connMap
    ensures Conserved(connMap[k := s], owner[s := k], free, blkCnt, None)
  {
    hide Inverse, NoTwice;
    InverseWith(connMap, owner, k, s);
  }

  lemma KeyGivesBack(connMap: map<UInt64, Slot>, owner: map<Slot, UInt64>, free: seq<Slot>, blkCnt: nat, k: UInt64)
    requires Conserved(connMap, owner, free, blkCnt, None) && k in connMap
    ensures Conserved(connMap - {k}, owner - {connMap[k]}, free, blkCnt, Some(connMap[k]))
  {
    hide NoTwice;
    InverseWithout(connMap, owner, k);
  }

  lemma FrontAdded(connMap: map<UInt64, Slot>, owner: map<Slot, UInt64>, free: seq<Slot>, blkCnt: nat, s: Slot)
    requires Conserved(connMap, owner, free, blkCnt, Some(s))
    ensures Conserved(connMap, owner, [s] + free, blkCnt, None)
  {
    hide Inverse, NoTwice;
    StillDistinct(free, s);
  }

  lemma StillDistinct(free: seq<Slot>, s: Slot)
    requires s !in free && NoTwice(free)
    ensures NoTwice([s] + free)
    ensures forall x :: x in [s] + free <==> x == s || x in free
  {
    var next := [s] + free;
    forall i, j | 0 <= i < j < |next| ensures next[i] != next[j] {
      assert next[j] == free[j - 1] && free[j - 1] in free;
    }
  }

  /** The first n records of a block as they end up on the list. */
  function Carving(blk: nat, n: nat): (r: seq<Slot>)
    ensures |r| == n
  {
    if n == 0 then [] else [Slot(blk, n - 1)] + Carving(blk, n - 1)
  }

  /** The record carved last comes first. */
  lemma {:induction false} CarvingIs(blk: nat, n: nat, i: nat)
    requires i < n
    ensures Carving(blk, n)[i] == Slot(blk, n - 1 - i)
  {
    if i > 0 { CarvingIs(blk, n - 1, i - 1); }
  }

  lemma {:induction false} CarvingHolds(blk: nat, n: nat)
    ensures forall s :: s in Carving(blk, n) <==> s.blk == blk && s.index < n
    ensures NoTwice(Carving(blk, n))
  {
    if n > 0 {
      CarvingHolds(blk, n - 1);
      var rest := Carving(blk, n - 1);
      forall i, j | 0 <= i < j < n ensures Carving(blk, n)[i] != Carving(blk, n)[j] {
        assert Carving(blk, n)[j] == rest[j - 1] && rest[j - 1] in rest;
      }
    }
  }

  lemma BlockAdded(connMap: map<UInt64, Slot>, owner: map<Slot, UInt64>, blkCnt: nat)
    requires Conserved(connMap, owner, [], blkCnt, None)
    ensures Conserved(connMap, owner, Carving(blkCnt, CONN_CNT_PER_BLK), blkCnt + 1, None)
  {
    hide Inverse, Carving;
    CarvingHolds(blkCnt, CONN_CNT_PER_BLK);
  }

  /** Every record that is in use has contents. */
  ghost predicate Filled(connMap: map<UInt64, Slot>, records: map<Slot, ConnInfo>) {
    forall k :: k in connMap ==> connMap[k] in records
  }

  function ViewOf(connMap: map<UInt64, Slot>, records: map<Slot, ConnInfo>): (v: map<UInt64, ConnInfo>)
    requires Filled(connMap, records)
    ensures v.Keys == connMap.Keys
  {
    map k | k in connMap :: records[connMap[k]]
  }

  /** Records are written through one key at a time. */
  lemma ViewWith(connMap: map<UInt64, Slot>, owner: map<Slot, UInt64>, records: map<Slot, ConnInfo>, k: UInt64, s: Slot, info: ConnInfo)
    requires Filled(connMap, records) && Inverse(connMap, owner) && (s in owner ==> owner[s] == k)
    ensures Filled(connMap[k := s], records[s := info])
    ensures ViewOf(connMap[k := s], records[s := info]) == ViewOf(connMap, records)[k := info]
  {
    forall l | l in connMap && l != k ensures connMap[l] != s {
      assert owner[connMap[l]] == l;
    }
  }

  class ServerConnection {
    var connMap: map<UInt64, Slot>
    /** First element: the one handed out next. */
    var freeConnList: seq<Slot>
    var blkCnt: nat
    /** The contents of the records. */
    var records: map<Slot, ConnInfo>
    /** Which key a record belongs to. */
    ghost var owner: map<Slot, UInt64>

    ghost predicate Valid()
      reads this
    {
      blkCnt <= MAX_BLK_CNT && Conserved(connMap, owner, freeConnList, blkCnt, None) && Filled(connMap, records)
    }

    /** What a client of the table sees. */
    ghost function View(): (v: map<UInt64, ConnInfo>)
      requires Valid()
      reads this
      ensures v.Keys == connMap.Keys
    {
      ViewOf(connMap, records)
    }

    lemma ViewSize()
      requires Valid()
      ensures |View()| == |connMap|
    {
      assert |View().Keys| == |View()| && |connMap.Keys| == |connMap|;
    }

    constructor ()
      ensures Valid() && View() == map[] && blkCnt == 0
    {
      connMap, freeConnList, blkCnt, records, owner := map[], [], 0, map[], map[];
    }

    /** An address is known to the table at most once: a second connection from it overwrites
        the first. Only a new address is refused, and only when all records are in use. */
    method AddConnection(connKey: UInt64, host: Bytes, port: int, now: Int64) returns (ok: bool)
      requires Valid()
      modifies this
      ensures Valid()
      ensures !ok <==> connKey !in old(View()) && |old(View())| == MAX_BLK_CNT * CONN_CNT_PER_BLK
      ensures View() == if ok then old(View())[connKey := RemoteInfo(host, port, now)] else old(View())
      ensures connKey in old(View()) ==> connMap == old(connMap) && freeConnList == old(freeConnList) && blkCnt == old(blkCnt)
    {
      hide Conserved, ViewOf, Filled, Inverse;
      ViewSize();
      var info := RemoteInfo(host, port, now);
      if connKey in connMap {
        OwnedBy(connMap, owner, freeConnList, blkCnt, connKey);
        ViewWith(connMap, owner, records, connKey, connMap[connKey], info);
        records := records[connMap[connKey] := info];
        assert connMap[connKey := connMap[connKey]] == connMap;
        return true;
      }
      var newConn := MallocConnInfo();
      if newConn.Some? {
        var s := newConn.value;
        KeyTakes(connMap, owner, freeConnList, blkCnt, s, connKey);
        Unowned(connMap, owner, freeConnList, blkCnt, s);
        ViewWith(connMap, owner, records, connKey, s, info);
        records := records[s := info];
        connMap := connMap[connKey := s];
        owner := owner[s := connKey];
        return true;
      }
      return false;
    }

    /** Takes the first free record. When there is none a block is carved, as long as the limit
        allows; its last record comes first. */
    method MallocConnInfo() returns (r: Option<Slot>)
      requires Valid()
      modifies this`freeConnList, this`blkCnt
      ensures r.None? <==> |connMap| == MAX_BLK_CNT * CONN_CNT_PER_BLK
      ensures old(freeConnList) != [] ==> r == Some(old(freeConnList)[0]) && freeConnList == old(freeConnList)[1..] && blkCnt == old(blkCnt)
      ensures old(freeConnList) == [] && r.Some? ==> blkCnt == old(blkCnt) + 1 && [r.value] + freeConnList == Carving(old(blkCnt), 64)
      ensures blkCnt <= MAX_BLK_CNT
      ensures Conserved(connMap, owner, freeConnList, blkCnt, r)
    {
      hide Conserved, Carving;
      Count(connMap, owner, freeConnList, blkCnt);
      if freeConnList == [] && blkCnt < MAX_BLK_CNT {
        BlockAdded(connMap, owner, blkCnt);
        blkCnt := blkCnt + 1;
        AddRecords(blkCnt - 1, CONN_CNT_PER_BLK);
        Count(connMap, owner, freeConnList, blkCnt);
      }
      if freeConnList != [] {
        FrontTaken(connMap, owner, freeConnList, blkCnt);
        var tmp := freeConnList[0];
        freeConnList := freeConnList[1..];
        return Some(tmp);
      }
      return None;
    }

    /** The loop over the records of a new block. */
    method AddRecords(blk: nat, n: nat)
      requires freeConnList == []
      modifies this`freeConnList
      ensures freeConnList == Carving(blk, n)
    {
      for i := 0 to n
        invariant freeConnList == Carving(blk, i)
      {
        freeConnList := [Slot(blk, i)] + freeConnList;
      }
    }

    method ConnectionLogin(connKey: UInt64, name: Bytes, role: int)
      requires Valid()
      modifies this`records
      ensures Valid()
      ensures View() == if connKey in old(View()) then old(View())[connKey := LoginInfo(old(View())[connKey], name, role)]
                        else old(View())
    {
      hide Conserved, Inverse;
      if connKey in connMap {
        var info := LoginInfo(records[connMap[connKey]], name, role);
        OwnedBy(connMap, owner, freeConnList, blkCnt, connKey);
        ViewWith(connMap, owner, records, connKey, connMap[connKey], info);
        records := records[connMap[connKey] := info];
        assert connMap[connKey := connMap[connKey]] == connMap;
      }
    }

    /** The record returns to the front of the list, from where it is handed out next. */
    method DelConnection(connKey: UInt64)
      requires Valid()
      modifies this
      ensures Valid() && blkCnt == old(blkCnt)
      ensures View() == old(View()) - {connKey}
      ensures freeConnList == if connKey in old(connMap) then [old(connMap)[connKey]] + old(freeConnList) else old(freeConnList)
    {
      hide Conserved, Inverse;
      if connKey in connMap {
        KeyGivesBack(connMap, owner, freeConnList, blkCnt, connKey);
        var node := connMap[connKey];
        FrontAdded(connMap - {connKey}, owner - {node}, freeConnList, blkCnt, node);
        freeConnList := [node] + freeConnList;
        connMap := connMap - {connKey};
        owner := owner - {node};
      }
    }
  }

  // ---------------------------------------------------------------- runs

  datatype Op =
    | Add(key: UInt64, host: Bytes, port: int, now: Int64)
    | Login(key: UInt64, name: Bytes, role: int)
    | Del(key: UInt64)

  /** A table without records, blocks and lists: a map that holds at most 1024 connections. */
  function Step(v: map<UInt64, ConnInfo>, op: Op): map<UInt64, ConnInfo> {
    match op
    case Add(k, host, port, now) =>
      if k in v || |v| != MAX_BLK_CNT * CONN_CNT_PER_BLK then v[k := RemoteInfo(host, port, now)] else v
    case Login(k, name, role) => if k in v then v[k := LoginInfo(v[k], name, role)] else v
    case Del(k) => v - {k}
  }

  /** One operation concerns one key: the other connections stay as they are, a connection is
      there after it was added unless the table was full, and is gone after it was deleted. */
  lemma StepMeans(v: map<UInt64, ConnInfo>, op: Op)
    ensures forall k: UInt64 :: k != op.key ==> (k in Step(v, op) <==> k in v) && (k in v ==> Step(v, op)[k] == v[k])
    ensures op.key in Step(v, op) <==> match op
                                       case Add(_, _, _, _) => op.key in v || |v| != 1024
                                       case Login(_, _, _) => op.key in v
                                       case Del(_) => false
    ensures op.key in Step(v, op) && op.Add? ==> Step(v, op)[op.key] == RemoteInfo(op.host, op.port, op.now)
    ensures op.key in Step(v, op) && op.Login? ==> Step(v, op)[op.key] == LoginInfo(v[op.key], op.name, op.role)
  {
    hide RemoteInfo, LoginInfo;
  }

  function Steps(v: map<UInt64, ConnInfo>, ops: seq<Op>): map<UInt64, ConnInfo> {
    if ops == [] then v else Step(Steps(v, ops[..|ops| - 1]), ops[|ops| - 1])
  }

  /** After any run of operations the pool shows what the bounded map shows. */
  method Run(table: ServerConnection, ops: seq<Op>)
    requires table.Valid()
    modifies table
    ensures table.Valid() && table.View() == Steps(old(table.View()), ops)
  {
    hide Conserved, Filled, ViewOf, RemoteInfo, LoginInfo;
    for i := 0 to |ops|
      invariant table.Valid() && table.View() == Steps(old(table.View()), ops[..i])
    {
      assert ops[..i + 1][..i] == ops[..i];
      match ops[i] {
        case Add(k, host, port, now) => var ok := table.AddConnection(k, host, port, now);
        case Login(k, name, role) => table.ConnectionLogin(k, name, role);
        case Del(k) => table.DelConnection(k);
      }
    }
    assert ops[..|ops|] == ops;
  }

  /** The bounded map never holds more than its limit. */
  lemma {:induction false} StepsBound(v: map<UInt64, ConnInfo>, ops: seq<Op>)
    requires |v| <= MAX_BLK_CNT * CONN_CNT_PER_BLK
    ensures |Steps(v, ops)| <= MAX_BLK_CNT * CONN_CNT_PER_BLK
  {
    if ops != [] {
      var before, op := Steps(v, ops[..|ops| - 1]), ops[|ops| - 1];
      StepsBound(v, ops[..|ops| - 1]);
      StepBound(before, op);
    }
  }

  lemma StepBound(v: map<UInt64, ConnInfo>, op: Op)
    requires |v| <= MAX_BLK_CNT * CONN_CNT_PER_BLK
    ensures |Step(v, op)| <= MAX_BLK_CNT * CONN_CNT_PER_BLK
  {
    hide RemoteInfo, LoginInfo;
    var next := Step(v, op);
    assert |next.Keys| == |next| && |v.Keys| == |v|;
    if op.Del? {
      assert next.Keys == v.Keys - {op.key};
    } else {
      assert next.Keys == v.Keys || next.Keys == v.Keys + {op.key};
    }
  }

  lemma Count(connMap: map<UInt64, Slot>, owner: map<Slot, UInt64>, free: seq<Slot>, blkCnt: nat)
    requires Conserved(connMap, owner, free, blkCnt, None)
    ensures |free| + |connMap| == blkCnt * CONN_CNT_PER_BLK
  {
  }

  lemma OwnedBy(connMap: map<UInt64, Slot>, owner: map<Slot, UInt64>, free: seq<Slot>, blkCnt: nat, k: UInt64)
    requires Conserved(connMap, owner, free, blkCnt, None) && k in connMap
    ensures Inverse(connMap, owner) && connMap[k] in owner && owner[connMap[k]] == k
  {
  }

  lemma Unowned(connMap: map<UInt64, Slot>, owner: map<Slot, UInt64>, free: seq<Slot>, blkCnt: nat, s: Slot)
    requires Conserved(connMap, owner, free, blkCnt, Some(s))
    ensures Inverse(connMap, owner) && s !in owner
  {
  }
}
