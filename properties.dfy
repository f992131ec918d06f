/** Properties of the node's behaviour that relate several operations or several calls:
    what a merge makes known, idempotence of merging, dispatch outcomes, the periodic
    tick, and what one node learns from another's messages. */
module NodeProperties {
  import opened Wire
  import opened Addresses
  import opened MemberTable
  import opened Messages
  import opened NodeSpec

  /** The table holds key (id, port) with a heartbeat of at least hb. */
  predicate Holds(list: seq<MemberListEntry>, id: int, port: int, hb: int)
  {
    exists j :: 0 <= j < |list| && HasKey(list[j], id, port) && list[j].heartbeat >= hb
  }

  /** The table holds the key packed in address a with a heartbeat of at least hb. */
  predicate Knows(list: seq<MemberListEntry>, a: Address, hb: int)
  {
    Holds(list, IdOf(a), PortOf(a), hb)
  }

  /** Merging (a, hb) leaves a's key held with at least hb, and forgets nothing that was
      held before: no key disappears and no stored heartbeat goes down. */
  lemma AddOrUpdateKnows(s: NodeState, a: Address, hb: int, now: int)
    requires GoodTable(s)
    ensures var r := AddOrUpdate(s, a, hb, now);
      Knows(r.memberList, a, hb) &&
      forall id, port, h :: Holds(s.memberList, id, port, h) ==> Holds(r.memberList, id, port, h)
  {
    var list, id, port := s.memberList, IdOf(a), PortOf(a);
    var r := AddOrUpdate(s, a, hb, now).memberList;
    match FindMember(list, id, port)
    case None =>
      UpsertUnknownKey(list, id, port, hb, now);
      assert HasKey(r[|list|], id, port) && r[|list|].heartbeat >= hb;
      forall id', port', h | Holds(list, id', port', h) ensures Holds(r, id', port', h) {
        var j :| 0 <= j < |list| && HasKey(list[j], id', port') && list[j].heartbeat >= h;
        assert r[j] == list[j];
      }
    case Some(i) =>
      UpsertKnownKey(list, i, hb, now);
      assert HasKey(r[i], id, port) && r[i].heartbeat >= hb;
      forall id', port', h | Holds(list, id', port', h) ensures Holds(r, id', port', h) {
        var j :| 0 <= j < |list| && HasKey(list[j], id', port') && list[j].heartbeat >= h;
        UpsertMonotone(list, id, port, hb, now, j);
        assert HasKey(r[j], id', port') && r[j].heartbeat >= h;
      }
  }

  /** Merging a key that is already held with an equal or larger heartbeat changes nothing:
      no row, no counter, no log event. */
  lemma AddOrUpdateKnownIsNoop(s: NodeState, a: Address, hb: int, now: int)
    requires GoodTable(s) && Knows(s.memberList, a, hb)
    ensures AddOrUpdate(s, a, hb, now) == s
  {
    var list := s.memberList;
    var j :| 0 <= j < |list| && HasKey(list[j], IdOf(a), PortOf(a)) && list[j].heartbeat >= hb;
    FindMemberUnique(list, j);
    UpsertKnownKey(list, j, hb, now);
  }

  /** The counter and log half of `addOrUpdateMember`: an unknown key is appended with
      timestamp `now`, raises `nnb` by exactly one and logs exactly one add event; a known
      key changes at most its own row, never `nnb` nor the log. */
  lemma AddOrUpdateEffect(s: NodeState, a: Address, hb: int, now: int)
    ensures (forall j :: 0 <= j < |s.memberList| ==> !HasKey(s.memberList[j], IdOf(a), PortOf(a))) ==>
      AddOrUpdate(s, a, hb, now) ==
        s.(memberList := s.memberList + [MemberListEntry(IdOf(a), PortOf(a), hb, now)],
           nnb := s.nnb + 1,
           events := s.events + [NodeAdd(s.addr, a)])
    ensures (exists j :: 0 <= j < |s.memberList| && HasKey(s.memberList[j], IdOf(a), PortOf(a))) ==>
      var r := AddOrUpdate(s, a, hb, now);
      r == s.(memberList := r.memberList) && |r.memberList| == |s.memberList|
  {
    if FindMember(s.memberList, IdOf(a), PortOf(a)).None? {
      UpsertUnknownKey(s.memberList, IdOf(a), PortOf(a), hb, now);
    }
  }

  /** After merging a payload, every row of it is held with at least its heartbeat, and
      everything held before is still held. */
  lemma {:induction false} MergeAllKnows(s: NodeState, rows: seq<GossipEntry>, now: int)
    requires GoodTable(s)
    ensures var r := MergeAll(s, rows, now);
      (forall k :: 0 <= k < |rows| ==> Knows(r.memberList, GetAddressFromIPAndPort(rows[k].id, rows[k].port), rows[k].heartbeat)) &&
      forall id, port, h :: Holds(s.memberList, id, port, h) ==> Holds(r.memberList, id, port, h)
  {
    if rows != [] {
      var front, last := rows[..|rows| - 1], rows[|rows| - 1];
      var mid := MergeAll(s, front, now);
      MergeAllKnows(s, front, now);
      MergeAllKeepsGoodTable(s, front, now);
      AddOrUpdateKnows(mid, GetAddressFromIPAndPort(last.id, last.port), last.heartbeat, now);
      forall k | 0 <= k < |rows|
        ensures Knows(MergeAll(s, rows, now).memberList, GetAddressFromIPAndPort(rows[k].id, rows[k].port), rows[k].heartbeat)
      {
        if k < |rows| - 1 {
          assert rows[k] == front[k];
        }
      }
    }
  }

  /** Merging rows that are all already held (with equal or larger heartbeats) changes nothing. */
  lemma {:induction false} MergeAllKnownIsNoop(s: NodeState, rows: seq<GossipEntry>, now: int)
    requires GoodTable(s)
    requires forall k :: 0 <= k < |rows| ==> Knows(s.memberList, GetAddressFromIPAndPort(rows[k].id, rows[k].port), rows[k].heartbeat)
    ensures MergeAll(s, rows, now) == s
  {
    if rows != [] {
      var front, last := rows[..|rows| - 1], rows[|rows| - 1];
      forall k | 0 <= k < |front|
        ensures Knows(s.memberList, GetAddressFromIPAndPort(front[k].id, front[k].port), front[k].heartbeat)
      {
        assert front[k] == rows[k];
      }
      MergeAllKnownIsNoop(s, front, now);
      AddOrUpdateKnownIsNoop(s, GetAddressFromIPAndPort(last.id, last.port), last.heartbeat, now);
    }
  }

  /** Receiving the same member list twice has the effect of receiving it once. */
  lemma MergeAllIdempotent(s: NodeState, rows: seq<GossipEntry>, now: int, later: int)
    requires GoodTable(s)
    ensures MergeAll(MergeAll(s, rows, now), rows, later) == MergeAll(s, rows, now)
  {
    MergeAllKeepsGoodTable(s, rows, now);
    MergeAllKnows(s, rows, now);
    MergeAllKnownIsNoop(MergeAll(s, rows, now), rows, later);
  }

  /** `recvCallBack` keeps the table invariant. */
  lemma ReceiveKeepsGoodTable(s: NodeState, msg: seq<byte>, now: int)
    requires GoodTable(s) && WellFormed(msg)
    ensures GoodTable(Receive(s, msg, now))
  {
    var t := MsgType(msg);
    if t == JOINREQ {
      AddOrUpdateKeepsGoodTable(s, JoinReqSender(msg), JoinReqHeartbeat(msg), now);
    } else if t == JOINREP {
      MergeAllKeepsGoodTable(s.(inGroup := true), Payload(msg), now);
    } else if t == UPDATEMEMLIST {
      MergeAllKeepsGoodTable(s, Payload(msg), now);
    }
  }

  /** A JOINREQ makes the sender known with at least its heartbeat and sends exactly one
      JOINREP, to the sender, carrying the updated table. */
  lemma ReceiveJoinReq(s: NodeState, msg: seq<byte>, now: int)
    requires GoodTable(s) && WellFormed(msg) && MsgType(msg) == JOINREQ
    ensures var r := Receive(s, msg, now);
      Knows(r.memberList, JoinReqSender(msg), JoinReqHeartbeat(msg)) &&
      r.outbox == s.outbox + [Envelope(s.addr, JoinReqSender(msg), MemberListMessage(JOINREP, r.memberList))]
  {
    AddOrUpdateKnows(s, JoinReqSender(msg), JoinReqHeartbeat(msg), now);
  }

  /** Draining a queue keeps the table invariant and never lowers a stored heartbeat or
      forgets a key. */
  lemma {:induction false} ReceiveAllOutcome(s: NodeState, q: seq<seq<byte>>, now: int)
    requires GoodTable(s) && AllWellFormed(q)
    ensures var r := ReceiveAll(s, q, now);
      GoodTable(r) &&
      forall id, port, h :: Holds(s.memberList, id, port, h) ==> Holds(r.memberList, id, port, h)
  {
    if q != [] {
      var front := q[..|q| - 1];
      assert AllWellFormed(front) by {
        forall k | 0 <= k < |front| ensures WellFormed(front[k]) { assert front[k] == q[k]; }
      }
      var mid := ReceiveAll(s, front, now);
      ReceiveAllOutcome(s, front, now);
      ReceiveKeepsGoodTable(mid, q[|q| - 1], now);
      ReceiveKeepsKnown(mid, q[|q| - 1], now);
    }
  }

  /** One received message forgets nothing held. */
  lemma ReceiveKeepsKnown(s: NodeState, msg: seq<byte>, now: int)
    requires GoodTable(s) && WellFormed(msg)
    ensures forall id, port, h :: Holds(s.memberList, id, port, h) ==> Holds(Receive(s, msg, now).memberList, id, port, h)
  {
    var t := MsgType(msg);
    if t == JOINREQ {
      AddOrUpdateKnows(s, JoinReqSender(msg), JoinReqHeartbeat(msg), now);
    } else if t == JOINREP {
      MergeAllKnows(s.(inGroup := true), Payload(msg), now);
    } else if t == UPDATEMEMLIST {
      MergeAllKnows(s, Payload(msg), now);
    }
  }

  /** Being a prefix is transitive. */
  lemma PrefixTrans<T>(a: seq<T>, b: seq<T>, c: seq<T>)
    requires |a| <= |b| <= |c| && b[..|a|] == a && c[..|b|] == b
    ensures c[..|a|] == a
  {
    assert c[..|a|] == c[..|b|][..|a|];
  }

  /** The periodic operations keep the table invariant. */
  lemma OpsKeepsGoodTable(s: NodeState, cfg: Config, now: int, draw: nat)
    requires GoodTable(s) && OpsDefined(s, cfg, now)
    ensures GoodTable(Ops(s, cfg, now, draw))
  {
    var b := SelfBeat(s, now);
    RefreshMemberFrame(s.memberList, IdOf(s.addr), PortOf(s.addr), s.heartbeat + 1, now);
    SurvivorsKeepKeys(b.memberList, now, cfg.tRemove);
  }

  /** `nodeLoop` keeps the table invariant. */
  lemma TickKeepsGoodTable(s: NodeState, q: seq<seq<byte>>, cfg: Config, now: int, draw: nat)
    requires GoodTable(s) && TickDefined(s, q, cfg, now)
    ensures GoodTable(Tick(s, q, cfg, now, draw))
  {
    if !s.bFailed {
      var d := ReceiveAll(s, q, now);
      ReceiveAllOutcome(s, q, now);
      if d.inGroup {
        OpsKeepsGoodTable(d, cfg, now, draw);
      }
    }
  }

  /** One `nodeLoop` call on a node that has not failed: it never leaves the group, its
      heartbeat goes up by one exactly when it is in the group after draining the queue,
      and then no row left in the table is expired. A failed node is left as it was. */
  lemma TickHeartbeat(s: NodeState, q: seq<seq<byte>>, cfg: Config, now: int, draw: nat)
    requires TickDefined(s, q, cfg, now)
    ensures var r := Tick(s, q, cfg, now, draw);
      (s.bFailed ==> r == s) &&
      r.addr == s.addr && r.bFailed == s.bFailed && (s.inGroup ==> r.inGroup) &&
      r.heartbeat == (if r.inGroup && !s.bFailed then s.heartbeat + 1 else s.heartbeat) &&
      (r.inGroup && !s.bFailed ==> forall k :: 0 <= k < |r.memberList| ==> !Expired(r.memberList[k], now, cfg.tRemove))
  {
    if !s.bFailed {
      var d := ReceiveAll(s, q, now);
      if d.inGroup {
        var r := Ops(d, cfg, now, draw);
        assert r.inGroup && r.heartbeat == s.heartbeat + 1;
      }
    }
  }

  /** `nodeLoop` only appends to the outbox and to the log. */
  lemma TickAppendOnly(s: NodeState, q: seq<seq<byte>>, cfg: Config, now: int, draw: nat)
    requires TickDefined(s, q, cfg, now)
    ensures var r := Tick(s, q, cfg, now, draw);
      |s.outbox| <= |r.outbox| && r.outbox[..|s.outbox|] == s.outbox &&
      |s.events| <= |r.events| && r.events[..|s.events|] == s.events
  {
    if !s.bFailed {
      var d := ReceiveAll(s, q, now);
      if d.inGroup {
        var r := Ops(d, cfg, now, draw);
        PrefixTrans(s.outbox, d.outbox, r.outbox);
        PrefixTrans(s.events, d.events, r.events);
      }
    }
  }

  /** `introduceSelfToGroup` from any state with a good table: the introducer enters the
      group and holds its own key with at least its heartbeat, sending nothing; any other
      node changes nothing but the outbox, which gains exactly one JOINREQ to the join
      address carrying the node's address and heartbeat. */
  lemma IntroduceOutcome(s: NodeState, joinaddr: Address, now: int)
    requires GoodTable(s)
    ensures var r := Introduce(s, joinaddr, now);
      r.addr == s.addr && r.heartbeat == s.heartbeat && GoodTable(r) &&
      (s.addr == joinaddr ==> r.inGroup && Knows(r.memberList, s.addr, s.heartbeat) && r.outbox == s.outbox) &&
      (s.addr != joinaddr ==>
        r == s.(outbox := s.outbox + [Envelope(s.addr, joinaddr, JoinReqMessage(s.addr, s.heartbeat))]))
  {
    if s.addr == joinaddr {
      AddOrUpdateKnows(s.(inGroup := true), s.addr, s.heartbeat, now);
      AddOrUpdateKeepsGoodTable(s.(inGroup := true), s.addr, s.heartbeat, now);
    }
  }

  /** Bootstrap: a node starts alive, initialised, with heartbeat 0 and a good table. The
      introducer ends in the group with exactly its own row (id 1, port 0, heartbeat 0,
      timestamp now) and one add event, sending nothing; any other node stays out of the
      group with an empty table and sends exactly one JOINREQ, to the introducer, carrying
      its address and heartbeat 0. */
  lemma StartOutcome(s: NodeState, cfg: Config, now: int)
    ensures var r := Start(s, cfg, now);
      !r.bFailed && r.inited && r.heartbeat == 0 && GoodTable(r) &&
      r.addr == s.addr && r.pingCounter == cfg.tFail && r.timeOutCounter == -1 &&
      (s.addr == GetJoinAddress() ==>
        r.inGroup && r.memberList == [MemberListEntry(1, 0, 0, now)] && r.nnb == 1 &&
        r.events == s.events + [NodeAdd(s.addr, s.addr)] && r.outbox == s.outbox) &&
      (s.addr != GetJoinAddress() ==>
        !r.inGroup && r.memberList == [] && r.nnb == 0 && r.events == s.events &&
        r.outbox == s.outbox + [Envelope(s.addr, GetJoinAddress(), JoinReqMessage(s.addr, 0))])
  {
    var i := Init(s, cfg);
    if s.addr == GetJoinAddress() {
      assert FindMember(i.memberList, IdOf(s.addr), PortOf(s.addr)).None?;
      AddOrUpdateKeepsGoodTable(i.(inGroup := true), s.addr, 0, now);
    }
  }

  /** Merging one address with a heartbeat that fits a `long` keeps every field of the
      table within its declared width, and adds at most one row. */
  lemma AddOrUpdateFieldsInRange(s: NodeState, a: Address, hb: int, now: int)
    requires FieldsInRange(s.memberList) && IsLong(hb)
    ensures var r := AddOrUpdate(s, a, hb, now);
      FieldsInRange(r.memberList) && |r.memberList| <= |s.memberList| + 1
  {
  }

  /** Merging the rows of a table makes every row of that table held, with at least its
      heartbeat. */
  lemma LearnRows(t: NodeState, list: seq<MemberListEntry>, now: int)
    requires GoodTable(t) && FieldsInRange(list)
    ensures forall j :: 0 <= j < |list| ==>
      Holds(MergeAll(t, Rows(list), now).memberList, list[j].id, list[j].port, list[j].heartbeat)
  {
    var rows := Rows(list);
    MergeAllKnows(t, rows, now);
    forall j | 0 <= j < |list|
      ensures Holds(MergeAll(t, rows, now).memberList, list[j].id, list[j].port, list[j].heartbeat)
    {
      assert rows[j] == GossipEntry(list[j].id, list[j].port, list[j].heartbeat);
      AddressRoundTrip(list[j].id, list[j].port);
    }
  }

  /** Gossip: every UPDATEMEMLIST a node sends in its gossip rounds is well formed, and a
      node receiving it ends up holding every row of the sender's table with at least the
      sender's heartbeat for it, without changing its group status. */
  lemma GossipTeaches(s: NodeState, t: NodeState, cfg: Config, now: int, draw: nat, later: int, k: nat)
    requires |s.memberList| > 0 && FieldsInRange(s.memberList) && IsInt(|s.memberList|) && GoodTable(t)
    requires |s.outbox| <= k < |Gossip(s, cfg, now, draw).outbox|
    ensures var msg := Gossip(s, cfg, now, draw).outbox[k].data;
      WellFormed(msg) && MsgType(msg) == UPDATEMEMLIST &&
      Receive(t, msg, later).inGroup == t.inGroup &&
      forall j :: 0 <= j < |s.memberList| ==>
        Holds(Receive(t, msg, later).memberList, s.memberList[j].id, s.memberList[j].port, s.memberList[j].heartbeat)
  {
    MemberListRoundTrip(UPDATEMEMLIST, s.memberList);
    LearnRows(t, s.memberList, later);
  }

  /** The join handshake: the introducer, receiving a JOINREQ, holds the joiner with at
      least its heartbeat and answers it with one JOINREP; the joiner, receiving that
      JOINREP, is in the group and holds every row of the introducer's updated table. */
  lemma JoinHandshake(intro: NodeState, joiner: NodeState, hb: int, now: int, later: int)
    requires GoodTable(intro) && FieldsInRange(intro.memberList) && IsInt(|intro.memberList| + 1)
    requires IsLong(hb) && GoodTable(joiner)
    ensures var req := JoinReqMessage(joiner.addr, hb);
      WellFormed(req) && MsgType(req) == JOINREQ &&
      var r := Receive(intro, req, now);
      Knows(r.memberList, joiner.addr, hb) && |r.outbox| == |intro.outbox| + 1 &&
      var rep := r.outbox[|intro.outbox|];
      rep.to == joiner.addr && WellFormed(rep.data) && MsgType(rep.data) == JOINREP &&
      var j := Receive(joiner, rep.data, later);
      j.inGroup &&
      forall k :: 0 <= k < |r.memberList| ==>
        Holds(j.memberList, r.memberList[k].id, r.memberList[k].port, r.memberList[k].heartbeat)
  {
    var req := JoinReqMessage(joiner.addr, hb);
    JoinReqRoundTrip(joiner.addr, hb);
    ReceiveJoinReq(intro, req, now);
    var r := Receive(intro, req, now);
    AddOrUpdateFieldsInRange(intro, joiner.addr, hb, now);
    MemberListRoundTrip(JOINREP, r.memberList);
    LearnRows(joiner.(inGroup := true), r.memberList, later);
  }

  /** `increaseSelfHeartbeat`: the counter goes up by one; the node's own row (if any)
      takes the new heartbeat and the time, every other row is unchanged, and the table
      invariant is kept. */
  lemma SelfBeatOutcome(s: NodeState, now: int)
    requires GoodTable(s)
    ensures var r := SelfBeat(s, now);
      r == s.(heartbeat := r.heartbeat, memberList := r.memberList) &&
      r.heartbeat == s.heartbeat + 1 && GoodTable(r) && |r.memberList| == |s.memberList| &&
      forall j :: 0 <= j < |s.memberList| ==>
        r.memberList[j] == if HasKey(s.memberList[j], IdOf(s.addr), PortOf(s.addr))
                           then s.memberList[j].(heartbeat := s.heartbeat + 1, timestamp := now)
                           else s.memberList[j]
  {
    var list, id, port := s.memberList, IdOf(s.addr), PortOf(s.addr);
    RefreshMemberFrame(list, id, port, s.heartbeat + 1, now);
    forall j | 0 <= j < |list| && HasKey(list[j], id, port)
      ensures RefreshMember(list, id, port, s.heartbeat + 1, now)[j] == list[j].(heartbeat := s.heartbeat + 1, timestamp := now)
    {
      FindMemberUnique(list, j);
    }
  }

  /** Every row the sweep erases is an expired row of the table. */
  lemma RemovedFrom(list: seq<MemberListEntry>, now: int, tRemove: int, k: nat)
    requires k < |Removed(list, now, tRemove)|
    ensures exists m :: 0 <= m < |list| && list[m] == Removed(list, now, tRemove)[k]
  {
    var x := Removed(list, now, tRemove)[k];
    SweepPartitions(list, now, tRemove);
    assert x in multiset(Removed(list, now, tRemove));
    assert x in multiset(list);
    assert x in list;
  }

  /** `deleteFailedNodes`: afterwards no row is expired, every row that was not expired is
      still there, kept and erased rows together are exactly the old rows, and one remove
      event naming an expired row of the old table is logged per erased row. */
  lemma SweepOutcome(s: NodeState, now: int, tRemove: int)
    ensures var r := Sweep(s, now, tRemove);
      (forall k :: 0 <= k < |r.memberList| ==> !Expired(r.memberList[k], now, tRemove)) &&
      (forall k :: 0 <= k < |s.memberList| && !Expired(s.memberList[k], now, tRemove) ==> s.memberList[k] in r.memberList) &&
      multiset(r.memberList) + multiset(Removed(s.memberList, now, tRemove)) == multiset(s.memberList) &&
      |r.events| == |s.events| + |s.memberList| - |r.memberList| &&
      forall k :: |s.events| <= k < |r.events| ==>
        exists m :: 0 <= m < |s.memberList| && Expired(s.memberList[m], now, tRemove) &&
          r.events[k] == NodeRemove(s.addr, GetAddressFromIPAndPort(s.memberList[m].id, s.memberList[m].port))
  {
    var list := s.memberList;
    var gone := Removed(list, now, tRemove);
    var r := Sweep(s, now, tRemove);
    forall k | 0 <= k < |list| && !Expired(list[k], now, tRemove) ensures list[k] in r.memberList {
      SurvivorsKeepLive(list, now, tRemove, k);
    }
    SweepPartitions(list, now, tRemove);
    forall k | |s.events| <= k < |r.events|
      ensures exists m :: 0 <= m < |list| && Expired(list[m], now, tRemove) &&
                          r.events[k] == NodeRemove(s.addr, GetAddressFromIPAndPort(list[m].id, list[m].port))
    {
      var i := k - |s.events|;
      assert r.events[k] == RemoveEvents(s.addr, gone)[i];
      RemovedFrom(list, now, tRemove, i);
      var m :| 0 <= m < |list| && list[m] == gone[i];
      assert Expired(list[m], now, tRemove);
    }
  }
}
