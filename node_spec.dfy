/** The behaviour of one node, as functions on a snapshot of its state: the member
    merge, the payload merge, message dispatch, the queue drain, the heartbeat, the
    removal sweep, gossip and the whole periodic tick. The `Node` class in MP1Node is
    proved to change its fields exactly as these functions say. */
module NodeSpec {
  import opened Wire
  import opened Addresses
  import opened MemberTable
  import opened Messages

  /** The thresholds MP1Node.h fixes: TFAIL (no gossip to a row silent this long),
      TREMOVE (a row silent this long is removed) and TPROP (gossip rounds per tick). */
  datatype Config = Config(tFail: int, tRemove: int, tProp: nat)

  /** One message handed to the network: sender, destination, bytes. */
  datatype Envelope = Envelope(from: Address, to: Address, data: seq<byte>)

  /** The membership events the log records (`logNodeAdd`, `logNodeRemove`). */
  datatype LogEvent = NodeAdd(self: Address, added: Address) | NodeRemove(self: Address, removed: Address)

  /** Everything a node's protocol step reads or writes, except its inbound queue. */
  datatype NodeState = NodeState(
    addr: Address,
    memberList: seq<MemberListEntry>,
    heartbeat: int,
    inGroup: bool,
    bFailed: bool,
    inited: bool,
    nnb: int,
    pingCounter: int,
    timeOutCounter: int,
    outbox: seq<Envelope>,
    events: seq<LogEvent>)

  /** The table invariant every operation keeps. */
  predicate GoodTable(s: NodeState)
  {
    UniqueKeys(s.memberList) && KeysInRange(s.memberList)
  }

  /** `addOrUpdateMember`: merge one address and heartbeat; a new key also bumps `nnb`
      and logs an add event. */
  function AddOrUpdate(s: NodeState, a: Address, heartbeat: int, now: int): NodeState
  {
    var id, port := IdOf(a), PortOf(a);
    if FindMember(s.memberList, id, port).Some? then
      s.(memberList := Upsert(s.memberList, id, port, heartbeat, now))
    else
      s.(memberList := Upsert(s.memberList, id, port, heartbeat, now),
         nnb := s.nnb + 1,
         events := s.events + [NodeAdd(s.addr, a)])
  }

  /** Merging one address keeps the table invariant. */
  lemma AddOrUpdateKeepsGoodTable(s: NodeState, a: Address, heartbeat: int, now: int)
    requires GoodTable(s)
    ensures GoodTable(AddOrUpdate(s, a, heartbeat, now))
  {
    UpsertKeepsKeysUnique(s.memberList, IdOf(a), PortOf(a), heartbeat, now);
    UpsertKeysInRange(s.memberList, IdOf(a), PortOf(a), heartbeat, now);
  }

  /** `updateMemberList`: merge the rows of a payload, first to last. */
  function MergeAll(s: NodeState, rows: seq<GossipEntry>, now: int): (r: NodeState)
    ensures r == s.(memberList := r.memberList, nnb := r.nnb, events := r.events)
    ensures r.nnb >= s.nnb && |r.events| >= |s.events| && r.events[..|s.events|] == s.events
  {
    if rows == [] then s
    else
      var last := rows[|rows| - 1];
      AddOrUpdate(MergeAll(s, rows[..|rows| - 1], now), GetAddressFromIPAndPort(last.id, last.port), last.heartbeat, now)
  }

  lemma MergeAllSnoc(s: NodeState, rows: seq<GossipEntry>, x: GossipEntry, now: int)
    ensures MergeAll(s, rows + [x], now) == AddOrUpdate(MergeAll(s, rows, now), GetAddressFromIPAndPort(x.id, x.port), x.heartbeat, now)
  {
    assert (rows + [x])[..|rows|] == rows;
  }

  /** Merging any rows keeps the table invariant. */
  lemma {:induction false} MergeAllKeepsGoodTable(s: NodeState, rows: seq<GossipEntry>, now: int)
    requires GoodTable(s)
    ensures GoodTable(MergeAll(s, rows, now))
  {
    if rows != [] {
      var last := rows[|rows| - 1];
      MergeAllKeepsGoodTable(s, rows[..|rows| - 1], now);
      AddOrUpdateKeepsGoodTable(MergeAll(s, rows[..|rows| - 1], now), GetAddressFromIPAndPort(last.id, last.port), last.heartbeat, now);
    }
  }

  /** Merging the first i + 1 rows is merging the first i, then row i. */
  lemma MergePrefixStep(s: NodeState, rows: seq<GossipEntry>, i: nat, now: int)
    requires i < |rows|
    ensures MergeAll(s, rows[..i + 1], now) ==
      AddOrUpdate(MergeAll(s, rows[..i], now), GetAddressFromIPAndPort(rows[i].id, rows[i].port), rows[i].heartbeat, now)
  {
    assert rows[..i + 1] == rows[..i] + [rows[i]];
    MergeAllSnoc(s, rows[..i], rows[i], now);
  }

  /** `sendMemberListToMember`: one message carrying the whole table. */
  function SendMemberList(s: NodeState, to: Address, msgType: int): NodeState
  {
    s.(outbox := s.outbox + [Envelope(s.addr, to, MemberListMessage(msgType, s.memberList))])
  }

  /** The message types `recvCallBack` handles. */
  predicate Handled(msg: seq<byte>)
    requires |msg| >= HeaderSize
  {
    MsgType(msg) == JOINREQ || MsgType(msg) == JOINREP || MsgType(msg) == UPDATEMEMLIST
  }

  /** `recvCallBack`: a JOINREQ merges the sender and answers with a JOINREP, a JOINREP
      marks the node as in the group and merges the payload, an UPDATEMEMLIST merges the
      payload, anything else leaves the node as it was. */
  function Receive(s: NodeState, msg: seq<byte>, now: int): (r: NodeState)
    requires WellFormed(msg)
    ensures r.inGroup == (s.inGroup || MsgType(msg) == JOINREP)
    ensures r.addr == s.addr && r.heartbeat == s.heartbeat && r.bFailed == s.bFailed
    ensures MsgType(msg) != JOINREQ ==> r.outbox == s.outbox
    ensures |s.outbox| <= |r.outbox| && r.outbox[..|s.outbox|] == s.outbox
    ensures |s.events| <= |r.events| && r.events[..|s.events|] == s.events
    ensures !Handled(msg) ==> r == s
  {
    var t := MsgType(msg);
    if t == JOINREQ then
      var sender := JoinReqSender(msg);
      SendMemberList(AddOrUpdate(s, sender, JoinReqHeartbeat(msg), now), sender, JOINREP)
    else if t == JOINREP then MergeAll(s.(inGroup := true), Payload(msg), now)
    else if t == UPDATEMEMLIST then MergeAll(s, Payload(msg), now)
    else s
  }

  predicate AllWellFormed(q: seq<seq<byte>>)
  {
    forall k :: 0 <= k < |q| ==> WellFormed(q[k])
  }

  /** `checkMessages`: every queued message, front first. */
  function ReceiveAll(s: NodeState, q: seq<seq<byte>>, now: int): (r: NodeState)
    requires AllWellFormed(q)
    ensures r.addr == s.addr && r.heartbeat == s.heartbeat && r.bFailed == s.bFailed
    ensures s.inGroup ==> r.inGroup
    ensures |s.outbox| <= |r.outbox| && r.outbox[..|s.outbox|] == s.outbox
    ensures |s.events| <= |r.events| && r.events[..|s.events|] == s.events
  {
    if q == [] then s
    else
      var mid := ReceiveAll(s, q[..|q| - 1], now);
      var r := Receive(mid, q[|q| - 1], now);
      assert r.outbox[..|s.outbox|] == mid.outbox[..|s.outbox|];
      assert r.events[..|s.events|] == mid.events[..|s.events|];
      r
  }

  /** Draining the first k + 1 messages is draining the first k, then message k. */
  lemma ReceivePrefixStep(s: NodeState, q: seq<seq<byte>>, k: nat, now: int)
    requires AllWellFormed(q) && k < |q|
    ensures AllWellFormed(q[..k]) && AllWellFormed(q[..k + 1])
    ensures ReceiveAll(s, q[..k + 1], now) == Receive(ReceiveAll(s, q[..k], now), q[k], now)
  {
    assert q[..k + 1][..k] == q[..k];
  }

  /** Popping the front of the rest of a queue after k pops. */
  lemma PopFront(q: seq<seq<byte>>, k: nat)
    requires k < |q|
    ensures q[k..][0] == q[k] && q[k..][1..] == q[k + 1..]
  {
  }

  /** `increaseSelfHeartbeat`: one more heartbeat, copied into the node's own row. */
  function SelfBeat(s: NodeState, now: int): NodeState
  {
    s.(heartbeat := s.heartbeat + 1,
       memberList := RefreshMember(s.memberList, IdOf(s.addr), PortOf(s.addr), s.heartbeat + 1, now))
  }

  /** One remove event per erased row, in erase order. */
  function RemoveEvents(self: Address, rows: seq<MemberListEntry>): (r: seq<LogEvent>)
    ensures |r| == |rows|
    ensures forall k :: 0 <= k < |rows| ==> r[k] == NodeRemove(self, GetAddressFromIPAndPort(rows[k].id, rows[k].port))
  {
    if rows == [] then []
    else
      var last := rows[|rows| - 1];
      RemoveEvents(self, rows[..|rows| - 1]) + [NodeRemove(self, GetAddressFromIPAndPort(last.id, last.port))]
  }

  lemma RemoveEventsSnoc(self: Address, rows: seq<MemberListEntry>, x: MemberListEntry)
    ensures RemoveEvents(self, rows + [x]) == RemoveEvents(self, rows) + [NodeRemove(self, GetAddressFromIPAndPort(x.id, x.port))]
  {
    assert (rows + [x])[..|rows|] == rows;
  }

  /** The remove events of one step of the backward sweep: erasing row i logs it after
      the rows after i. */
  lemma SweepEventsStep(list: seq<MemberListEntry>, i: nat, base: seq<LogEvent>, evs: seq<LogEvent>,
                        self: Address, now: int, tRemove: int)
    requires i < |list| && evs == base + RemoveEvents(self, Removed(list[i + 1..], now, tRemove))
    ensures Expired(list[i], now, tRemove) ==>
      evs + [NodeRemove(self, GetAddressFromIPAndPort(list[i].id, list[i].port))] ==
        base + RemoveEvents(self, Removed(list[i..], now, tRemove))
    ensures !Expired(list[i], now, tRemove) ==> evs == base + RemoveEvents(self, Removed(list[i..], now, tRemove))
  {
    SweepStep(list, i, now, tRemove);
    if Expired(list[i], now, tRemove) {
      RemoveEventsSnoc(self, Removed(list[i + 1..], now, tRemove), list[i]);
    }
  }

  /** `deleteFailedNodes`: drop the expired rows, logging each. */
  function Sweep(s: NodeState, now: int, tRemove: int): (r: NodeState)
    ensures r == s.(memberList := r.memberList, events := r.events)
    ensures |s.events| <= |r.events| && r.events[..|s.events|] == s.events
  {
    s.(memberList := Survivors(s.memberList, now, tRemove),
       events := s.events + RemoveEvents(s.addr, Removed(s.memberList, now, tRemove)))
  }

  /** `initThisNode`: the flags, counters and table of a freshly started node. */
  function Init(s: NodeState, cfg: Config): NodeState
  {
    s.(bFailed := false, inited := true, inGroup := false, nnb := 0, heartbeat := 0,
       pingCounter := cfg.tFail, timeOutCounter := -1, memberList := [])
  }

  /** `introduceSelfToGroup`: the introducer enters the group and merges itself; any other
      node sends a JOINREQ carrying its address and heartbeat to the introducer. */
  function Introduce(s: NodeState, joinaddr: Address, now: int): NodeState
  {
    if s.addr == joinaddr then AddOrUpdate(s.(inGroup := true), s.addr, s.heartbeat, now)
    else s.(outbox := s.outbox + [Envelope(s.addr, joinaddr, JoinReqMessage(s.addr, s.heartbeat))])
  }

  /** `nodeStart`: initialise, then introduce the node to the introducer at the join address. */
  function Start(s: NodeState, cfg: Config, now: int): NodeState
  {
    Introduce(Init(s, cfg), GetJoinAddress(), now)
  }

  /** n copies of x. */
  function Repeat<T>(x: T, n: nat): (r: seq<T>)
    ensures |r| == n
    ensures forall k :: 0 <= k < n ==> r[k] == x
  {
    if n == 0 then [] else Repeat(x, n - 1) + [x]
  }

  /** `sendMemberListToGroup`. The generator is reseeded with the current time before
      every draw, so every one of the `tProp` rounds draws the same value `draw` and
      picks the same row; the rounds send nothing when that row is stale. */
  function Gossip(s: NodeState, cfg: Config, now: int, draw: nat): (r: NodeState)
    requires |s.memberList| > 0
    ensures r == s.(outbox := r.outbox)
    ensures |s.outbox| <= |r.outbox| <= |s.outbox| + cfg.tProp && r.outbox[..|s.outbox|] == s.outbox
    ensures now - s.memberList[draw % |s.memberList|].timestamp < cfg.tFail ==> |r.outbox| == |s.outbox| + cfg.tProp
    ensures now - s.memberList[draw % |s.memberList|].timestamp >= cfg.tFail ==> r == s
    ensures forall k :: |s.outbox| <= k < |r.outbox| ==>
      var e := s.memberList[draw % |s.memberList|];
      now - e.timestamp < cfg.tFail &&
      r.outbox[k] == Envelope(s.addr, GetAddressFromIPAndPort(e.id, e.port), MemberListMessage(UPDATEMEMLIST, s.memberList))
  {
    var e := s.memberList[draw % |s.memberList|];
    if now - e.timestamp >= cfg.tFail then s
    else
      var to := GetAddressFromIPAndPort(e.id, e.port);
      s.(outbox := s.outbox + Repeat(Envelope(s.addr, to, MemberListMessage(UPDATEMEMLIST, s.memberList)), cfg.tProp))
  }

  /** The table is non-empty when gossip picks its target (`rand() % size` divides by it). */
  predicate OpsDefined(s: NodeState, cfg: Config, now: int)
  {
    |Sweep(SelfBeat(s, now), now, cfg.tRemove).memberList| > 0
  }

  /** `nodeLoopOps`: heartbeat, then sweep, then gossip. */
  function Ops(s: NodeState, cfg: Config, now: int, draw: nat): (r: NodeState)
    requires OpsDefined(s, cfg, now)
    ensures r.addr == s.addr && r.heartbeat == s.heartbeat + 1 && r.inGroup == s.inGroup && r.bFailed == s.bFailed
    ensures forall k :: 0 <= k < |r.memberList| ==> !Expired(r.memberList[k], now, cfg.tRemove)
    ensures |s.outbox| <= |r.outbox| && r.outbox[..|s.outbox|] == s.outbox
    ensures |s.events| <= |r.events| && r.events[..|s.events|] == s.events
  {
    Gossip(Sweep(SelfBeat(s, now), now, cfg.tRemove), cfg, now, draw)
  }

  predicate TickDefined(s: NodeState, q: seq<seq<byte>>, cfg: Config, now: int)
  {
    AllWellFormed(q) &&
    (!s.bFailed && ReceiveAll(s, q, now).inGroup ==> OpsDefined(ReceiveAll(s, q, now), cfg, now))
  }

  /** `nodeLoop`: a failed node does nothing; otherwise drain the queue, and only when in
      the group run the periodic operations. */
  function Tick(s: NodeState, q: seq<seq<byte>>, cfg: Config, now: int, draw: nat): NodeState
    requires TickDefined(s, q, cfg, now)
  {
    if s.bFailed then s
    else
      var d := ReceiveAll(s, q, now);
      if !d.inGroup then d else Ops(d, cfg, now, draw)
  }
}
