/** The membership protocol run by one node: the `MP1Node` class together with the
    `Member` record it updates in place. Time is the `now` argument, the network is the
    `outbox` of sent messages and the `mp1q` queue of received ones, and the log is the
    `events` sequence. */
module MP1Node {
  import opened Wire
  import opened Addresses
  import opened MemberTable
  import opened Messages
  import opened NodeSpec

  class Node {
    const cfg: Config
    var addr: Address
    var memberList: seq<MemberListEntry>
    var heartbeat: int
    var inGroup: bool
    var bFailed: bool
    var inited: bool
    var nnb: int
    var pingCounter: int
    var timeOutCounter: int
    var mp1q: seq<seq<byte>>
    var outbox: seq<Envelope>
    var events: seq<LogEvent>

    /** The node's fields as a value, for the specification functions. */
    function State(): NodeState
      reads this
    {
      NodeState(addr, memberList, heartbeat, inGroup, bFailed, inited, nnb, pingCounter, timeOutCounter, outbox, events)
    }

    /** Keys in the table are unique and fit their declared widths. */
    predicate Valid()
      reads this
    {
      GoodTable(State())
    }

    /** The `MP1Node` constructor: remembers the node's own address; the rest of the
        `Member` record starts empty. */
    constructor (address: Address, config: Config)
      ensures Valid() && cfg == config
      ensures State() == NodeState(address, [], 0, false, false, false, 0, 0, 0, [], [])
      ensures mp1q == []
    {
      cfg := config;
      addr := address;
      memberList := [];
      heartbeat := 0;
      inGroup, bFailed, inited := false, false, false;
      nnb, pingCounter, timeOutCounter := 0, 0, 0;
      mp1q, outbox, events := [], [], [];
    }

    /** `addOrUpdateMember`: a forward scan for the key; a strictly newer heartbeat
        updates the row in place, a missing key is appended. */
    method AddOrUpdateMember(memberAddr: Address, hb: int, now: int)
      requires Valid()
      modifies this`memberList, this`nnb, this`events
      ensures Valid()
      ensures State() == AddOrUpdate(old(State()), memberAddr, hb, now)
    {
      var id := IdOf(memberAddr);
      var port := PortOf(memberAddr);
      var memberFound := false;
      var i := 0;
      while i < |memberList|
        invariant 0 <= i <= |memberList|
        invariant memberList == old(memberList) && nnb == old(nnb) && events == old(events)
        invariant forall j :: 0 <= j < i ==> !HasKey(memberList[j], id, port)
      {
        if memberList[i].id == id && memberList[i].port == port {
          memberFound := true;
          if memberList[i].heartbeat < hb {
            memberList := memberList[i := memberList[i].(heartbeat := hb, timestamp := now)];
          }
          break;
        }
        i := i + 1;
      }
      if !memberFound {
        memberList := memberList + [MemberListEntry(id, port, hb, now)];
        nnb := nnb + 1;
        events := events + [NodeAdd(addr, memberAddr)];
      }
      UpsertKeepsKeysUnique(old(memberList), id, port, hb, now);
      UpsertKeysInRange(old(memberList), id, port, hb, now);
    }

    /** `updateMemberList`: merge each row of a JOINREP or UPDATEMEMLIST in order. */
    method UpdateMemberList(msg: seq<byte>, now: int)
      requires Valid() && IsMemberListMessage(msg)
      modifies this`memberList, this`nnb, this`events
      ensures Valid()
      ensures State() == MergeAll(old(State()), Payload(msg), now)
    {
      ghost var s0 := State();
      ghost var rows := Payload(msg);
      var numOfMembers := MemberCount(msg);
      var i := 0;
      while i < numOfMembers
        invariant 0 <= i <= |rows|
        invariant Valid()
        invariant State() == MergeAll(s0, rows[..i], now)
      {
        PayloadRow(msg, i);
        var e := EntryAt(msg, i);
        var address := GetAddressFromIPAndPort(e.id, e.port);
        MergePrefixStep(s0, rows, i, now);
        AddOrUpdateMember(address, e.heartbeat, now);
        i := i + 1;
      }
      assert rows[..i] == rows;
    }

    /** `sendMemberListToMember`: copy the count and every row into one message. */
    method SendMemberListToMember(toAddress: Address, msgType: int)
      modifies this`outbox
      ensures State() == SendMemberList(old(State()), toAddress, msgType)
    {
      var numOfMembers := |memberList|;
      var msg := IntBytes(msgType) + IntBytes(numOfMembers);
      var i := 0;
      while i < |memberList|
        invariant 0 <= i <= |memberList|
        invariant msg == IntBytes(msgType) + IntBytes(numOfMembers) + EntriesBytes(memberList[..i])
        invariant outbox == old(outbox)
      {
        EntriesBytesPrefix(memberList, i);
        msg := msg + EntryBytes(memberList[i]);
        i := i + 1;
      }
      assert memberList[..i] == memberList;
      msg := msg + [0, 0, 0, 0];
      assert msg == MemberListMessage(msgType, memberList);
      outbox := outbox + [Envelope(addr, toAddress, msg)];
    }

    /** `sendJoinRepMsg` */
    method SendJoinRepMsg(toAddress: Address)
      modifies this`outbox
      ensures State() == SendMemberList(old(State()), toAddress, JOINREP)
    {
      SendMemberListToMember(toAddress, JOINREP);
    }

    /** `recvCallBack`: dispatch on the message type. */
    method RecvCallBack(msg: seq<byte>, now: int) returns (handled: bool)
      requires Valid() && WellFormed(msg)
      modifies this`inGroup, this`memberList, this`nnb, this`events, this`outbox
      ensures Valid()
      ensures State() == Receive(old(State()), msg, now)
      ensures handled == Handled(msg)
    {
      var t := MsgType(msg);
      if t == JOINREQ {
        var senderAddr := JoinReqSender(msg);
        var senderHeartbeat := JoinReqHeartbeat(msg);
        AddOrUpdateMember(senderAddr, senderHeartbeat, now);
        SendJoinRepMsg(senderAddr);
      } else if t == JOINREP {
        inGroup := true;
        UpdateMemberList(msg, now);
      } else if t == UPDATEMEMLIST {
        UpdateMemberList(msg, now);
      } else {
        return false;
      }
      return true;
    }

    /** `checkMessages`: pop and dispatch until the queue is empty. */
    method CheckMessages(now: int)
      requires Valid() && AllWellFormed(mp1q)
      modifies this`mp1q, this`inGroup, this`memberList, this`nnb, this`events, this`outbox
      ensures Valid() && mp1q == []
      ensures State() == ReceiveAll(old(State()), old(mp1q), now)
    {
      ghost var s0, q := State(), mp1q;
      ghost var k := 0;
      while |mp1q| > 0
        invariant Valid()
        invariant 0 <= k <= |q| && mp1q == q[k..]
        invariant State() == ReceiveAll(s0, q[..k], now)
        decreases |mp1q|
      {
        PopFront(q, k);
        ReceivePrefixStep(s0, q, k, now);
        var msg := mp1q[0];
        mp1q := mp1q[1..];
        var _ := RecvCallBack(msg, now);
        k := k + 1;
      }
      assert q[..k] == q;
    }

    /** `increaseSelfHeartbeat`: bump the counter and copy it, with the time, into the
        first row whose packed address is the node's own. */
    method IncreaseSelfHeartbeat(now: int)
      requires Valid()
      modifies this`heartbeat, this`memberList
      ensures Valid()
      ensures State() == SelfBeat(old(State()), now)
    {
      heartbeat := heartbeat + 1;
      var i := 0;
      while i < |memberList|
        invariant 0 <= i <= |memberList|
        invariant memberList == old(memberList) && heartbeat == old(heartbeat) + 1
        invariant forall j :: 0 <= j < i ==> !HasKey(memberList[j], IdOf(addr), PortOf(addr))
      {
        var a := GetAddressFromIPAndPort(memberList[i].id, memberList[i].port);
        AddressMatchesKey(memberList[i].id, memberList[i].port, addr);
        if a == addr {
          memberList := memberList[i := memberList[i].(heartbeat := heartbeat, timestamp := now)];
          break;
        }
        i := i + 1;
      }
      RefreshMemberFrame(old(memberList), IdOf(addr), PortOf(addr), heartbeat, now);
    }

    /** `deleteFailedNodes`: walk the table from the back, erasing and logging every row
        silent for at least TREMOVE ticks. */
    method DeleteFailedNodes(now: int)
      requires Valid()
      modifies this`memberList, this`events
      ensures Valid()
      ensures State() == Sweep(old(State()), now, cfg.tRemove)
    {
      ghost var list := memberList;
      var currentTime := now;
      var i := |memberList| - 1;
      while i >= 0
        invariant -1 <= i < |list|
        invariant memberList == list[..i + 1] + Survivors(list[i + 1..], now, cfg.tRemove)
        invariant events == old(events) + RemoveEvents(addr, Removed(list[i + 1..], now, cfg.tRemove))
      {
        EraseStep(list, i, memberList, now, cfg.tRemove);
        SweepEventsStep(list, i, old(events), events, addr, now, cfg.tRemove);
        if currentTime - memberList[i].timestamp >= cfg.tRemove {
          var a := GetAddressFromIPAndPort(memberList[i].id, memberList[i].port);
          events := events + [NodeRemove(addr, a)];
          memberList := memberList[..i] + memberList[i + 1..];
        }
        i := i - 1;
      }
      assert list[0..] == list;
      SurvivorsKeepKeys(list, now, cfg.tRemove);
    }

    /** `sendMemberListToGroup`: TPROP rounds, each sending the table to the drawn row
        unless that row has been silent for at least TFAIL ticks. The generator is
        reseeded with the time before each draw, so `draw` is the value of every draw. */
    method SendMemberListToGroup(now: int, draw: nat)
      requires |memberList| > 0
      modifies this`outbox
      ensures State() == Gossip(old(State()), cfg, now, draw)
    {
      var currentTime := now;
      var e := memberList[draw % |memberList|];
      var target := GetAddressFromIPAndPort(e.id, e.port);
      var update := Envelope(addr, target, MemberListMessage(UPDATEMEMLIST, memberList));
      for i := 0 to cfg.tProp
        invariant outbox == old(outbox) + (if currentTime - e.timestamp >= cfg.tFail then [] else Repeat(update, i))
      {
        var idx := draw % |memberList|;
        if currentTime - memberList[idx].timestamp >= cfg.tFail {
          continue;
        }
        var addrOfIdx := GetAddressFromIPAndPort(memberList[idx].id, memberList[idx].port);
        SendMemberListToMember(addrOfIdx, UPDATEMEMLIST);
      }
    }

    /** `nodeLoopOps`: heartbeat, then sweep, then gossip. */
    method NodeLoopOps(now: int, draw: nat)
      requires Valid() && OpsDefined(State(), cfg, now)
      modifies this
      ensures Valid() && mp1q == old(mp1q)
      ensures State() == Ops(old(State()), cfg, now, draw)
    {
      IncreaseSelfHeartbeat(now);
      DeleteFailedNodes(now);
      SendMemberListToGroup(now, draw);
    }

    /** `nodeLoop`: nothing for a failed node; otherwise drain the queue, and once in the
        group run the periodic operations. */
    method NodeLoop(now: int, draw: nat)
      requires Valid() && TickDefined(State(), mp1q, cfg, now)
      modifies this
      ensures Valid()
      ensures State() == Tick(old(State()), old(mp1q), cfg, now, draw)
      ensures mp1q == if old(bFailed) then old(mp1q) else []
    {
      if bFailed {
        return;
      }
      CheckMessages(now);
      if !inGroup {
        return;
      }
      NodeLoopOps(now, draw);
    }

    /** `initThisNode`: reset the flags, counters and table. */
    method InitThisNode(joinaddr: Address) returns (r: int)
      modifies this`bFailed, this`inited, this`inGroup, this`nnb, this`heartbeat, this`pingCounter,
        this`timeOutCounter, this`memberList
      ensures r == 0 && Valid()
      ensures State() == Init(old(State()), cfg)
    {
      bFailed := false;
      inited := true;
      inGroup := false;
      nnb := 0;
      heartbeat := 0;
      pingCounter := cfg.tFail;
      timeOutCounter := -1;
      memberList := [];
      return 0;
    }

    /** `introduceSelfToGroup`: the introducer starts the group with itself in it; any
        other node sends one JOINREQ to the introducer. */
    method IntroduceSelfToGroup(joinaddr: Address, now: int) returns (r: int)
      requires Valid()
      modifies this`inGroup, this`memberList, this`nnb, this`events, this`outbox
      ensures r == 1 && Valid()
      ensures State() == Introduce(old(State()), joinaddr, now)
    {
      if addr == joinaddr {
        inGroup := true;
        AddOrUpdateMember(addr, heartbeat, now);
      } else {
        var msg := JoinReqMessage(addr, heartbeat);
        outbox := outbox + [Envelope(addr, joinaddr, msg)];
      }
      return 1;
    }

    /** `finishUpThisNode`: clear the table and leave the group. */
    method FinishUpThisNode() returns (r: int)
      modifies this`memberList, this`inGroup
      ensures r == 0 && Valid()
      ensures State() == old(State()).(memberList := [], inGroup := false)
    {
      memberList := [];
      inGroup := false;
      return 0;
    }

    /** `nodeStart`: initialise, then join through the fixed introducer. Neither step
        reports failure, so the exit paths are never taken (`exits` is false). */
    method NodeStart(now: int) returns (exits: bool)
      modifies this`bFailed, this`inited, this`inGroup, this`nnb, this`heartbeat, this`pingCounter,
        this`timeOutCounter, this`memberList, this`events, this`outbox
      ensures !exits && Valid()
      ensures State() == Start(old(State()), cfg, now)
    {
      var joinaddr := GetJoinAddress();
      var initResult := InitThisNode(joinaddr);
      var joinResult := IntroduceSelfToGroup(joinaddr, now);
      exits := initResult == -1 || joinResult == 0;
    }
  }
}
