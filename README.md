# MP1Node membership protocol, modelled in Dafny

`MP1Node.cpp` is the membership protocol that one node of a small emulated cluster
runs. Every node keeps a membership table. Each row holds a member's `(id, port)` key,
the member's heartbeat counter and the local time at which that heartbeat last went up.

- **Joining.** A node joins by sending a JOINREQ to the introducer at id 1, port 0. The
  introducer merges the joiner into its table and answers with a JOINREP that carries
  the whole table.
- **Each tick.** Once in the group, a node does three things on every tick:
  1. it raises its own heartbeat;
  2. it erases every row that has been silent for at least TREMOVE ticks;
  3. it gossips its whole table (an UPDATEMEMLIST) to a member drawn at random, TPROP
     times, skipping a draw that lands on a row silent for TFAIL ticks or more.
- **Merging.** Every received table is merged row by row with the "newer heartbeat
  wins" rule.

The model has six modules.

- `Wire` (`wire.dfy`) — the bytes that `memcpy` moves in and out of `int`, `short` and
  `long` on a little-endian 64-bit target. A value is truncated modulo 256^width.
- `Addresses` (`address.dfy`) — the 6-byte `Address` and its packing as an `int` id
  followed by a `short` port.
- `MemberTable` (`member_table.dfy`) — the table rows, the merge rule (`Upsert`), the
  refresh of the node's own row, and the removal sweep (`Survivors` / `Removed`).
- `Messages` (`messages.dfy`) — the byte layout of the messages, and the functions that
  read them.
  - JOINREQ: header, address, one unwritten byte, `long` heartbeat; 19 bytes.
  - JOINREP / UPDATEMEMLIST: header, `int` count, 24-byte rows, and 4 trailing bytes.
    The 4 bytes are there because the buffer is sized with `sizeof(long)` for the count.
- `NodeSpec` (`node_spec.dfy`) — specification functions. Each one computes the effect
  of one source function on a snapshot `NodeState` of the node.
- `MP1Node` (`mp1_node.dfy`) — the class `Node`. Its fields are the `Member` record the
  source updates in place: `memberList`, `heartbeat`, `inGroup`, `bFailed`, `nnb`,
  counters, the inbound queue `mp1q`, the `outbox` of sent messages and the `events`
  log. Its methods follow the source's loops. Each method is proved to change exactly
  the fields it names, and to change them as its `NodeSpec` function says.
- `NodeProperties` (`properties.dfy`) — what the protocol promises, proved about those
  functions. It covers:
  - key uniqueness;
  - heartbeat monotonicity;
  - idempotent merging;
  - sweep completeness;
  - bootstrap;
  - the join handshake between two nodes;
  - what a gossip message teaches its receiver.

How the environment is represented:

- **Time.** `par->getcurrtime()` is the `now` argument.
- **Random draw.** The value `rand()` returns is the `draw` argument.
- **Sending.** `emulNet->ENsend` appends an `Envelope` to `outbox`.
- **Logging.** `log->logNodeAdd` and `log->logNodeRemove` append to `events`.
- **Thresholds.** TFAIL, TREMOVE and TPROP are the node's `cfg`.

Four behaviours of the code that the model keeps as written:

- **Gossip target.** `sendMemberListToGroup` reseeds the generator with the current
  time before every draw. Each of the TPROP rounds of one tick therefore picks the same
  row. It is not an independent uniform pick per round. `NodeSpec.Gossip` sends TPROP
  copies to one target, or nothing.
- **Own row.** `increaseSelfHeartbeat` only refreshes the node's own row when it is
  present. It never inserts one.
- **JOINREP.** A JOINREP sets `inGroup` in any state, not only while joining.
- **Member count.** `updateMemberList` trusts the declared member count. It does not
  reject a count larger than the message, so the model requires the count to fit
  (`Messages.IsMemberListMessage`).

## Model

| member | source | states |
|---|---|---|
| Wire.BytesRoundTrip | MP1Node.cpp:20-21 | a value that fits `width` bytes, copied out with `memcpy` and read back as a signed integer, is the same value |
| Wire.SignedRoundTrip | MP1Node.cpp:364-365 | reading `width` bytes as a signed integer and writing it back reproduces the bytes, so no two byte strings read as the same value |
| Addresses.AddressRoundTrip | MP1Node.cpp:16-23 | packing an in-range `(ip, port)` into an address, then reading the id and the port back, gives `ip` and `port` |
| Addresses.GetAddressFromIPAndPort | MP1Node.cpp:16-23 | no contract of its own (it is the packing itself); `AddressRoundTrip`, `AddressOfParts` and `AddressMatchesKey` state that it is a bijection between in-range `(int, short)` keys and addresses |
| Addresses.AddressOfParts | MP1Node.cpp:364-365 | every address is the packing of the id and the port `addOrUpdateMember` reads out of it, so the packing is a bijection |
| Addresses.AddressMatchesKey | MP1Node.cpp:398-399 | the packed address of a row equals an address exactly when the row's id and port equal that address's id and port |
| Addresses.NullAddressIsZeroKey | MP1Node.cpp:283-285 | an address is the null address exactly when its id and its port are both 0 |
| Addresses.IsNullAddress | MP1Node.cpp:283-285 | no contract of its own (a six-byte comparison with zero); `NullAddressIsZeroKey` states that it holds exactly for id 0, port 0, and `GetJoinAddress` that the join address is not null |
| Addresses.GetJoinAddress | MP1Node.cpp:292-300 | the join address has id 1 and port 0, and is not the null address |
| MemberTable.FindMember | MP1Node.cpp:368-381 | the scan finds the first row with the key; it finds none exactly when no row has the key |
| MemberTable.FindMemberUnique | MP1Node.cpp:368-381 | in a table with unique keys, the scan for a row's key finds that very row |
| MemberTable.Upsert | MP1Node.cpp:368-389 | no contract of its own (it is the merge rule); `UpsertKnownKey`, `UpsertUnknownKey`, `UpsertMonotone`, `UpsertKeepsKeysUnique` and `UpsertKeysInRange` state its effect on the table |
| MemberTable.RefreshMember | MP1Node.cpp:395-405 | no contract of its own; `RefreshMemberFrame` and `NodeProperties.SelfBeatOutcome` state that only the row with the node's key changes, taking the new heartbeat and time |
| MemberTable.UpsertKeepsKeysUnique | MP1Node.cpp:362-390 | a merge keeps `(id, port)` keys unique, and afterwards the merged key is present exactly once |
| MemberTable.UpsertKnownKey | MP1Node.cpp:371-378 | merging into a known key stores the larger heartbeat. The timestamp becomes `now` only on a strict increase. An equal or lower heartbeat leaves the table unchanged, and no other row changes |
| MemberTable.UpsertUnknownKey | MP1Node.cpp:383-386 | merging an unknown key appends exactly one row at the end, with the given heartbeat and timestamp `now` |
| MemberTable.UpsertMonotone | MP1Node.cpp:371-378 | a merge keeps every row's key in place and never lowers any row's heartbeat |
| MemberTable.UpsertKeysInRange | MP1Node.cpp:364-365 | when the merged key fits `(int, short)`, every key in the table still does |
| MemberTable.RefreshMemberFrame | MP1Node.cpp:395-405 | refreshing the own row changes no key and keeps keys unique and in range. Only rows with the node's key change, and without such a row the table is unchanged |
| MemberTable.Survivors | MP1Node.cpp:411-420 | no row the sweep keeps is expired, and it keeps at most the rows it was given |
| MemberTable.Removed | MP1Node.cpp:413-418 | every row the sweep erases is expired, and kept plus erased rows number as many as the table had |
| MemberTable.SweepStep | MP1Node.cpp:411-420 | the sweep of rows `i..` keeps row `i` ahead of the rows after it, or erases it after them |
| MemberTable.EraseStep | MP1Node.cpp:418 | at the backward scan's row `i`, erasing an expired row in place, or keeping a live one, extends the swept suffix by one row |
| MemberTable.SurvivorsKeepLive | MP1Node.cpp:413 | every row that is not expired survives the sweep |
| MemberTable.SurvivorsOfConcat | MP1Node.cpp:411-420 | the sweep is an order-keeping filter: sweeping two pieces of a table and joining the results is sweeping the whole |
| MemberTable.SweepPartitions | MP1Node.cpp:411-420 | the kept rows and the erased rows, together, are exactly the rows of the table (as a multiset) |
| MemberTable.SurvivorFrom | MP1Node.cpp:411-420 | every kept row is a row of the table |
| MemberTable.SurvivorsKeepKeys | MP1Node.cpp:408-421 | the sweep keeps keys unique and in range |
| Messages.JoinReqMessage | MP1Node.cpp:144-145 | a JOINREQ is 19 bytes long |
| Messages.MsgType | MP1Node.cpp:238 | no contract of its own (the header read as an `int`); `JoinReqRoundTrip` and `MemberListHeader` state that it reads back the type each sender wrote |
| Messages.JoinReqSender | MP1Node.cpp:241 | no contract of its own (the six bytes after the header); `JoinReqRoundTrip` states that it reads back the address the joiner wrote |
| Messages.JoinReqRoundTrip | MP1Node.cpp:148-150 | reading a JOINREQ back at the offsets of `recvCallBack` (past the one-byte gap) gives type JOINREQ, the sender address and the heartbeat it was built from |
| Messages.JoinReqHeartbeat | MP1Node.cpp:242 | the heartbeat read from a JOINREQ fits a `long` |
| Messages.EntryBytes | MP1Node.cpp:436 | one row is copied as 24 bytes |
| Messages.EntriesBytes | MP1Node.cpp:433-438 | the rows of a table take 24 bytes each |
| Messages.EntriesBytesPrefix | MP1Node.cpp:436-437 | copying one more row, at the advancing write pointer, extends the bytes written so far by that row's bytes |
| Messages.MemberListMessage | MP1Node.cpp:425-427 | a member-list message is 8 + 24n + 4 bytes long for n rows |
| Messages.MemberCount | MP1Node.cpp:352 | no contract of its own (the `int` after the header); `MemberListHeader` states that it reads back the sender's row count |
| Messages.Payload | MP1Node.cpp:352-358 | no contract of its own; `PayloadRow` states it has `count` entries, entry `i` read at offset 8 + 24i, and `MemberListRoundTrip` that on a built message it is the sender's rows in order |
| Messages.Rows | MP1Node.cpp:356-358 | the rows a receiver merges are, position by position, the `(id, port, heartbeat)` of the sender's rows |
| Messages.EntryAt | MP1Node.cpp:356-358 | the id, port and heartbeat read from a row fit an `int`, a `short` and a `long` |
| Messages.EntriesAt | MP1Node.cpp:354-358 | reading n rows gives n entries; entry `i` is the one read at offset 8 + 24i |
| Messages.PayloadRow | MP1Node.cpp:352-358 | row `i < count` of a message lies within the message, and the payload has `count` entries, entry `i` being the row read there |
| Messages.EntriesBytesAt | MP1Node.cpp:436-437 | the bytes of row `i` of a table sit at offset 24i of the copied rows |
| Messages.MessageRowAt | MP1Node.cpp:432-438 | the bytes at offset 8 + 24i of a member-list message are the bytes of row `i` |
| Messages.EntryBytesFields | MP1Node.cpp:436 | the first 4, the next 2 and bytes 8..16 of a copied row read back as its id, port and heartbeat |
| Messages.ReadRow | MP1Node.cpp:356-358 | where the message holds a row's bytes, `updateMemberList` reads that row's id, port and heartbeat |
| Messages.EntryAtRoundTrip | MP1Node.cpp:433-438 | reading row `i` of a built member-list message gives row `i` of the sender's table |
| Messages.MemberListHeader | MP1Node.cpp:430-431 | the header of a member-list message reads back as its type and its row count |
| Messages.EntriesAtRows | MP1Node.cpp:354-358 | reading as many rows as the table has gives back the table's rows in order |
| Messages.MemberListRoundTrip | MP1Node.cpp:423-438 | a member-list message is readable in full. It decodes to its type, its count, and the `(id, port, heartbeat)` of every row, in table order |
| NodeSpec.AddOrUpdateKeepsGoodTable | MP1Node.cpp:362-390 | `addOrUpdateMember` keeps keys unique and in range |
| NodeSpec.AddOrUpdate | MP1Node.cpp:362-390 | no contract of its own (it is `addOrUpdateMember`); `NodeProperties.AddOrUpdateEffect`, `AddOrUpdateKnows`, `AddOrUpdateKnownIsNoop` and `AddOrUpdateKeepsGoodTable` state its effect |
| NodeSpec.MergeAll | MP1Node.cpp:349-360 | merging a payload changes only the table, `nnb` and the log. `nnb` never goes down, and the log is only appended to |
| NodeSpec.MergeAllKeepsGoodTable | MP1Node.cpp:349-360 | merging any payload keeps keys unique and in range |
| NodeSpec.MergePrefixStep | MP1Node.cpp:354-359 | merging the first `i + 1` rows is merging the first `i`, then row `i` at its packed address |
| NodeSpec.Receive | MP1Node.cpp:238-256 | dispatch sets `inGroup` exactly when it was set or the message is a JOINREP. Address, heartbeat and `bFailed` are unchanged. Only a JOINREQ sends anything. Outbox and log are only appended to, and an unknown type changes nothing |
| NodeSpec.SendMemberList | MP1Node.cpp:423-444 | no contract of its own (one envelope appended); `Messages.MemberListRoundTrip` states that its message decodes to the sender's rows, and `NodeProperties.ReceiveJoinReq` / `GossipTeaches` what a receiver learns from it |
| NodeSpec.ReceiveAll | MP1Node.cpp:216-221 | draining the queue keeps address, heartbeat and `bFailed` and never clears `inGroup`. Outbox and log are only appended to |
| NodeSpec.ReceivePrefixStep | MP1Node.cpp:216-221 | draining the first `k + 1` messages is draining the first `k`, then dispatching message `k` (FIFO) |
| NodeSpec.RemoveEvents | MP1Node.cpp:415-417 | one remove event per erased row, naming the row's packed address, in erase order |
| NodeSpec.SelfBeat | MP1Node.cpp:392-406 | no contract of its own (it is `increaseSelfHeartbeat`); `NodeProperties.SelfBeatOutcome` states its effect |
| NodeSpec.SweepEventsStep | MP1Node.cpp:413-418 | at the backward scan's row `i`, logging an expired row (and nothing for a live one) extends the log as the whole sweep orders it |
| NodeSpec.Sweep | MP1Node.cpp:408-421 | the sweep changes only the table and the log, and only appends to the log |
| NodeSpec.Gossip | MP1Node.cpp:327-347 | gossip changes only the outbox. When the drawn row `draw % size` has been silent for less than TFAIL it sends exactly TPROP messages, otherwise nothing. Each message goes to the packed address of that row and carries the whole table as an UPDATEMEMLIST |
| NodeSpec.Ops | MP1Node.cpp:266-276 | the periodic operations raise the heartbeat by exactly one and keep address and flags. No row left is expired, and outbox and log are only appended to |
| NodeSpec.Tick | MP1Node.cpp:187-204 | no contract of its own (it is `nodeLoop`); `NodeProperties.TickHeartbeat`, `TickAppendOnly` and `TickKeepsGoodTable` state its effect |
| NodeSpec.Init | MP1Node.cpp:111-119 | no contract of its own (a record update of the fields `initThisNode` sets); `NodeProperties.StartOutcome` states the initialised node |
| NodeSpec.Introduce | MP1Node.cpp:135-161 | no contract of its own; `NodeProperties.IntroduceOutcome` states its effect from any state |
| NodeSpec.Start | MP1Node.cpp:79-100 | no contract of its own; `NodeProperties.StartOutcome` states the bootstrap outcome |
| NodeProperties.AddOrUpdateKnows | MP1Node.cpp:362-390 | after a merge, the merged key is held with at least the merged heartbeat; every key held before is still held, with at least its old heartbeat |
| NodeProperties.AddOrUpdateKnownIsNoop | MP1Node.cpp:371-379 | merging a key already held with an equal or larger heartbeat changes nothing: no row, no timestamp, no counter, no log event |
| NodeProperties.AddOrUpdateEffect | MP1Node.cpp:383-389 | an unknown key is appended as `(id, port, hb, now)`, `nnb` rises by exactly one and exactly one add event naming the address is logged, and nothing else changes. A known key changes only the table, never its length, `nnb` or the log |
| NodeProperties.MergeAllKnows | MP1Node.cpp:354-359 | after merging a payload, every row of it is held with at least its heartbeat, and nothing held before is lost or lowered |
| NodeProperties.MergeAllKnownIsNoop | MP1Node.cpp:354-359 | merging a payload whose rows are all already held with equal or larger heartbeats changes nothing |
| NodeProperties.MergeAllIdempotent | MP1Node.cpp:349-360 | receiving the same member list a second time, at any later time, has no further effect |
| NodeProperties.ReceiveKeepsGoodTable | MP1Node.cpp:238-256 | dispatching any readable message keeps keys unique and in range |
| NodeProperties.ReceiveJoinReq | MP1Node.cpp:239-245 | a JOINREQ leaves its sender held with at least its heartbeat, and appends exactly one JOINREP to the sender carrying the updated table |
| NodeProperties.ReceiveAllOutcome | MP1Node.cpp:211-223 | draining the queue keeps keys unique and in range, and forgets or lowers nothing held |
| NodeProperties.ReceiveKeepsKnown | MP1Node.cpp:238-256 | dispatching one message forgets or lowers nothing held |
| NodeProperties.OpsKeepsGoodTable | MP1Node.cpp:266-276 | heartbeat, sweep and gossip keep keys unique and in range |
| NodeProperties.TickKeepsGoodTable | MP1Node.cpp:187-204 | one `nodeLoop` keeps keys unique and in range |
| NodeProperties.TickHeartbeat | MP1Node.cpp:187-204 | a failed node is left as it was. Otherwise the node never leaves the group, and its heartbeat rises by exactly one when it is in the group after the drain (and is unchanged otherwise). In that case no row left is expired |
| NodeProperties.TickAppendOnly | MP1Node.cpp:187-204 | one `nodeLoop` only appends to the outbox and to the log |
| NodeProperties.StartOutcome | MP1Node.cpp:79-100 | a started node is alive, initialised, with heartbeat 0. The introducer is in the group, its table is exactly its own row (id 1, port 0, heartbeat 0, timestamp `now`), and it logs one add event and sends nothing. Any other node is out of the group with an empty table and sends exactly one JOINREQ, carrying its address and heartbeat 0, to the join address |
| NodeProperties.IntroduceOutcome | MP1Node.cpp:135-161 | from any state with a good table: the introducer enters the group and holds its own key with at least its heartbeat, sending nothing. Any other node changes only the outbox, which gains exactly one JOINREQ to the join address carrying its address and heartbeat |
| NodeProperties.AddOrUpdateFieldsInRange | MP1Node.cpp:362-390 | merging a heartbeat that fits a `long` keeps every row's fields within their widths |
| NodeProperties.LearnRows | MP1Node.cpp:349-360 | merging the rows of a table leaves every row of that table held with at least its heartbeat |
| NodeProperties.GossipTeaches | MP1Node.cpp:343-345 | every gossip message is a readable UPDATEMEMLIST. A node that receives it keeps its group status, and holds every row of the sender's table with at least the sender's heartbeat |
| NodeProperties.JoinHandshake | MP1Node.cpp:239-249 | the introducer, on a joiner's JOINREQ, holds the joiner and sends it one readable JOINREP. The joiner, on that JOINREP, is in the group and holds every row of the introducer's updated table |
| NodeProperties.SelfBeatOutcome | MP1Node.cpp:392-406 | the counter rises by exactly one. The row with the node's own key takes the new heartbeat and time, every other row is unchanged, and keys stay unique and in range |
| NodeProperties.RemovedFrom | MP1Node.cpp:413-418 | every erased row is a row of the table |
| NodeProperties.SweepOutcome | MP1Node.cpp:408-421 | after the sweep no row is expired and every live row is still there. Kept and erased rows are exactly the old rows. One remove event is logged per erased row, each naming an expired row of the old table |
| MP1Node.Node.constructor | MP1Node.cpp:31-40 | a new node holds its own address (line 39). The empty table, empty queue, outbox and log, and the zero/false counters and flags are those of a freshly constructed `Member` record, whose constructor is not part of this model |
| MP1Node.Node.AddOrUpdateMember | MP1Node.cpp:362-390 | the loop and append change table, `nnb` and log exactly as the merge rule `AddOrUpdate` says, keeping keys unique and in range |
| MP1Node.Node.UpdateMemberList | MP1Node.cpp:349-360 | the loop merges the payload's rows in order (`MergeAll`), keeping keys unique and in range |
| MP1Node.Node.SendMemberListToMember | MP1Node.cpp:423-444 | the copy loop builds the member-list message of the whole table, and exactly that one message is appended to the outbox |
| MP1Node.Node.SendJoinRepMsg | MP1Node.cpp:322-325 | appends exactly one JOINREP carrying the whole table, to the given address |
| MP1Node.Node.RecvCallBack | MP1Node.cpp:230-257 | the node changes as `Receive` says, keeping the table invariant. The result is true exactly for the three known message types |
| MP1Node.Node.CheckMessages | MP1Node.cpp:211-223 | the queue ends empty, and the node has dispatched every queued message, front first (`ReceiveAll`) |
| MP1Node.Node.IncreaseSelfHeartbeat | MP1Node.cpp:392-406 | the loop raises the heartbeat by one and refreshes the first row whose packed address is the node's own (`SelfBeat`), keeping the table invariant |
| MP1Node.Node.DeleteFailedNodes | MP1Node.cpp:408-421 | the backward erase loop leaves exactly the sweep's survivors and logs exactly its removals (`Sweep`), keeping the table invariant |
| MP1Node.Node.SendMemberListToGroup | MP1Node.cpp:327-347 | the TPROP rounds append exactly what `Gossip` sends |
| MP1Node.Node.NodeLoopOps | MP1Node.cpp:266-276 | heartbeat, then sweep, then gossip, in that order (`Ops`), keeping the table invariant |
| MP1Node.Node.NodeLoop | MP1Node.cpp:187-204 | a failed node is untouched. Otherwise the queue is drained and, when in the group, the periodic operations run (`Tick`). The table invariant holds throughout |
| MP1Node.Node.InitThisNode | MP1Node.cpp:107-122 | returns 0 and resets flags, counters and table as `initThisNode` does (`Init`) |
| MP1Node.Node.IntroduceSelfToGroup | MP1Node.cpp:129-165 | returns 1. The introducer joins and merges itself; any other node sends one JOINREQ to the join address (`Introduce`) |
| MP1Node.Node.FinishUpThisNode | MP1Node.cpp:172-179 | returns 0 with an empty table, out of the group, and every other field unchanged |
| MP1Node.Node.NodeStart | MP1Node.cpp:79-100 | does not exit. The node is initialised and introduced to the join address (`Start`), and its outcome is `StartOutcome` |

## Left out

- Network plumbing: `recvLoop`, `enqueueWrapper` and `emulNet->ENsend/ENrecv` are foreign calls.
  - A send appends to `outbox`.
  - The received messages are the `mp1q` sequence.
  - The `size` argument of `recvCallBack` is the message's length.
- Randomness: `srand`/`rand` are a library generator; the drawn value is the `draw` argument.
- Time: `par->getcurrtime()` is the `now` argument.
- `printAddress` and the `DEBUGLOG` logging are console output.
- `nodeStart`'s `exit(1)` paths are not modelled. `initThisNode` always returns 0 and `introduceSelfToGroup` always returns 1, so neither path is taken; `NodeStart` returns `exits = false` to show it.
- The `Member`, `Address`, `MessageHdr` and `MemberListEntry` declarations and the TFAIL, TREMOVE and TPROP constants are not part of this model. The model assumes:
  - field widths int 4, short 2, long 8;
  - little-endian order;
  - 2 padding bytes after the port;
  - a 4-byte `MessageHdr`;
  - enum values JOINREQ 0, JOINREP 1, UPDATEMEMLIST 2;
  - thresholds as a `Config`.
- `Member`'s own constructor is not part of this model; `MP1Node.Node.constructor` assumes it leaves the table and queue empty and every counter and flag at zero/false. The `NULLADDR` array that the constructor clears is `Addresses.NullAddr`.
- Bytes that `malloc` leaves uninitialised and struct padding are modelled as 0.
- Address equality (`==` on `Address`) is taken as equality of the six bytes.
- The `heartbeat` counter is an unbounded integer. A 64-bit wrap-around after 2^63 ticks is not modelled.
- Multi-node convergence and lossy delivery are not modelled. `JoinHandshake` and `GossipTeaches` relate two nodes one message at a time.
- MP1Node.Node.UpdateMemberList: requires the declared count to fit in the message (`IsMemberListMessage`). The source reads past the buffer otherwise, which is undefined behaviour. The same holds for `NodeSpec.Receive`, `MP1Node.Node.RecvCallBack` and `MP1Node.Node.CheckMessages` through `WellFormed`.
- MP1Node.Node.SendMemberListToGroup: requires a non-empty table, because `rand() % size` divides by zero on an empty one. `NodeSpec.Gossip`, `NodeSpec.Ops`, `MP1Node.Node.NodeLoopOps` and `MP1Node.Node.NodeLoop` carry the same requirement through `OpsDefined` / `TickDefined`.
- Messages.MemberListRoundTrip: holds only when the row count fits an `int` and every field fits its declared width. The source truncates silently otherwise. `GossipTeaches` and `JoinHandshake` carry the same requirement.
- The timestamp of each row is sent but never read by the receiver, so `Messages.GossipEntry` omits it.
