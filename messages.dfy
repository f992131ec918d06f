/** The wire format of the three protocol messages. Every message starts with a
    4-byte `MessageHdr` holding the message type; a JOINREQ carries the sender's address
    and heartbeat, a JOINREP or UPDATEMEMLIST a member count and that many table rows. */
module Messages {
  import opened Wire
  import opened Addresses
  import opened MemberTable

  /** The values of `enum MsgTypes`. */
  const JOINREQ: int := 0
  const JOINREP: int := 1
  const UPDATEMEMLIST: int := 2

  /** sizeof(MessageHdr): one enum. */
  const HeaderSize: nat := 4
  /** sizeof(MemberListEntry): int id, short port, 2 bytes of padding, long heartbeat, long timestamp. */
  const EntrySize: nat := 24
  /** A JOINREQ: header, address, one unwritten byte, heartbeat. */
  const JoinReqSize: nat := 19
  /** Where the first table row of a member-list message starts: header, then the `int` count. */
  const EntriesOffset: nat := 8

  /** The message type `recvCallBack` switches on. */
  function MsgType(msg: seq<byte>): int
    requires |msg| >= HeaderSize
  {
    Signed(msg[..HeaderSize])
  }

  /** The JOINREQ `introduceSelfToGroup` builds: the address right after the header, then one
      byte left as allocated (modelled as 0), then the `long` heartbeat. */
  function JoinReqMessage(self: Address, heartbeat: int): (m: seq<byte>)
    ensures |m| == JoinReqSize
  {
    IntBytes(JOINREQ) + self + [0] + LongBytes(heartbeat)
  }

  /** The sender address `recvCallBack` reads out of a JOINREQ. */
  function JoinReqSender(msg: seq<byte>): Address
    requires |msg| >= JoinReqSize
  {
    msg[HeaderSize..HeaderSize + AddressSize]
  }

  /** The sender heartbeat `recvCallBack` reads out of a JOINREQ, past the gap byte. */
  function JoinReqHeartbeat(msg: seq<byte>): (hb: int)
    requires |msg| >= JoinReqSize
    ensures IsLong(hb)
  {
    Signed(msg[HeaderSize + AddressSize + 1..JoinReqSize])
  }

  /** A JOINREQ decodes to the type, address and heartbeat it was built from. */
  lemma JoinReqRoundTrip(self: Address, heartbeat: int)
    requires IsLong(heartbeat)
    ensures var m := JoinReqMessage(self, heartbeat);
      MsgType(m) == JOINREQ && JoinReqSender(m) == self && JoinReqHeartbeat(m) == heartbeat
  {
    var m := JoinReqMessage(self, heartbeat);
    assert m[..HeaderSize] == IntBytes(JOINREQ);
    assert m[HeaderSize + AddressSize + 1..JoinReqSize] == LongBytes(heartbeat);
    BytesRoundTrip(JOINREQ, IntSize);
    BytesRoundTrip(heartbeat, LongSize);
  }

  /** The bytes of one table row as `memcpy` copies it (padding modelled as 0). */
  function EntryBytes(e: MemberListEntry): (b: seq<byte>)
    ensures |b| == EntrySize
  {
    IntBytes(e.id) + ShortBytes(e.port) + [0, 0] + LongBytes(e.heartbeat) + LongBytes(e.timestamp)
  }

  /** The rows of a table, copied one after another. */
  function EntriesBytes(list: seq<MemberListEntry>): (b: seq<byte>)
    ensures |b| == EntrySize * |list|
  {
    if list == [] then [] else EntriesBytes(list[..|list| - 1]) + EntryBytes(list[|list| - 1])
  }

  /** Copying one more row extends the bytes of a table prefix by that row's bytes. */
  lemma EntriesBytesPrefix(list: seq<MemberListEntry>, i: nat)
    requires i < |list|
    ensures EntriesBytes(list[..i + 1]) == EntriesBytes(list[..i]) + EntryBytes(list[i])
  {
    assert list[..i + 1][..i] == list[..i];
  }

  /** The message `sendMemberListToMember` builds: header, the `int` count, the rows, and the
      4 bytes the allocation adds by sizing the count as a `long` (modelled as 0). */
  function MemberListMessage(msgType: int, list: seq<MemberListEntry>): (m: seq<byte>)
    ensures |m| == EntriesOffset + EntrySize * |list| + 4
  {
    IntBytes(msgType) + IntBytes(|list|) + EntriesBytes(list) + [0, 0, 0, 0]
  }

  /** The count `updateMemberList` reads. */
  function MemberCount(msg: seq<byte>): int
    requires |msg| >= EntriesOffset
  {
    Signed(msg[HeaderSize..EntriesOffset])
  }

  /** What `updateMemberList` uses of a row: id, port and heartbeat (the timestamp is ignored). */
  datatype GossipEntry = GossipEntry(id: int, port: int, heartbeat: int)

  /** The (id, port, heartbeat) of each row of a table, in order. */
  function Rows(list: seq<MemberListEntry>): (r: seq<GossipEntry>)
    ensures |r| == |list|
    ensures forall k :: 0 <= k < |list| ==> r[k] == GossipEntry(list[k].id, list[k].port, list[k].heartbeat)
  {
    if list == [] then []
    else
      var last := list[|list| - 1];
      Rows(list[..|list| - 1]) + [GossipEntry(last.id, last.port, last.heartbeat)]
  }

  /** Row `i` as `updateMemberList` reads it. */
  function EntryAt(msg: seq<byte>, i: nat): (g: GossipEntry)
    requires EntriesOffset + EntrySize * (i + 1) <= |msg|
    ensures IsInt(g.id) && IsShort(g.port) && IsLong(g.heartbeat)
  {
    var o := EntriesOffset + EntrySize * i;
    GossipEntry(Signed(msg[o..o + 4]), Signed(msg[o + 4..o + 6]), Signed(msg[o + 8..o + 16]))
  }

  /** The first n rows of a member-list message. */
  function EntriesAt(msg: seq<byte>, n: nat): (r: seq<GossipEntry>)
    requires EntriesOffset + EntrySize * n <= |msg|
    ensures |r| == n
    ensures forall i :: 0 <= i < n ==> r[i] == EntryAt(msg, i)
  {
    if n == 0 then [] else EntriesAt(msg, n - 1) + [EntryAt(msg, n - 1)]
  }

  /** The member-list messages a receiver can read in full: the declared count of rows
      lies within the message (the source does not check this; it is required of callers). */
  predicate IsMemberListMessage(msg: seq<byte>)
  {
    |msg| >= EntriesOffset && EntriesOffset + EntrySize * MemberCount(msg) <= |msg|
  }

  /** The rows `updateMemberList` merges: none when the declared count is not positive. */
  function Payload(msg: seq<byte>): seq<GossipEntry>
    requires IsMemberListMessage(msg)
  {
    if MemberCount(msg) <= 0 then [] else EntriesAt(msg, MemberCount(msg))
  }

  /** Row i of a payload lies within the message and is the row `updateMemberList` reads. */
  lemma PayloadRow(msg: seq<byte>, i: nat)
    requires IsMemberListMessage(msg) && i < MemberCount(msg)
    ensures EntriesOffset + EntrySize * (i + 1) <= |msg|
    ensures |Payload(msg)| == MemberCount(msg) && Payload(msg)[i] == EntryAt(msg, i)
  {
    MulMonotone(i + 1, MemberCount(msg));
  }

  /** The messages `recvCallBack` can read without going past their end. */
  predicate WellFormed(msg: seq<byte>)
  {
    |msg| >= HeaderSize &&
    (MsgType(msg) == JOINREQ ==> |msg| >= JoinReqSize) &&
    (MsgType(msg) == JOINREP || MsgType(msg) == UPDATEMEMLIST ==> IsMemberListMessage(msg))
  }

  /** Every field of the rows a message carries fits its declared width. */
  predicate FieldsInRange(list: seq<MemberListEntry>)
  {
    forall i :: 0 <= i < |list| ==> IsInt(list[i].id) && IsShort(list[i].port) && IsLong(list[i].heartbeat)
  }

  lemma {:induction false} EntriesBytesAt(list: seq<MemberListEntry>, i: nat)
    requires i < |list|
    ensures EntriesBytes(list)[EntrySize * i..EntrySize * i + EntrySize] == EntryBytes(list[i])
  {
    var n := |list|;
    var front := list[..n - 1];
    var head, b := EntriesBytes(front), EntriesBytes(list);
    var lo := EntrySize * i;
    assert b == head + EntryBytes(list[n - 1]);
    if i < n - 1 {
      assert lo + EntrySize <= |head| by { MulMonotone(i + 1, n - 1); }
      assert b[lo..lo + EntrySize] == head[lo..lo + EntrySize];
      EntriesBytesAt(front, i);
      assert front[i] == list[i];
    } else {
      assert lo == |head|;
      assert b[lo..lo + EntrySize] == EntryBytes(list[n - 1]);
    }
  }

  lemma MulMonotone(a: nat, b: nat)
    requires a <= b
    ensures EntrySize * a <= EntrySize * b
  {
  }

  /** Row i of a member-list message holds the bytes of row i of the table. */
  lemma {:induction false} MessageRowAt(msgType: int, list: seq<MemberListEntry>, i: nat)
    requires i < |list|
    ensures var m := MemberListMessage(msgType, list);
      var o := EntriesOffset + EntrySize * i;
      o + EntrySize <= |m| && m[o..o + EntrySize] == EntryBytes(list[i])
  {
    var m := MemberListMessage(msgType, list);
    var o := EntriesOffset + EntrySize * i;
    var rows := EntriesBytes(list);
    assert m == (IntBytes(msgType) + IntBytes(|list|)) + rows + [0, 0, 0, 0];
    assert m[o..o + EntrySize] == rows[EntrySize * i..EntrySize * i + EntrySize];
    EntriesBytesAt(list, i);
  }

  /** The id, port and heartbeat fields of a row's bytes read back as the row's own. */
  lemma EntryBytesFields(e: MemberListEntry)
    requires IsInt(e.id) && IsShort(e.port) && IsLong(e.heartbeat)
    ensures var b := EntryBytes(e);
      Signed(b[..4]) == e.id && Signed(b[4..6]) == e.port && Signed(b[8..16]) == e.heartbeat
  {
    var b := EntryBytes(e);
    assert b[..4] == IntBytes(e.id);
    assert b[4..6] == ShortBytes(e.port);
    assert b[8..16] == LongBytes(e.heartbeat);
    BytesRoundTrip(e.id, IntSize);
    BytesRoundTrip(e.port, ShortSize);
    BytesRoundTrip(e.heartbeat, LongSize);
  }

  /** A message whose row i holds the bytes of e reads back e's id, port and heartbeat. */
  lemma ReadRow(msg: seq<byte>, i: nat, e: MemberListEntry)
    requires EntriesOffset + EntrySize * (i + 1) <= |msg|
    requires msg[EntriesOffset + EntrySize * i..EntriesOffset + EntrySize * i + EntrySize] == EntryBytes(e)
    requires IsInt(e.id) && IsShort(e.port) && IsLong(e.heartbeat)
    ensures EntryAt(msg, i) == GossipEntry(e.id, e.port, e.heartbeat)
  {
    var o := EntriesOffset + EntrySize * i;
    EntryBytesFields(e);
    SubSlice(msg, o, EntrySize, 0, 4);
    SubSlice(msg, o, EntrySize, 4, 6);
    SubSlice(msg, o, EntrySize, 8, 16);
  }

  /** Reading row i of a member-list message gives back row i of the table it was built from. */
  lemma EntryAtRoundTrip(msgType: int, list: seq<MemberListEntry>, i: nat)
    requires i < |list| && FieldsInRange(list)
    ensures var m := MemberListMessage(msgType, list);
      EntriesOffset + EntrySize * (i + 1) <= |m| &&
      EntryAt(m, i) == GossipEntry(list[i].id, list[i].port, list[i].heartbeat)
  {
    MessageRowAt(msgType, list, i);
    ReadRow(MemberListMessage(msgType, list), i, list[i]);
  }

  /** The header of a member-list message decodes to its type and row count. */
  lemma MemberListHeader(msgType: int, list: seq<MemberListEntry>)
    requires IsInt(msgType) && IsInt(|list|)
    ensures var m := MemberListMessage(msgType, list);
      MsgType(m) == msgType && MemberCount(m) == |list|
  {
    var m := MemberListMessage(msgType, list);
    assert m[..HeaderSize] == IntBytes(msgType);
    assert m[HeaderSize..EntriesOffset] == IntBytes(|list|);
    BytesRoundTrip(msgType, IntSize);
    BytesRoundTrip(|list|, IntSize);
  }

  /** Reading as many rows as the table has gives back the table's rows. */
  lemma EntriesAtRows(msgType: int, list: seq<MemberListEntry>)
    requires FieldsInRange(list)
    ensures EntriesAt(MemberListMessage(msgType, list), |list|) == Rows(list)
  {
    var m := MemberListMessage(msgType, list);
    var got := EntriesAt(m, |list|);
    forall i | 0 <= i < |list| ensures got[i] == Rows(list)[i] {
      EntryAtRoundTrip(msgType, list, i);
    }
  }

  /** A member-list message decodes to its type, its row count and the (id, port, heartbeat)
      of every row, in table order. */
  lemma MemberListRoundTrip(msgType: int, list: seq<MemberListEntry>)
    requires IsInt(msgType) && IsInt(|list|) && FieldsInRange(list)
    ensures var m := MemberListMessage(msgType, list);
      IsMemberListMessage(m) && MsgType(m) == msgType && MemberCount(m) == |list| &&
      Payload(m) == Rows(list)
  {
    MemberListHeader(msgType, list);
    EntriesAtRows(msgType, list);
  }
}
