/** The membership table: one `MemberListEntry` per known member, keyed by (id, port),
    with the "newer heartbeat wins" merge rule and the removal sweep. */
module MemberTable {
  import opened Wire

  datatype Option<T> = None | Some(value: T)

  /** One row of the table. `timestamp` is the local time of the last heartbeat increase. */
  datatype MemberListEntry = MemberListEntry(id: int, port: int, heartbeat: int, timestamp: int)

  predicate HasKey(e: MemberListEntry, id: int, port: int)
  {
    e.id == id && e.port == port
  }

  /** No two rows share an (id, port) key. */
  predicate UniqueKeys(list: seq<MemberListEntry>)
  {
    forall i, j :: 0 <= i < j < |list| ==> !HasKey(list[j], list[i].id, list[i].port)
  }

  /** Every key is an (int, short) pair, as the row's fields are declared. */
  predicate KeysInRange(list: seq<MemberListEntry>)
  {
    forall i :: 0 <= i < |list| ==> IsInt(list[i].id) && IsShort(list[i].port)
  }

  /** Index of the first row with the given key, as a forward scan finds it. */
  function FindMember(list: seq<MemberListEntry>, id: int, port: int): (r: Option<nat>)
    ensures r.Some? ==> r.value < |list| && HasKey(list[r.value], id, port)
    ensures r.Some? ==> forall j :: 0 <= j < r.value ==> !HasKey(list[j], id, port)
    ensures r.None? <==> forall j :: 0 <= j < |list| ==> !HasKey(list[j], id, port)
  {
    if list == [] then None
    else if HasKey(list[0], id, port) then Some(0)
    else match FindMember(list[1..], id, port)
      case None => None
      case Some(k) => Some(k + 1)
  }

  /** In a table with unique keys, the row holding a key is the one FindMember finds. */
  lemma FindMemberUnique(list: seq<MemberListEntry>, i: nat)
    requires UniqueKeys(list) && i < |list|
    ensures FindMember(list, list[i].id, list[i].port) == Some(i)
  {
  }

  /** The merge rule: an unknown key is appended with timestamp `now`; a strictly larger
      heartbeat replaces the stored one and refreshes the timestamp; otherwise nothing. */
  function Upsert(list: seq<MemberListEntry>, id: int, port: int, heartbeat: int, now: int): seq<MemberListEntry>
  {
    match FindMember(list, id, port)
    case None => list + [MemberListEntry(id, port, heartbeat, now)]
    case Some(i) =>
      if list[i].heartbeat < heartbeat then list[i := list[i].(heartbeat := heartbeat, timestamp := now)]
      else list
  }

  function Max(a: int, b: int): int { if a < b then b else a }

  /** Merging keeps keys unique and leaves the merged key present exactly once. */
  lemma UpsertKeepsKeysUnique(list: seq<MemberListEntry>, id: int, port: int, heartbeat: int, now: int)
    requires UniqueKeys(list)
    ensures var r := Upsert(list, id, port, heartbeat, now);
      UniqueKeys(r) &&
      exists i :: 0 <= i < |r| && HasKey(r[i], id, port) &&
        forall j :: 0 <= j < |r| && HasKey(r[j], id, port) ==> j == i
  {
    var r := Upsert(list, id, port, heartbeat, now);
    match FindMember(list, id, port)
    case None =>
      assert HasKey(r[|list|], id, port);
    case Some(i) =>
      assert HasKey(r[i], id, port);
      forall j | 0 <= j < |r| && HasKey(r[j], id, port) ensures j == i {
      }
  }

  /** Merging into a known key: the stored heartbeat becomes the larger of the two, the
      timestamp moves to `now` only on a strict increase, and no other row changes. */
  lemma UpsertKnownKey(list: seq<MemberListEntry>, i: nat, heartbeat: int, now: int)
    requires UniqueKeys(list) && i < |list|
    ensures var r := Upsert(list, list[i].id, list[i].port, heartbeat, now);
      |r| == |list| &&
      r[i].heartbeat == Max(list[i].heartbeat, heartbeat) &&
      r[i].timestamp == (if list[i].heartbeat < heartbeat then now else list[i].timestamp) &&
      HasKey(r[i], list[i].id, list[i].port) &&
      (heartbeat <= list[i].heartbeat ==> r == list) &&
      forall j :: 0 <= j < |list| && j != i ==> r[j] == list[j]
  {
    FindMemberUnique(list, i);
  }

  /** Merging an unknown key appends one row at the end and changes nothing else. */
  lemma UpsertUnknownKey(list: seq<MemberListEntry>, id: int, port: int, heartbeat: int, now: int)
    requires forall j :: 0 <= j < |list| ==> !HasKey(list[j], id, port)
    ensures Upsert(list, id, port, heartbeat, now) == list + [MemberListEntry(id, port, heartbeat, now)]
  {
    assert FindMember(list, id, port).None?;
  }

  /** Merging never lowers the heartbeat stored under any key and never removes a key. */
  lemma UpsertMonotone(list: seq<MemberListEntry>, id: int, port: int, heartbeat: int, now: int, k: nat)
    requires k < |list|
    ensures var r := Upsert(list, id, port, heartbeat, now);
      k < |r| && HasKey(r[k], list[k].id, list[k].port) && r[k].heartbeat >= list[k].heartbeat
  {
  }

  /** Merging keeps keys in range when the merged key is in range. */
  lemma UpsertKeysInRange(list: seq<MemberListEntry>, id: int, port: int, heartbeat: int, now: int)
    requires KeysInRange(list) && IsInt(id) && IsShort(port)
    ensures KeysInRange(Upsert(list, id, port, heartbeat, now))
  {
  }

  /** The row with `id, port` (the first one) gets heartbeat `heartbeat` and timestamp
      `now`; without such a row the table is unchanged. */
  function RefreshMember(list: seq<MemberListEntry>, id: int, port: int, heartbeat: int, now: int): seq<MemberListEntry>
  {
    match FindMember(list, id, port)
    case None => list
    case Some(i) => list[i := list[i].(heartbeat := heartbeat, timestamp := now)]
  }

  /** Refreshing changes no key, so unique and in-range keys stay so, and touches one row only. */
  lemma RefreshMemberFrame(list: seq<MemberListEntry>, id: int, port: int, heartbeat: int, now: int)
    ensures var r := RefreshMember(list, id, port, heartbeat, now);
      |r| == |list| &&
      (UniqueKeys(list) ==> UniqueKeys(r)) &&
      (KeysInRange(list) ==> KeysInRange(r)) &&
      (forall j :: 0 <= j < |list| ==> HasKey(r[j], list[j].id, list[j].port)) &&
      (FindMember(list, id, port).None? ==> r == list) &&
      forall j :: 0 <= j < |list| && !HasKey(list[j], id, port) ==> r[j] == list[j]
  {
    var r := RefreshMember(list, id, port, heartbeat, now);
    if UniqueKeys(list) {
      forall i, j | 0 <= i < j < |r| ensures !HasKey(r[j], r[i].id, r[i].port) {
        assert HasKey(r[i], list[i].id, list[i].port) && HasKey(r[j], list[j].id, list[j].port);
      }
    }
  }

  /** A row is expired once it has been silent for at least `tRemove` ticks. */
  predicate Expired(e: MemberListEntry, now: int, tRemove: int)
  {
    now - e.timestamp >= tRemove
  }

  /** The rows the sweep keeps, in table order. */
  function Survivors(list: seq<MemberListEntry>, now: int, tRemove: int): (r: seq<MemberListEntry>)
    ensures |r| <= |list|
    ensures forall k :: 0 <= k < |r| ==> !Expired(r[k], now, tRemove)
  {
    if list == [] then []
    else (if Expired(list[0], now, tRemove) then [] else [list[0]]) + Survivors(list[1..], now, tRemove)
  }

  /** The rows the sweep erases, in the order it erases them: from the back of the table. */
  function Removed(list: seq<MemberListEntry>, now: int, tRemove: int): (r: seq<MemberListEntry>)
    ensures forall k :: 0 <= k < |r| ==> Expired(r[k], now, tRemove)
    ensures |r| + |Survivors(list, now, tRemove)| == |list|
  {
    if list == [] then []
    else Removed(list[1..], now, tRemove) + (if Expired(list[0], now, tRemove) then [list[0]] else [])
  }

  /** One step of the backward sweep: row i is kept in front of, or erased after, the rest. */
  lemma SweepStep(list: seq<MemberListEntry>, i: nat, now: int, tRemove: int)
    requires i < |list|
    ensures Survivors(list[i..], now, tRemove) ==
      (if Expired(list[i], now, tRemove) then [] else [list[i]]) + Survivors(list[i + 1..], now, tRemove)
    ensures Removed(list[i..], now, tRemove) ==
      Removed(list[i + 1..], now, tRemove) + (if Expired(list[i], now, tRemove) then [list[i]] else [])
  {
    assert list[i..][1..] == list[i + 1..];
  }

  /** The backward sweep's step at row i, on a table whose rows after i are already swept. */
  lemma EraseStep(list: seq<MemberListEntry>, i: nat, cur: seq<MemberListEntry>, now: int, tRemove: int)
    requires i < |list| && cur == list[..i + 1] + Survivors(list[i + 1..], now, tRemove)
    ensures i < |cur| && cur[i] == list[i]
    ensures Expired(list[i], now, tRemove) ==> cur[..i] + cur[i + 1..] == list[..i] + Survivors(list[i..], now, tRemove)
    ensures !Expired(list[i], now, tRemove) ==> cur == list[..i] + Survivors(list[i..], now, tRemove)
    ensures Removed(list[i..], now, tRemove) ==
      Removed(list[i + 1..], now, tRemove) + (if Expired(list[i], now, tRemove) then [list[i]] else [])
  {
    SweepStep(list, i, now, tRemove);
    assert cur[..i] == list[..i];
    assert cur[i + 1..] == Survivors(list[i + 1..], now, tRemove);
    assert list[..i + 1] == list[..i] + [list[i]];
  }

  /** Every row that is not expired survives the sweep. */
  lemma {:induction false} SurvivorsKeepLive(list: seq<MemberListEntry>, now: int, tRemove: int, k: nat)
    requires k < |list| && !Expired(list[k], now, tRemove)
    ensures list[k] in Survivors(list, now, tRemove)
  {
    if k > 0 {
      SurvivorsKeepLive(list[1..], now, tRemove, k - 1);
    }
  }

  /** The sweep is a filter: it keeps the relative order of the rows it keeps. */
  lemma {:induction false} SurvivorsOfConcat(a: seq<MemberListEntry>, b: seq<MemberListEntry>, now: int, tRemove: int)
    ensures Survivors(a + b, now, tRemove) == Survivors(a, now, tRemove) + Survivors(b, now, tRemove)
  {
    if a != [] {
      assert (a + b)[1..] == a[1..] + b;
      SurvivorsOfConcat(a[1..], b, now, tRemove);
    } else {
      assert a + b == b;
    }
  }

  /** Every row is either kept or erased (once), and the erased rows are the expired ones. */
  lemma {:induction false} SweepPartitions(list: seq<MemberListEntry>, now: int, tRemove: int)
    ensures multiset(Survivors(list, now, tRemove)) + multiset(Removed(list, now, tRemove)) == multiset(list)
  {
    if list != [] {
      SweepPartitions(list[1..], now, tRemove);
      assert list == [list[0]] + list[1..];
    }
  }

  /** Every surviving row is a row of the table. */
  lemma {:induction false} SurvivorFrom(list: seq<MemberListEntry>, now: int, tRemove: int, k: nat)
    requires k < |Survivors(list, now, tRemove)|
    ensures exists m :: 0 <= m < |list| && list[m] == Survivors(list, now, tRemove)[k]
  {
    var r := Survivors(list, now, tRemove);
    if Expired(list[0], now, tRemove) {
      SurvivorFrom(list[1..], now, tRemove, k);
      var m :| 0 <= m < |list[1..]| && list[1..][m] == r[k];
      assert list[m + 1] == r[k];
    } else if k == 0 {
      assert list[0] == r[0];
    } else {
      SurvivorFrom(list[1..], now, tRemove, k - 1);
      var m :| 0 <= m < |list[1..]| && list[1..][m] == r[k];
      assert list[m + 1] == r[k];
    }
  }

  /** The sweep keeps keys unique and in range. */
  lemma {:induction false} SurvivorsKeepKeys(list: seq<MemberListEntry>, now: int, tRemove: int)
    ensures UniqueKeys(list) ==> UniqueKeys(Survivors(list, now, tRemove))
    ensures KeysInRange(list) ==> KeysInRange(Survivors(list, now, tRemove))
  {
    if list != [] {
      var rest := Survivors(list[1..], now, tRemove);
      SurvivorsKeepKeys(list[1..], now, tRemove);
      var r := Survivors(list, now, tRemove);
      if UniqueKeys(list) && !Expired(list[0], now, tRemove) {
        assert r == [list[0]] + rest;
        forall i, j | 0 <= i < j < |r| ensures !HasKey(r[j], r[i].id, r[i].port) {
          if i == 0 {
            assert r[j] == rest[j - 1];
            SurvivorFrom(list[1..], now, tRemove, j - 1);
            var m :| 0 <= m < |list[1..]| && list[1..][m] == r[j];
            assert list[m + 1] == r[j];
          } else {
            assert r[i] == rest[i - 1] && r[j] == rest[j - 1];
          }
        }
      }
    }
  }
}
