/** The redundancy protocol of wispr_proto.c: the ingress numbers the packets of each session and sends two
    copies of each, the egress forwards one of them. */
module WisprDelivery {
  import opened Octets
  import opened WisprTags

  /** The pair of addresses that keys a session, as the bytes of a frame */
  datatype Key = Key(src: seq<byte>, dst: seq<byte>)

  const TIMEOUT: int := 600

  // ---- ingress ----

  class Ingress {
    const paths: nat
    const groups: nat
    /** The hash table, with the VLAN id of each session */
    var sessions: map<Key, nat>
    /** How many packets each session has sent */
    ghost var sent: map<Key, nat>

    ghost predicate Valid()
      reads this
    {
      && Sizes(paths, groups) && sent.Keys == sessions.Keys
      && (forall k :: k in sessions ==> sessions[k] == TagOf(sent[k], paths, groups))
    }

    constructor (paths: nat, groups: nat)
      requires Sizes(paths, groups)
      ensures Valid() && sessions == map[] && this.paths == paths && this.groups == groups
    {
      this.paths, this.groups := paths, groups;
      sessions := map[];
      sent := map[];
    }

    /** process_ingress0: the ids of the two copies that are sent for the session's next packet */
    method ProcessIngress0(key: Key) returns (first: nat, second: nat)
      requires Valid()
      modifies this
      ensures Valid()
      ensures sent == old(sent)[key := (if key in old(sent) then old(sent)[key] else 0) + 1]
      ensures first == TagOf(sent[key], paths, groups) && second == Mirrored(first)
      ensures paths > 0 && groups > 0 && sent[key] > 0
      ensures first == (sent[key] - 1) / paths % groups * 16 + (sent[key] - 1) % paths + 1 && second == first + 256
    {
      hide NextTag, TagOf, Mirrored, PacketNumber, GroupId, WisprMode;
      if key !in sessions {
        FreshTag(paths, groups);
        sessions := sessions[key := 0];
        sent := sent[key := 0];
      }
      NextTagIs(sent[key], paths, groups);
      sessions := sessions[key := NextTag(sessions[key], paths, groups)];
      sent := sent[key := sent[key] + 1];
      TagNumbers(sent[key], paths, groups);
      return sessions[key], Mirrored(sessions[key]);
    }
  }

  lemma TagNumbers(n: nat, paths: nat, groups: nat)
    requires Sizes(paths, groups) && n > 0
    ensures TagOf(n, paths, groups) == (n - 1) / paths % groups * 16 + (n - 1) % paths + 1
    ensures Mirrored(TagOf(n, paths, groups)) == TagOf(n, paths, groups) + 256
  {
    hide PacketNumber, GroupId, WisprMode, Mirrored;
    EgressReads(n, paths, groups);
  }

  lemma FreshTag(paths: nat, groups: nat)
    requires Sizes(paths, groups)
    ensures TagOf(0, paths, groups) == 0
  {
  }

  // ---- egress ----

  /** A session's table of times, by group and packet number */
  type Times = map<(nat, nat), int>
  type Sessions = map<Key, Times>

  /** The entry for a packet; a session is added with all times zero. */
  function TimeOf(sessions: Sessions, key: Key, cell: (nat, nat)): int {
    if key in sessions && cell in sessions[key] then sessions[key][cell] else 0
  }

  function Cell(tag: nat): (nat, nat) {
    (GroupId(tag), PacketNumber(tag))
  }

  predicate Accepts(sessions: Sessions, key: Key, tag: nat, now: int, paths: nat) {
    WisprMode(tag) != 3 && (now - TimeOf(sessions, key, Cell(tag)) > TIMEOUT || paths == 1)
  }

  /** The table of a new session */
  function Zeros(paths: nat, groups: nat): Times {
    map g, p | 0 <= g < groups && 0 <= p <= paths :: (g, p) := 0
  }

  function GetOrAdd(sessions: Sessions, key: Key, paths: nat, groups: nat): Sessions {
    if key in sessions then sessions else sessions[key := Zeros(paths, groups)]
  }

  /** The entry is overwritten when the packet is accepted. */
  function Update(sessions: Sessions, key: Key, tag: nat, now: int, paths: nat, groups: nat): Sessions {
    if WisprMode(tag) == 3 then sessions else
      var found := GetOrAdd(sessions, key, paths, groups);
      if Accepts(sessions, key, tag, now, paths) then found[key := found[key][Cell(tag) := now]] else found
  }

  lemma UpdateTimes(sessions: Sessions, key: Key, tag: nat, now: int, paths: nat, groups: nat, k: Key, c: (nat, nat))
    ensures TimeOf(Update(sessions, key, tag, now, paths, groups), k, c) ==
      if Accepts(sessions, key, tag, now, paths) && k == key && c == Cell(tag) then now else TimeOf(sessions, k, c)
  {
    hide GroupId, PacketNumber, WisprMode;
  }

  /** Every cell is there. */
  ghost predicate Complete(times: Times, paths: nat, groups: nat) {
    forall g, p :: 0 <= g < groups && 0 <= p <= paths ==> (g, p) in times
  }

  class Egress {
    const paths: nat
    const groups: nat
    var sessions: Sessions

    ghost predicate Valid()
      reads this
    {
      Sizes(paths, groups) && forall k :: k in sessions ==> Complete(sessions[k], paths, groups)
    }

    constructor (paths: nat, groups: nat)
      requires Sizes(paths, groups)
      ensures Valid() && sessions == map[] && this.paths == paths && this.groups == groups
    {
      this.paths, this.groups := paths, groups;
      sessions := map[];
    }

    method GetOrAddMirrorSession(key: Key) returns (times: Times)
      requires Valid()
      modifies this
      ensures Valid() && key in sessions && sessions[key] == times
      ensures sessions == GetOrAdd(old(sessions), key, paths, groups)
    {
      if key !in sessions {
        sessions := sessions[key := Zeros(paths, groups)];
      }
      times := sessions[key];
    }

    /** process_wispr0_vlan: whether the frame is forwarded, and the times afterwards */
    method ProcessWispr0Vlan(key: Key, tag: nat, now: int) returns (forwarded: bool)
      requires Valid() && GroupId(tag) < groups && PacketNumber(tag) <= paths
      modifies this
      ensures Valid()
      ensures forwarded == Accepts(old(sessions), key, tag, now, paths)
      ensures sessions == Update(old(sessions), key, tag, now, paths, groups)
      ensures var cell := (tag / 16 % 16, tag % 16);
        var last := if key in old(sessions) && cell in old(sessions)[key] then old(sessions)[key][cell] else 0;
        && (forwarded <==> tag / 256 % 16 != 3 && (now - last > 600 || paths == 1))
        && sessions.Keys == old(sessions).Keys + (if tag / 256 % 16 == 3 then {} else {key})
        && forall k, c :: k in sessions && c in sessions[k] ==>
          sessions[k][c] == if forwarded && k == key && c == cell then now
            else if k in old(sessions) && c in old(sessions)[k] then old(sessions)[k][c] else 0
    {
      hide GroupId, PacketNumber, WisprMode;
      NibblesOf(tag);
      if WisprMode(tag) == 3 {
        return false;
      }
      var times := GetOrAddMirrorSession(key);
      var cell := (GroupId(tag), PacketNumber(tag));
      assert cell in times;
      forwarded := now - times[cell] > TIMEOUT || paths == 1;
      if forwarded {
        sessions := sessions[key := times[cell := now]];
      }
    }
  }

  // ---- runs of the egress ----

  /** A copy of the n-th packet of a session that reaches the egress */
  datatype Arrival = Arrival(key: Key, n: nat, mirrored: bool, at: int)

  function ArrivalTag(a: Arrival, paths: nat, groups: nat): nat
    requires paths > 0 && groups > 0
  {
    var tag := TagOf(a.n, paths, groups);
    if a.mirrored then Mirrored(tag) else tag
  }

  /** The times after a run of arrivals */
  function After(run: seq<Arrival>, paths: nat, groups: nat): Sessions
    requires paths > 0 && groups > 0
  {
    if run == [] then map[] else
      var a := run[|run| - 1];
      Update(After(run[..|run| - 1], paths, groups), a.key, ArrivalTag(a, paths, groups), a.at, paths, groups)
  }

  /** The i-th arrival is forwarded. */
  predicate Forwarded(run: seq<Arrival>, i: nat, paths: nat, groups: nat)
    requires paths > 0 && groups > 0 && i < |run|
  {
    Accepts(After(run[..i], paths, groups), run[i].key, ArrivalTag(run[i], paths, groups), run[i].at, paths)
  }

  predicate SamePacket(a: Arrival, b: Arrival) {
    a.key == b.key && a.n == b.n
  }

  predicate SameTag(a: Arrival, b: Arrival, paths: nat, groups: nat)
    requires paths > 0 && groups > 0
  {
    a.key == b.key && TagOf(a.n, paths, groups) == TagOf(b.n, paths, groups)
  }

  ghost predicate First(run: seq<Arrival>, i: nat)
    requires i < |run|
  {
    forall j :: 0 <= j < i ==> !SamePacket(run[j], run[i])
  }

  /** What the network promises: arrivals in the order of their times, copies of a packet within TIMEOUT of
      its first arrival, and the packets that share a tag first arriving more than TIMEOUT apart. */
  ghost predicate Timely(run: seq<Arrival>, paths: nat, groups: nat)
    requires paths > 0 && groups > 0
  {
    && (forall i :: 0 <= i < |run| ==> run[i].n > 0 && run[i].at > TIMEOUT)
    && (forall i, j :: 0 <= i <= j < |run| ==> run[i].at <= run[j].at)
    && (forall i, j :: 0 <= i < j < |run| && SamePacket(run[i], run[j]) ==> run[j].at - run[i].at <= TIMEOUT)
    && (forall i, j :: 0 <= i < j < |run| && First(run, i) && First(run, j) && SameTag(run[i], run[j], paths, groups) ==>
          run[j].at - run[i].at > TIMEOUT)
  }

  /** The last first arrival of a packet with the tag of `a`, if there is one */
  ghost function LastFirst(run: seq<Arrival>, a: Arrival, paths: nat, groups: nat): (r: int)
    requires paths > 0 && groups > 0
    ensures -1 <= r < |run|
    ensures r >= 0 ==> First(run, r) && SameTag(run[r], a, paths, groups)
    ensures forall j :: r < j < |run| && First(run, j) ==> !SameTag(run[j], a, paths, groups)
  {
    if run == [] then -1 else
      var n := |run| - 1;
      if First(run, n) && SameTag(run[n], a, paths, groups) then n
      else
        var r := LastFirst(run[..n], a, paths, groups);
        SameFirsts(run, n);
        r
  }

  lemma SameFirsts(run: seq<Arrival>, n: nat)
    requires n <= |run|
    ensures forall j :: 0 <= j < n ==> (First(run, j) <==> First(run[..n], j))
  {
  }

  lemma TimelyPrefix(run: seq<Arrival>, n: nat, paths: nat, groups: nat)
    requires paths > 0 && groups > 0 && Timely(run, paths, groups) && n <= |run|
    ensures Timely(run[..n], paths, groups)
  {
    hide SameTag, SamePacket;
    assert forall j :: 0 <= j < n ==> (First(run, j) <==> First(run[..n], j));
  }

  ghost function TimeAt(run: seq<Arrival>, i: int): int
    requires i < |run|
  {
    if i < 0 then 0 else run[i].at
  }

  ghost function FirstCopy(run: seq<Arrival>, i: nat): (f: nat)
    requires i < |run|
    ensures f <= i && SamePacket(run[f], run[i]) && First(run, f)
  {
    if First(run, i) then i else
      var j :| 0 <= j < i && SamePacket(run[j], run[i]);
      FirstCopy(run, j)
  }

  lemma Spaced(run: seq<Arrival>, i: nat, j: nat, paths: nat, groups: nat)
    requires paths > 0 && groups > 0 && Timely(run, paths, groups) && i < j < |run|
    requires First(run, i) && First(run, j) && SameTag(run[i], run[j], paths, groups)
    ensures run[j].at - run[i].at > TIMEOUT
  {
  }

  lemma Close(run: seq<Arrival>, i: nat, j: nat, k: nat, paths: nat, groups: nat)
    requires paths > 0 && groups > 0 && Timely(run, paths, groups) && i <= j < k < |run| && SamePacket(run[i], run[k])
    ensures run[j].at - run[i].at <= TIMEOUT && run[k].at - run[i].at <= TIMEOUT
  {
    assert run[j].at <= run[k].at;
  }

  /** For a later copy, the packet that last took the tag is its own. */
  lemma LaterCopy(run: seq<Arrival>, i: nat, paths: nat, groups: nat)
    requires paths > 0 && groups > 0 && Timely(run, paths, groups) && i < |run| && !First(run, i)
    ensures LastFirst(run[..i], run[i], paths, groups) == FirstCopy(run, i)
  {
    hide Timely, TagOf;
    var f, last := FirstCopy(run, i), LastFirst(run[..i], run[i], paths, groups);
    assert First(run[..i], f) && SameTag(run[..i][f], run[i], paths, groups);
    if f < last {
      assert First(run[..i], last) && run[..i][last] == run[last];
      assert First(run, last);
      Close(run, f, last, i, paths, groups);
      Spaced(run, f, last, paths, groups);
    }
  }

  /** In a timely run, the packet that last took a tag did so more than TIMEOUT ago exactly when this arrival
      is the first of its packet. */
  lemma OnTime(run: seq<Arrival>, i: nat, paths: nat, groups: nat)
    requires paths > 0 && groups > 0 && Timely(run, paths, groups) && i < |run|
    ensures var last := LastFirst(run[..i], run[i], paths, groups);
      run[i].at - TimeAt(run[..i], last) > TIMEOUT <==> First(run, i)
  {
    hide TagOf, SamePacket;
    var last := LastFirst(run[..i], run[i], paths, groups);
    if !First(run, i) {
      LaterCopy(run, i, paths, groups);
      Close(run, last, last, i, paths, groups);
    } else if last >= 0 {
      PrefixFirst(run, i, last);
      Spaced(run, last, i, paths, groups);
    }
  }

  lemma PrefixFirst(run: seq<Arrival>, n: nat, i: nat)
    requires i < n <= |run|
    ensures First(run[..n], i) <==> First(run, i)
  {
  }

  /** Packets share a tag exactly when they share an entry of the egress's table. */
  lemma SameCell(a: Arrival, b: Arrival, paths: nat, groups: nat)
    requires Sizes(paths, groups) && a.n > 0 && b.n > 0
    ensures SameTag(a, b, paths, groups)
      <==> a.key == b.key && Cell(ArrivalTag(a, paths, groups)) == Cell(ArrivalTag(b, paths, groups))
    ensures WisprMode(ArrivalTag(a, paths, groups)) != 3
  {
    hide PacketNumber, GroupId, WisprMode, Mirrored;
    EgressReads(a.n, paths, groups);
    EgressReads(b.n, paths, groups);
  }

  /** After a timely run, the entry of a packet holds the time of the last first arrival with its tag. */
  lemma {:induction false} EntryIsLastFirst(run: seq<Arrival>, a: Arrival, paths: nat, groups: nat)
    requires Sizes(paths, groups) && paths > 1 && Timely(run, paths, groups) && a.n > 0
    ensures TimeOf(After(run, paths, groups), a.key, Cell(ArrivalTag(a, paths, groups)))
      == TimeAt(run, LastFirst(run, a, paths, groups))
    decreases |run|, 0
  {
    hide ArrivalTag, SameTag, Cell, Timely, First, Update, WisprMode;
    if run != [] {
      var n := |run| - 1;
      var b := run[n];
      TimelyPrefix(run, n, paths, groups);
      EntryIsLastFirst(run[..n], a, paths, groups);
      ForwardsFirst(run, n, paths, groups);
      SameCellLast(run, a, paths, groups);
      UpdateTimes(After(run[..n], paths, groups), b.key, ArrivalTag(b, paths, groups), b.at, paths, groups,
        a.key, Cell(ArrivalTag(a, paths, groups)));
    }
  }

  lemma SameCellLast(run: seq<Arrival>, a: Arrival, paths: nat, groups: nat)
    requires Sizes(paths, groups) && Timely(run, paths, groups) && a.n > 0 && run != []
    ensures SameTag(run[|run| - 1], a, paths, groups)
      <==> run[|run| - 1].key == a.key && Cell(ArrivalTag(run[|run| - 1], paths, groups)) == Cell(ArrivalTag(a, paths, groups))
  {
    SameCell(run[|run| - 1], a, paths, groups);
  }

  lemma {:induction false} ForwardsFirst(run: seq<Arrival>, i: nat, paths: nat, groups: nat)
    requires Sizes(paths, groups) && paths > 1 && Timely(run, paths, groups) && i < |run|
    ensures Forwarded(run, i, paths, groups) <==> First(run, i)
    decreases i, 1
  {
    hide First, SameTag, Cell, ArrivalTag, WisprMode, TimeOf;
    TimelyPrefix(run, i, paths, groups);
    EntryIsLastFirst(run[..i], run[i], paths, groups);
    OnTime(run, i, paths, groups);
    SameCell(run[i], run[i], paths, groups);
  }

  /** With one path, every arrival is forwarded. */
  lemma OnePathForwardsAll(run: seq<Arrival>, i: nat, groups: nat)
    requires Sizes(1, groups) && i < |run| && run[i].n > 0
    ensures Forwarded(run, i, 1, groups)
  {
    SameCell(run[i], run[i], 1, groups);
  }

  /** In every timely run, in whatever order the copies come, the egress forwards exactly the first arrival of
      each packet, if and only if there is more than one path or no packet arrives twice. */
  lemma ForwardsFirstArrivals(run: seq<Arrival>, paths: nat, groups: nat)
    requires Sizes(paths, groups) && Timely(run, paths, groups)
    ensures (forall i :: 0 <= i < |run| ==> (Forwarded(run, i, paths, groups) <==> First(run, i)))
      <==> paths > 1 || forall i :: 0 <= i < |run| ==> First(run, i)
  {
    hide Forwarded, First;
    forall i | 0 <= i < |run|
      ensures paths > 1 ==> (Forwarded(run, i, paths, groups) <==> First(run, i))
      ensures paths == 1 ==> Forwarded(run, i, paths, groups)
    {
      if paths > 1 {
        ForwardsFirst(run, i, paths, groups);
      } else {
        OnePathForwardsAll(run, i, groups);
      }
    }
  }

  /** A packet of which at least one copy arrives is forwarded exactly once. */
  lemma ExactlyOnce(run: seq<Arrival>, i: nat, paths: nat, groups: nat)
    requires Sizes(paths, groups) && paths > 1 && Timely(run, paths, groups) && i < |run|
    ensures exists f: nat ::
      && f < |run| && SamePacket(run[f], run[i]) && Forwarded(run, f, paths, groups)
      && forall j: nat :: j < |run| && SamePacket(run[j], run[i]) && Forwarded(run, j, paths, groups) ==> j == f
  {
    hide Forwarded, Timely;
    var f := FirstCopy(run, i);
    ForwardsFirst(run, f, paths, groups);
    forall j: nat | j < |run| && SamePacket(run[j], run[i]) && Forwarded(run, j, paths, groups) ensures j == f {
      ForwardsFirst(run, j, paths, groups);
    }
  }

  /** With one path, both copies of a packet are forwarded when they arrive together. */
  lemma OnePathTwice(key: Key, groups: nat)
    requires Sizes(1, groups)
    ensures var run := [Arrival(key, 1, false, 1000), Arrival(key, 1, true, 1000)];
      && Timely(run, 1, groups) && SamePacket(run[0], run[1])
      && Forwarded(run, 0, 1, groups) && Forwarded(run, 1, 1, groups)
  {
    var run := [Arrival(key, 1, false, 1000), Arrival(key, 1, true, 1000)];
    OnePathForwardsAll(run, 0, groups);
    OnePathForwardsAll(run, 1, groups);
  }
}
