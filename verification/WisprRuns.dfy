/** The redundancy protocol from end to end: frames that the ingress tags and sends twice, copies that arrive in any
    order, and the frames that the egress sends on. */
module WisprRuns {
  import opened Seqs
  import opened Bits
  import opened Octets
  import opened WisprTags
  import opened WisprDelivery
  import opened Frames

  const MIN_FRAME: nat := ETH_HEADER + 20

  function KeyOf(addresses: seq<byte>): Key
    requires |addresses| == 8
  {
    Key(addresses[..4], addresses[4..])
  }

  function KeyIn(frame: seq<byte>): Key
    requires |frame| >= MIN_FRAME
  {
    KeyOf(IngressKey(frame))
  }

  /** Frames are of one session exactly when both of their addresses, bytes 26 to 33, are the same. */
  lemma SameKey(f: seq<byte>, g: seq<byte>)
    requires |f| >= MIN_FRAME && |g| >= MIN_FRAME
    ensures KeyIn(f) == KeyIn(g) <==> f[26..34] == g[26..34]
  {
    KeyBytes(f);
    KeyBytes(g);
    SameHalves(f[26..34][..4], f[26..34][4..], g[26..34][..4], g[26..34][4..]);
    assert f[26..34] == f[26..34][..4] + f[26..34][4..] && g[26..34] == g[26..34][..4] + g[26..34][4..];
  }

  /** Ethernet frames with an IP header each */
  ghost predicate IpFrames(frames: seq<seq<byte>>) {
    forall f :: f in frames ==> |f| >= MIN_FRAME
  }

  /** How many of the frames are of the session */
  function CountOf(frames: seq<seq<byte>>, key: Key): nat
    requires IpFrames(frames)
  {
    if frames == [] then 0 else
      var n := |frames| - 1;
      CountOf(frames[..n], key) + if KeyIn(frames[n]) == key then 1 else 0
  }

  /** The frame's number in its session, counted from 1 */
  function Number(frames: seq<seq<byte>>, i: nat): nat
    requires IpFrames(frames) && i < |frames|
  {
    CountOf(frames[..i + 1], KeyIn(frames[i]))
  }

  /** A frame's number counts the frames up to it with the same addresses. */
  lemma NumberIs(frames: seq<seq<byte>>, i: nat)
    requires IpFrames(frames) && i < |frames|
    ensures Number(frames, i) == |set j: nat | j <= i && frames[j][26..34] == frames[i][26..34]|
  {
    CountIs(frames, i + 1, frames[i]);
    assert (set j: nat | j <= i && frames[j][26..34] == frames[i][26..34])
      == set j: nat | j < i + 1 && frames[j][26..34] == frames[i][26..34];
  }

  lemma {:induction false} CountIs(frames: seq<seq<byte>>, k: nat, f: seq<byte>)
    requires IpFrames(frames) && k <= |frames| && |f| >= MIN_FRAME
    ensures CountOf(frames[..k], KeyIn(f)) == |set j: nat | j < k && frames[j][26..34] == f[26..34]|
  {
    hide KeyIn, CountOf;
    var same := set j: nat | j < k && frames[j][26..34] == f[26..34];
    if k == 0 {
      NoneCounted(frames, KeyIn(f));
      assert same == {};
    } else {
      CountNext(frames, k - 1, KeyIn(f));
      CountIs(frames, k - 1, f);
      SameKey(frames[k - 1], f);
      OneMore(frames, k - 1, f[26..34]);
    }
  }

  lemma NoneCounted(frames: seq<seq<byte>>, key: Key)
    requires IpFrames(frames)
    ensures CountOf(frames[..0], key) == 0
  {
  }

  lemma OneMore(frames: seq<seq<byte>>, k: nat, addresses: seq<byte>)
    requires IpFrames(frames) && k < |frames|
    ensures |set j: nat | j < k + 1 && frames[j][26..34] == addresses|
      == |set j: nat | j < k && frames[j][26..34] == addresses| + if frames[k][26..34] == addresses then 1 else 0
  {
    var before := set j: nat | j < k && frames[j][26..34] == addresses;
    var after := set j: nat | j < k + 1 && frames[j][26..34] == addresses;
    assert after == before + if frames[k][26..34] == addresses then {k} else {};
  }

  lemma CountNext(frames: seq<seq<byte>>, i: nat, key: Key)
    requires IpFrames(frames) && i < |frames|
    ensures CountOf(frames[..i + 1], key) == CountOf(frames[..i], key) + if KeyIn(frames[i]) == key then 1 else 0
  {
    assert frames[..i + 1][..i] == frames[..i];
  }

  lemma {:induction false} CountMonotone(frames: seq<seq<byte>>, i: nat, j: nat, key: Key)
    requires IpFrames(frames) && i <= j <= |frames|
    ensures CountOf(frames[..i], key) <= CountOf(frames[..j], key)
    decreases j
  {
    hide KeyIn;
    if i < j {
      CountNext(frames, j - 1, key);
      CountMonotone(frames, i, j - 1, key);
    }
  }

  /** Session and number tell frames apart. */
  lemma NumbersDiffer(frames: seq<seq<byte>>, i: nat, j: nat)
    requires IpFrames(frames) && i < |frames| && j < |frames|
    ensures Number(frames, i) > 0
    ensures KeyIn(frames[i]) == KeyIn(frames[j]) && Number(frames, i) == Number(frames, j) <==> i == j
  {
    hide KeyIn, CountOf;
    var key := KeyIn(frames[i]);
    CountNext(frames, i, key);
    CountNext(frames, j, key);
    if i < j {
      CountMonotone(frames, i + 1, j, key);
    } else if j < i {
      CountMonotone(frames, j + 1, i, key);
    }
  }

  // ---- ingress ----

  /** The id of a frame */
  function IdOf(frames: seq<seq<byte>>, i: nat, paths: nat, groups: nat): (r: Word)
    requires IpFrames(frames) && i < |frames| && Sizes(paths, groups)
  {
    IdIsWord(frames, i, paths, groups);
    TagOf(Number(frames, i), paths, groups)
  }

  lemma IdIsWord(frames: seq<seq<byte>>, i: nat, paths: nat, groups: nat)
    requires IpFrames(frames) && i < |frames| && Sizes(paths, groups)
    ensures TagOf(Number(frames, i), paths, groups) < 256
  {
    hide TagOf, PacketNumber, GroupId, WisprMode, Mirrored;
    NumbersDiffer(frames, i, i);
    EgressReads(Number(frames, i), paths, groups);
  }

  /** What is sent for a frame: the two copies, each with two tags */
  function Sent(frames: seq<seq<byte>>, i: nat, mirrored: bool, paths: nat, groups: nat): seq<byte>
    requires IpFrames(frames) && i < |frames| && Sizes(paths, groups)
  {
    var id := if mirrored then Mirrored(IdOf(frames, i, paths, groups)) else IdOf(frames, i, paths, groups);
    WithTags(frames[i], id, 2)
  }

  method Load(frame: seq<byte>, spare: nat) returns (buf: array<byte>)
    ensures fresh(buf) && buf.Length == |frame| + spare && buf[..|frame|] == frame
  {
    buf := new byte[|frame| + spare];
    for i := 0 to |frame|
      invariant buf[..i] == frame[..i]
    {
      buf[i] := frame[i];
    }
  }

  /** The two transmissions of a frame, in bytes: with n the count of the frames up to it that have the same
      addresses, both tags of either copy hold the packet number ((n-1) mod paths) + 1 and the group ((n-1) div
      paths) mod groups in one byte, and the mirror bit in the other. */
  ghost predicate OnWire(frames: seq<seq<byte>>, i: nat, sent: (seq<byte>, seq<byte>), paths: nat, groups: nat)
    requires IpFrames(frames) && i < |frames| && paths > 0 && groups > 0
  {
    var n := |set j: nat | j <= i && frames[j][26..34] == frames[i][26..34]|;
    var id := (n - 1) / paths % groups * 16 + (n - 1) % paths + 1;
    && n > 0 && 0 < id < 256
    && sent.0 == frames[i][..12] + [0x81, 0x00, 0, id, 0x81, 0x00, 0, id] + frames[i][12..]
    && sent.1 == frames[i][..12] + [0x81, 0x00, 1, id, 0x81, 0x00, 1, id] + frames[i][12..]
  }

  /** process_ingress0 and send_packet_withkey for every frame */
  method SendAll(ingress: Ingress, frames: seq<seq<byte>>) returns (wire: seq<(seq<byte>, seq<byte>)>)
    requires ingress.Valid() && ingress.sessions == map[] && IpFrames(frames)
    modifies ingress
    ensures ingress.Valid() && |wire| == |frames|
    ensures forall i :: 0 <= i < |frames| ==>
      && wire[i].0 == Sent(frames, i, false, ingress.paths, ingress.groups)
      && wire[i].1 == Sent(frames, i, true, ingress.paths, ingress.groups)
    ensures ingress.paths > 0 && ingress.groups > 0
    ensures forall i :: 0 <= i < |frames| ==> OnWire(frames, i, wire[i], ingress.paths, ingress.groups)
  {
    hide TagOf, Mirrored, KeyIn, CountOf, Sizes, Tagged, OnWire, Sent;
    wire := [];
    ghost var paths, groups := ingress.paths, ingress.groups;
    NothingSent(ingress, frames);
    for i := 0 to |frames|
      invariant ingress.Valid() && |wire| == i
      invariant forall k :: (if k in ingress.sent then ingress.sent[k] else 0) == CountOf(frames[..i], k)
      invariant forall j :: 0 <= j < i ==>
        && wire[j].0 == Sent(frames, j, false, paths, groups)
        && wire[j].1 == Sent(frames, j, true, paths, groups)
    {
      assert frames[i] in frames;
      var key := KeyIn(frames[i]);
      var first, second := ingress.ProcessIngress0(key);
      forall k ensures (if k in ingress.sent then ingress.sent[k] else 0) == CountOf(frames[..i + 1], k) {
        CountNext(frames, i, k);
      }
      IdIsWord(frames, i, paths, groups);
      var buf := Load(frames[i], 2 * VLAN_HEADER);
      var one, two := SendPacketWithKey(buf, |frames[i]|, first);
      SentTwice(frames, i, paths, groups);
      wire := wire + [(one, two)];
    }
    forall i | 0 <= i < |frames| ensures OnWire(frames, i, wire[i], paths, groups) {
      SentBytes(frames, i, paths, groups);
    }
  }

  lemma SentTwice(frames: seq<seq<byte>>, i: nat, paths: nat, groups: nat)
    requires IpFrames(frames) && i < |frames| && Sizes(paths, groups)
    ensures var id := IdOf(frames, i, paths, groups);
      && id == TagOf(Number(frames, i), paths, groups)
      && Sent(frames, i, false, paths, groups) == Tagged(Tagged(frames[i], id), id)
      && Sent(frames, i, true, paths, groups) == Tagged(Tagged(frames[i], Mirrored(id)), Mirrored(id))
  {
    hide Mirrored, Tagged;
    var id := IdOf(frames, i, paths, groups);
    TwoTagged(frames[i], id);
    TwoTagged(frames[i], Mirrored(id));
  }

  lemma SentBytes(frames: seq<seq<byte>>, i: nat, paths: nat, groups: nat)
    requires IpFrames(frames) && i < |frames| && Sizes(paths, groups)
    ensures paths > 0 && groups > 0
    ensures OnWire(frames, i, (Sent(frames, i, false, paths, groups), Sent(frames, i, true, paths, groups)), paths, groups)
  {
    hide TagOf, Mirrored, KeyIn, CountOf, Tagged, PacketNumber, GroupId, WisprMode, Sent;
    NumberIs(frames, i);
    NumbersDiffer(frames, i, i);
    IdIsWord(frames, i, paths, groups);
    TagNumbers(Number(frames, i), paths, groups);
    var id: Word := IdOf(frames, i, paths, groups);
    EgressReads(Number(frames, i), paths, groups);
    SentTwice(frames, i, paths, groups);
    TwoTagBytes(frames[i], id);
    TwoTagBytes(frames[i], Mirrored(id));
  }

  lemma NothingSent(ingress: Ingress, frames: seq<seq<byte>>)
    requires ingress.Valid() && ingress.sessions == map[] && IpFrames(frames)
    ensures forall k :: k !in ingress.sent && CountOf(frames[..0], k) == 0
    ensures ingress.paths > 0 && ingress.groups > 0
  {
    assert ingress.sent.Keys == {};
  }

  lemma TwoTagged(frame: seq<byte>, id: Word)
    requires |frame| >= ETH_HEADER
    ensures WithTags(frame, id, 2) == Tagged(Tagged(frame, id), id)
  {
    hide Tagged;
    assert WithTags(frame, id, 1) == Tagged(frame, id);
  }

  // ---- egress ----

  /** A copy of a frame that reaches the egress, and when */
  datatype Copy = Copy(frame: nat, mirrored: bool, at: int)

  ghost predicate CopiesOf(frames: seq<seq<byte>>, copies: seq<Copy>) {
    IpFrames(frames) && forall i :: 0 <= i < |copies| ==> copies[i].frame < |frames|
  }

  function ArrivalOf(frames: seq<seq<byte>>, c: Copy): Arrival
    requires IpFrames(frames) && c.frame < |frames|
  {
    Arrival(KeyIn(frames[c.frame]), Number(frames, c.frame), c.mirrored, c.at)
  }

  function Arrivals(frames: seq<seq<byte>>, copies: seq<Copy>): (run: seq<Arrival>)
    requires CopiesOf(frames, copies)
    ensures |run| == |copies| && forall i :: 0 <= i < |run| ==> run[i] == ArrivalOf(frames, copies[i])
  {
    seq(|copies|, i requires 0 <= i < |copies| => ArrivalOf(frames, copies[i]))
  }

  /** No copy of the frame came before. */
  predicate FirstOf(copies: seq<Copy>, i: nat)
    requires i < |copies|
  {
    forall j :: 0 <= j < i ==> copies[j].frame != copies[i].frame
  }

  lemma FirstIsFirst(frames: seq<seq<byte>>, copies: seq<Copy>, i: nat)
    requires CopiesOf(frames, copies) && i < |copies|
    ensures First(Arrivals(frames, copies), i) <==> FirstOf(copies, i)
  {
    hide KeyIn, Number;
    var run := Arrivals(frames, copies);
    forall j | 0 <= j < i ensures SamePacket(run[j], run[i]) <==> copies[j].frame == copies[i].frame {
      NumbersDiffer(frames, copies[j].frame, copies[i].frame);
    }
  }

  /** The frames of which copies arrive, in the order of their first arrivals */
  function Firsts(copies: seq<Copy>): seq<nat> {
    if copies == [] then [] else
      var n := |copies| - 1;
      Firsts(copies[..n]) + if FirstOf(copies, n) then [copies[n].frame] else []
  }

  /** They are the frames of which a copy arrives, each once, in the order of the first arrivals: of two of
      them, a copy of the earlier one arrives before any copy of the later one. */
  lemma {:induction false} FirstsOnce(copies: seq<Copy>)
    ensures forall f :: f in Firsts(copies) <==> exists c :: c in copies && c.frame == f
    ensures forall a, b :: 0 <= a < b < |Firsts(copies)| ==> Firsts(copies)[a] != Firsts(copies)[b]
    ensures forall a, b :: 0 <= a < b < |Firsts(copies)| ==> ArrivesBefore(copies, Firsts(copies)[a], Firsts(copies)[b])
    decreases |copies|
  {
    if copies != [] {
      var n := |copies| - 1;
      FirstsOnce(copies[..n]);
      assert copies == copies[..n] + [copies[n]];
      assert FirstOf(copies, n) <==> forall c :: c in copies[..n] ==> c.frame != copies[n].frame;
      var before, after := Firsts(copies[..n]), Firsts(copies);
      forall a, b | 0 <= a < b < |after| ensures after[a] != after[b] && ArrivesBefore(copies, after[a], after[b]) {
        if b < |before| {
          assert ArrivesBefore(copies[..n], before[a], before[b]);
          var i :| 0 <= i < n && copies[..n][i].frame == before[a] && forall j :: 0 <= j <= i ==> copies[..n][j].frame != before[b];
          assert forall j :: 0 <= j <= i ==> copies[j] == copies[..n][j];
        } else {
          assert before[a] in before;
          var c :| c in copies[..n] && c.frame == before[a];
          assert copies[IndexOf(copies[..n], c)] == c;
        }
      }
    }
  }

  /** A copy of `f` comes before every copy of `g`. */
  ghost predicate ArrivesBefore(copies: seq<Copy>, f: nat, g: nat) {
    exists i :: 0 <= i < |copies| && copies[i].frame == f && forall j :: 0 <= j <= i ==> copies[j].frame != g
  }

  /** What the egress is to send: the frames of the first arrivals */
  function SentOn(frames: seq<seq<byte>>, copies: seq<Copy>): (sent: seq<seq<byte>>)
    requires CopiesOf(frames, copies)
    ensures |sent| == |Firsts(copies)|
    ensures forall i :: 0 <= i < |sent| ==> Firsts(copies)[i] < |frames| && sent[i] == frames[Firsts(copies)[i]]
    decreases |copies|
  {
    if copies == [] then [] else
      var n := |copies| - 1;
      SentOn(frames, copies[..n]) + if FirstOf(copies, n) then [frames[copies[n].frame]] else []
  }

  /** process_wispr0_vlan, on a buffer: the frame is sent on without its tag, or not at all. */
  method Receive(egress: Egress, frame: seq<byte>, now: int) returns (sent: seq<seq<byte>>)
    requires egress.Valid() && |frame| >= MIN_FRAME + VLAN_HEADER
    requires GroupId(WordAt(frame, 14)) < egress.groups && PacketNumber(WordAt(frame, 14)) <= egress.paths
    modifies egress
    ensures egress.Valid()
    ensures var (key, tag) := (Key(frame[30..34], frame[34..38]), WordAt(frame, 14));
      && sent == (if Accepts(old(egress.sessions), key, tag, now, egress.paths) then [Untagged(frame)] else [])
      && egress.sessions == Update(old(egress.sessions), key, tag, now, egress.paths, egress.groups)
    ensures var (key, cell) := (Key(frame[30..34], frame[34..38]), (frame[15] / 16, frame[15] % 16));
      var times := if key in old(egress.sessions) then old(egress.sessions)[key] else map[];
      var last := if cell in times then times[cell] else 0;
      sent == if frame[14] % 16 != 3 && (now - last > 600 || egress.paths == 1) then [frame[..12] + frame[16..]] else []
  {
    hide WisprMode, Untagged, Update, Accepts;
    var buf := Load(frame, 0);
    assert buf[..] == frame;
    var tag := GetWord(buf, 14);
    EgressKeyIs(frame);
    WordNibbles(frame, 14);
    var forwarded := egress.ProcessWispr0Vlan(KeyOf(EgressKey(buf[..])), tag, now);
    sent := [];
    if forwarded {
      var stripped := Strip(buf, |frame|);
      sent := [stripped];
    }
  }

  lemma EgressKeyIs(frame: seq<byte>)
    requires |frame| >= MIN_FRAME + VLAN_HEADER
    ensures KeyOf(EgressKey(frame)) == Key(frame[30..34], frame[34..38])
  {
    KeyBytes(frame);
    assert frame[30..38][..4] == frame[30..34] && frame[30..38][4..] == frame[34..38];
  }

  /** The nibbles of a word, by its two bytes */
  lemma WordNibbles(s: seq<byte>, at: nat)
    requires at + 2 <= |s|
    ensures var tag := WordAt(s, at);
      tag % 16 == s[at + 1] % 16 && tag / 16 % 16 == s[at + 1] / 16 && tag / 256 % 16 == s[at] % 16
  {
    var high: int, low: int := s[at], s[at + 1];
    var (q, r) := (low / 16, low % 16);
    QuotientRemainder(high * 256 + low, 256, high, low);
    QuotientRemainder(high * 256 + low, 16, high * 16 + q, r);
    QuotientRemainder(high * 16 + q, 16, high, q);
  }

  /** A copy with one tag left is read as what it is: session, id and, without the tag, the frame. */
  lemma CopyReads(frames: seq<seq<byte>>, c: Copy, paths: nat, groups: nat)
    requires IpFrames(frames) && c.frame < |frames| && Sizes(paths, groups)
    ensures var (copy, a) := (Untagged(Sent(frames, c.frame, c.mirrored, paths, groups)), ArrivalOf(frames, c));
      && |copy| >= MIN_FRAME + VLAN_HEADER
      && KeyOf(EgressKey(copy)) == a.key && WordAt(copy, 14) == ArrivalTag(a, paths, groups)
      && GroupId(WordAt(copy, 14)) < groups && PacketNumber(WordAt(copy, 14)) <= paths
      && Untagged(copy) == frames[c.frame]
  {
    hide TagOf, PacketNumber, GroupId, WisprMode, Mirrored, Tagged, Untagged, WordAt, CountOf, EgressKey, IngressKey;
    var frame := frames[c.frame];
    NumbersDiffer(frames, c.frame, c.frame);
    EgressReads(Number(frames, c.frame), paths, groups);
    IdIsWord(frames, c.frame, paths, groups);
    var id: Word := ArrivalTag(ArrivalOf(frames, c), paths, groups);
    TwoTagged(frame, id);
    assert WithTags(frame, id, 1) == Tagged(frame, id);
    TwoTagRoundTrip(frame, id);
    UntagsTagged(Tagged(frame, id), id);
    UntagsTagged(frame, id);
    SameSession(frame, id, 1);
  }

  /** A timely run of copies, with more than one path unless no frame arrives twice */
  ghost predicate Delivers(frames: seq<seq<byte>>, copies: seq<Copy>, paths: nat, groups: nat) {
    && Sizes(paths, groups) && CopiesOf(frames, copies) && Timely(Arrivals(frames, copies), paths, groups)
    && (paths > 1 || forall i :: 0 <= i < |copies| ==> FirstOf(copies, i))
  }

  /** What a delivery is, in bytes and times: copies of frames with an IP header each arrive in the order of
      their times, copies of one frame at most 600 apart, and frames that share an id, which are those with the
      same addresses whose numbers agree modulo paths * groups, first arrive more than 600 apart. */
  lemma DeliversMeans(frames: seq<seq<byte>>, copies: seq<Copy>, paths: nat, groups: nat)
    ensures Delivers(frames, copies, paths, groups) <==>
      && 1 <= paths <= 15 && 1 <= groups <= 15
      && (forall f :: f in frames ==> |f| >= 34)
      && (forall i :: 0 <= i < |copies| ==> copies[i].frame < |frames| && copies[i].at > 600)
      && (forall i, j :: 0 <= i <= j < |copies| ==> copies[i].at <= copies[j].at)
      && (forall i, j :: 0 <= i < j < |copies| && copies[i].frame == copies[j].frame ==> copies[j].at - copies[i].at <= 600)
      && (forall i, j :: 0 <= i < j < |copies| && FirstOf(copies, i) && FirstOf(copies, j) ==>
        SharesId(frames, copies[i].frame, copies[j].frame, paths, groups) ==> copies[j].at - copies[i].at > 600)
      && (paths > 1 || forall i :: 0 <= i < |copies| ==> FirstOf(copies, i))
  {
    hide First, FirstOf, SamePacket, SameTag, Number, KeyIn, SharesId;
    if Sizes(paths, groups) && CopiesOf(frames, copies) {
      var run := Arrivals(frames, copies);
      forall i | 0 <= i < |copies| ensures run[i].n > 0 && (First(run, i) <==> FirstOf(copies, i)) {
        ItsNumber(frames, copies, i);
        FirstIsFirst(frames, copies, i);
      }
      forall i, j | 0 <= i < |copies| && 0 <= j < |copies|
        ensures SamePacket(run[i], run[j]) <==> copies[i].frame == copies[j].frame
        ensures SameTag(run[i], run[j], paths, groups) <==>
          SharesId(frames, copies[i].frame, copies[j].frame, paths, groups)
      {
        SamePair(frames, copies[i], copies[j], paths, groups);
      }
    }
  }

  ghost predicate SharesId(frames: seq<seq<byte>>, a: nat, b: nat, paths: nat, groups: nat)
    requires IpFrames(frames) && a < |frames| && b < |frames| && paths > 0 && groups > 0
  {
    MulPositive(paths, groups);
    && frames[a][26..34] == frames[b][26..34]
    && (Number(frames, a) - 1) % (paths * groups) == (Number(frames, b) - 1) % (paths * groups)
  }

  lemma SamePair(frames: seq<seq<byte>>, c: Copy, d: Copy, paths: nat, groups: nat)
    requires IpFrames(frames) && c.frame < |frames| && d.frame < |frames| && Sizes(paths, groups)
    ensures SamePacket(ArrivalOf(frames, c), ArrivalOf(frames, d)) <==> c.frame == d.frame
    ensures SameTag(ArrivalOf(frames, c), ArrivalOf(frames, d), paths, groups) <==>
      SharesId(frames, c.frame, d.frame, paths, groups)
  {
    hide Number, KeyIn, TagOf;
    NumbersDiffer(frames, c.frame, d.frame);
    NumbersDiffer(frames, d.frame, c.frame);
    SameKey(frames[c.frame], frames[d.frame]);
    TagReuse(Number(frames, c.frame), Number(frames, d.frame), paths, groups);
  }

  /** The next copy is accepted exactly when it is the first of its frame. */
  lemma NextCopy(frames: seq<seq<byte>>, copies: seq<Copy>, i: nat, paths: nat, groups: nat)
    requires Delivers(frames, copies, paths, groups) && i < |copies|
    ensures Forwarded(Arrivals(frames, copies), i, paths, groups) <==> FirstOf(copies, i)
  {
    hide FirstOf, First, Timely, Forwarded, KeyIn, Number;
    var run := Arrivals(frames, copies);
    FirstIsFirst(frames, copies, i);
    if paths > 1 {
      ForwardsFirst(run, i, paths, groups);
    } else {
      ItsNumber(frames, copies, i);
      OnePathForwardsAll(run, i, groups);
    }
  }

  lemma NextAfter(run: seq<Arrival>, i: nat, paths: nat, groups: nat)
    requires paths > 0 && groups > 0 && i < |run|
    ensures After(run[..i + 1], paths, groups)
      == Update(After(run[..i], paths, groups), run[i].key, ArrivalTag(run[i], paths, groups), run[i].at, paths, groups)
  {
    hide Update, ArrivalTag;
    assert run[..i + 1][..i] == run[..i];
  }

  lemma NextSent(frames: seq<seq<byte>>, copies: seq<Copy>, i: nat)
    requires CopiesOf(frames, copies) && i < |copies|
    ensures SentOn(frames, copies[..i + 1])
      == SentOn(frames, copies[..i]) + if FirstOf(copies, i) then [frames[copies[i].frame]] else []
  {
    hide FirstOf;
    assert copies[..i + 1][..i] == copies[..i];
    SameFirstOf(copies, i);
  }

  lemma SameFirstOf(copies: seq<Copy>, i: nat)
    requires i < |copies|
    ensures FirstOf(copies[..i + 1], i) <==> FirstOf(copies, i)
  {
  }

  lemma ItsNumber(frames: seq<seq<byte>>, copies: seq<Copy>, i: nat)
    requires CopiesOf(frames, copies) && i < |copies|
    ensures Arrivals(frames, copies)[i].n > 0
  {
    NumbersDiffer(frames, copies[i].frame, copies[i].frame);
  }

  /** The copies as they reach the egress: their outer tag is gone. */
  function Arrived(wire: seq<(seq<byte>, seq<byte>)>, copies: seq<Copy>): (arriving: seq<seq<byte>>)
    requires forall i :: 0 <= i < |copies| ==> copies[i].frame < |wire|
    requires forall w :: w in wire ==> |w.0| >= MIN_FRAME && |w.1| >= MIN_FRAME
    ensures |arriving| == |copies|
  {
    seq(|copies|, i requires 0 <= i < |copies| =>
      Untagged(if copies[i].mirrored then wire[copies[i].frame].1 else wire[copies[i].frame].0))
  }

  /** The egress on a run of copies */
  method ReceiveAll(egress: Egress, ghost frames: seq<seq<byte>>, copies: seq<Copy>, arriving: seq<seq<byte>>)
    returns (sent: seq<seq<byte>>)
    requires egress.Valid() && egress.sessions == map[] && Delivers(frames, copies, egress.paths, egress.groups)
    requires |arriving| == |copies| && forall i :: 0 <= i < |copies| ==>
      arriving[i] == Untagged(Sent(frames, copies[i].frame, copies[i].mirrored, egress.paths, egress.groups))
    modifies egress
    ensures sent == SentOn(frames, copies)
  {
    hide Sent, Untagged, EgressKey, WordAt, GroupId, PacketNumber, FirstOf, Timely, After, Update, Accepts, KeyOf, SentOn;
    hide KeyIn, Number;
    ghost var paths, groups, run := egress.paths, egress.groups, Arrivals(frames, copies);
    sent := [];
    NoCopies(frames, run, copies, paths, groups);
    for i := 0 to |copies|
      invariant egress.Valid() && egress.sessions == After(run[..i], paths, groups)
      invariant sent == SentOn(frames, copies[..i])
    {
      CopyReads(frames, copies[i], paths, groups);
      NextCopy(frames, copies, i, paths, groups);
      NextAfter(run, i, paths, groups);
      NextSent(frames, copies, i);
      EgressKeyIs(arriving[i]);
      var out := Receive(egress, arriving[i], copies[i].at);
      sent := sent + out;
    }
    assert copies[..|copies|] == copies;
  }

  lemma NoCopies(frames: seq<seq<byte>>, run: seq<Arrival>, copies: seq<Copy>, paths: nat, groups: nat)
    requires Sizes(paths, groups) && CopiesOf(frames, copies)
    ensures After(run[..0], paths, groups) == map[] && SentOn(frames, copies[..0]) == []
  {
  }

  /** From end to end: the ingress tags frames and sends each twice, copies reach the egress with one tag left, in
      any timely order. It sends on the ingress's original frames, byte for byte: each of which a copy arrives
      exactly once, in the order of their first arrivals. */
  method EndToEnd(ingress: Ingress, egress: Egress, frames: seq<seq<byte>>, copies: seq<Copy>) returns (sent: seq<seq<byte>>)
    requires ingress.Valid() && ingress.sessions == map[] && egress.Valid() && egress.sessions == map[]
    requires ingress.paths == egress.paths && ingress.groups == egress.groups
    requires Delivers(frames, copies, egress.paths, egress.groups)
    modifies ingress, egress
    ensures sent == SentOn(frames, copies)
  {
    hide Sent, Untagged, FirstOf, Timely, Sizes, SentOn;
    var wire := SendAll(ingress, frames);
    LongEnough(frames, wire, egress.paths, egress.groups);
    var arriving := Arrived(wire, copies);
    sent := ReceiveAll(egress, frames, copies, arriving);
  }

  lemma LongEnough(frames: seq<seq<byte>>, wire: seq<(seq<byte>, seq<byte>)>, paths: nat, groups: nat)
    requires Sizes(paths, groups) && IpFrames(frames) && |wire| == |frames|
    requires forall i :: 0 <= i < |frames| ==>
      wire[i].0 == Sent(frames, i, false, paths, groups) && wire[i].1 == Sent(frames, i, true, paths, groups)
    ensures forall w :: w in wire ==> |w.0| >= MIN_FRAME && |w.1| >= MIN_FRAME
  {
    hide TagOf, Mirrored, Number;
  }
}
