/** The bytes that wispr_proto.c shifts in a frame's buffer: two tags inserted by send_packet_withkey, one
    removed by process_wispr0_vlan. */
module Frames {
  import opened Octets
  import opened WisprTags

  const ETH_P_8021Q: Word := 0x8100
  const ETH_HEADER: nat := 14
  const VLAN_HEADER: nat := 4

  /** A frame with a tag inserted behind the two MAC addresses (IEEE 802.1Q, clause 9) */
  function Tagged(frame: seq<byte>, tag: Word): seq<byte>
    requires |frame| >= ETH_HEADER
  {
    frame[..12] + Bytes(ETH_P_8021Q) + Bytes(tag) + frame[12..]
  }

  /** A frame with its outer tag removed */
  function Untagged(frame: seq<byte>): seq<byte>
    requires |frame| >= ETH_HEADER + VLAN_HEADER
  {
    frame[..12] + frame[16..]
  }

  /** Overwriting part of a buffer */
  function Splice(s: seq<byte>, at: nat, t: seq<byte>): (r: seq<byte>)
    requires at + |t| <= |s|
    ensures |r| == |s|
  {
    s[..at] + t + s[at + |t|..]
  }

  // ---- the C library's calls ----

  method CopyOut(buf: array<byte>, from: nat, to: nat) returns (rem: array<byte>)
    requires from <= to <= buf.Length
    ensures fresh(rem) && rem[..] == buf[from..to]
  {
    rem := new byte[to - from];
    for i := 0 to to - from
      invariant rem[..i] == buf[from..from + i]
    {
      rem[i] := buf[from + i];
    }
  }

  method CopyIn(buf: array<byte>, at: nat, rem: array<byte>)
    requires at + rem.Length <= buf.Length && buf != rem
    modifies buf
    ensures buf[..] == Splice(old(buf[..]), at, rem[..])
  {
    for i := 0 to rem.Length
      invariant buf[at..at + i] == rem[..i]
      invariant buf[..at] == old(buf[..at]) && buf[at + i..] == old(buf[at + i..])
    {
      buf[at + i] := rem[i];
    }
    assert buf[..] == buf[..at] + buf[at..at + rem.Length] + buf[at + rem.Length..];
  }

  method Zero(buf: array<byte>, from: nat, to: nat)
    requires from <= to <= buf.Length
    modifies buf
    ensures buf[..from] == old(buf[..from]) && buf[to..] == old(buf[to..])
    ensures forall k :: from <= k < to ==> buf[k] == 0
  {
    for i := from to to
      invariant buf[..from] == old(buf[..from]) && buf[i..] == old(buf[i..])
      invariant forall k :: from <= k < i ==> buf[k] == 0
    {
      buf[i] := 0;
    }
  }

  method PutWord(buf: array<byte>, at: nat, w: Word)
    requires at + 2 <= buf.Length
    modifies buf
    ensures buf[..] == Splice(old(buf[..]), at, Bytes(w))
  {
    buf[at] := w / 256;
    buf[at + 1] := w % 256;
  }

  method GetWord(buf: array<byte>, at: nat) returns (w: Word)
    requires at + 2 <= buf.Length
    ensures w == WordAt(buf[..], at)
  {
    var high: int := buf[at];
    w := high * 256 + buf[at + 1];
  }

  // ---- ingress ----

  /** The buffer's contents in front of the first and of the second send */
  ghost function TwoTags(b: seq<byte>, n: nat, tag: Word): seq<byte>
    requires ETH_HEADER <= n && n + 8 <= |b|
  {
    Tagged(Tagged(b[..n], tag), tag) + b[n + 8..]
  }

  /** The bytes of a frame with two tags: the tag protocol identifier 0x8100 and the id, twice */
  lemma TwoTagBytes(frame: seq<byte>, id: Word)
    requires |frame| >= ETH_HEADER
    ensures Tagged(Tagged(frame, id), id)
      == frame[..12] + [0x81, 0x00, id / 256, id % 256, 0x81, 0x00, id / 256, id % 256] + frame[12..]
  {
    TwoTagsAre(frame + [0, 0, 0, 0, 0, 0, 0, 0], |frame|, id);
    var b: seq<byte> := frame + [0, 0, 0, 0, 0, 0, 0, 0];
    assert b[..|frame|] == frame && b[|frame| + 8..] == [];
    var tags: seq<byte> := [0x81, 0x00, id / 256, id % 256, 0x81, 0x00, id / 256, id % 256];
    assert Bytes(ETH_P_8021Q) + Bytes(id) + Bytes(ETH_P_8021Q) + Bytes(id) == tags;
    assert b[..12] == frame[..12] && b[12..|frame|] == frame[12..];
  }

  /** send_packet_withkey: both copies carry the session's id in two tags, the second copy with the mirror
      bit. */
  method SendPacketWithKey(buf: array<byte>, numbytes: nat, id: Word) returns (first: seq<byte>, second: seq<byte>)
    requires ETH_HEADER <= numbytes && numbytes + 2 * VLAN_HEADER <= buf.Length
    modifies buf
    ensures var frame := old(buf[..numbytes]);
      && first == Tagged(Tagged(frame, id), id)
      && second == Tagged(Tagged(frame, Mirrored(id)), Mirrored(id))
      && buf[..] == second + old(buf[numbytes + 8..])
    ensures var (frame, high, low) := (old(buf[..numbytes]), id / 256, id % 256);
      var mirror: byte := if high % 2 == 1 then high else high + 1;
      && first == frame[..12] + [0x81, 0x00, high, low, 0x81, 0x00, high, low] + frame[12..]
      && second == frame[..12] + [0x81, 0x00, mirror, low, 0x81, 0x00, mirror, low] + frame[12..]
  {
    hide Splice, Tagged, Mirrored, Bytes, WordAt;
    ghost var b0 := buf[..];
    var previousProtocol := GetWord(buf, 12);
    PutWord(buf, 12, ETH_P_8021Q);
    var rem := CopyOut(buf, ETH_HEADER, numbytes);
    PutWord(buf, 14, id);
    PutWord(buf, 16, ETH_P_8021Q);
    PutWord(buf, 18, id);
    PutWord(buf, 20, previousProtocol);
    CopyIn(buf, 22, rem);
    Shifted(b0, numbytes, id, rem[..]);
    first := buf[..numbytes + 8];
    PutWord(buf, 14, Mirrored(id));
    PutWord(buf, 18, Mirrored(id));
    Retagged(b0, numbytes, id, Mirrored(id));
    second := buf[..numbytes + 8];
    MirrorBit(id);
    TwoTagBytes(b0[..numbytes], id);
    TwoTagBytes(b0[..numbytes], Mirrored(id));
  }

  lemma Shifted(b: seq<byte>, n: nat, id: Word, rem: seq<byte>)
    requires ETH_HEADER <= n && n + 8 <= |b|
    requires rem == Splice(b, 12, Bytes(ETH_P_8021Q))[14..n]
    ensures var b1 := Splice(Splice(Splice(b, 12, Bytes(ETH_P_8021Q)), 14, Bytes(id)), 16, Bytes(ETH_P_8021Q));
      var b2 := Splice(Splice(b1, 18, Bytes(id)), 20, Bytes(WordAt(b, 12)));
      Splice(b2, 22, rem) == TwoTags(b, n, id)
    ensures |TwoTags(b, n, id)| == |b|
    ensures TwoTags(b, n, id)[..n + 8] == Tagged(Tagged(b[..n], id), id)
  {
    BytesOfWord(b, 12);
    TwoTagsAre(b, n, id);
    var tpid, tag := Bytes(ETH_P_8021Q), Bytes(id);
    var s1 := Splice(b, 12, tpid);
    var s2 := Splice(s1, 14, tag);
    assert s2[..16] == b[..12] + tpid + tag;
    var s3 := Splice(s2, 16, tpid);
    assert s3[..18] == b[..12] + tpid + tag + tpid;
    var s4 := Splice(s3, 18, tag);
    assert s4[..20] == b[..12] + tpid + tag + tpid + tag;
    var s5 := Splice(s4, 20, b[12..14]);
    assert s5[..22] == b[..12] + tpid + tag + tpid + tag + b[12..14];
    assert s1[22..] == b[22..];
    assert s2[22..] == s1[22..];
    assert s3[22..] == s2[22..];
    assert s4[22..] == s3[22..];
    assert s5[22..] == s4[22..];
    assert s5[22 + |rem|..] == s5[22..][|rem|..] == b[22..][|rem|..] == b[n + 8..];
    assert rem == b[14..n];
    assert b[12..n] == b[12..14] + b[14..n];
  }

  lemma TwoTagsAre(b: seq<byte>, n: nat, id: Word)
    requires ETH_HEADER <= n && n + 8 <= |b|
    ensures TwoTags(b, n, id)
      == b[..12] + Bytes(ETH_P_8021Q) + Bytes(id) + Bytes(ETH_P_8021Q) + Bytes(id) + b[12..n] + b[n + 8..]
  {
  }

  lemma Retagged(b: seq<byte>, n: nat, id: Word, id': Word)
    requires ETH_HEADER <= n && n + 8 <= |b|
    ensures |TwoTags(b, n, id)| == |b|
    ensures Splice(Splice(TwoTags(b, n, id), 14, Bytes(id')), 18, Bytes(id')) == TwoTags(b, n, id')
    ensures TwoTags(b, n, id')[..n + 8] == Tagged(Tagged(b[..n], id'), id')
  {
    hide TwoTags;
    TwoTagsAre(b, n, id);
    TwoTagsAre(b, n, id');
    var s0 := TwoTags(b, n, id);
    var s1 := Splice(s0, 14, Bytes(id'));
    assert s1[..18] == b[..12] + Bytes(ETH_P_8021Q) + Bytes(id') + Bytes(ETH_P_8021Q);
    assert s1[20..] == s0[20..] == b[12..n] + b[n + 8..];
    var s2 := Splice(s1, 18, Bytes(id'));
    assert s2 == s1[..18] + Bytes(id') + s1[20..];
  }

  // ---- egress ----

  /** The stripping part of process_wispr0_vlan */
  method Strip(buf: array<byte>, numbytes: nat) returns (sent: seq<byte>)
    requires ETH_HEADER + VLAN_HEADER <= numbytes <= buf.Length
    modifies buf
    ensures sent == Untagged(old(buf[..numbytes])) == old(buf[..12]) + old(buf[16..numbytes])
    ensures buf[..] == sent + [0, 0, 0, 0] + old(buf[numbytes..])
  {
    hide Splice, Untagged, Bytes, WordAt;
    ghost var b0 := buf[..];
    var previousProtocol := GetWord(buf, 16);
    var rem := CopyOut(buf, ETH_HEADER + VLAN_HEADER, numbytes);
    Zero(buf, ETH_HEADER, numbytes);
    ghost var b1 := buf[..];
    CopyIn(buf, ETH_HEADER, rem);
    PutWord(buf, 12, previousProtocol);
    Closed(b0, numbytes, b1);
    StripsTag(b0, numbytes);
    sent := buf[..numbytes - VLAN_HEADER];
  }

  lemma StripsTag(b: seq<byte>, n: nat)
    requires ETH_HEADER + VLAN_HEADER <= n <= |b|
    ensures Untagged(b[..n]) == b[..12] + b[16..n]
  {
  }

  lemma Closed(b: seq<byte>, n: nat, b1: seq<byte>)
    requires ETH_HEADER + VLAN_HEADER <= n <= |b| && |b1| == |b| && b1[..14] == b[..14] && b1[n..] == b[n..]
    requires forall k :: 14 <= k < n ==> b1[k] == 0
    ensures Splice(Splice(b1, 14, b[18..n]), 12, Bytes(WordAt(b, 16))) == Untagged(b[..n]) + [0, 0, 0, 0] + b[n..]
  {
    BytesOfWord(b, 16);
    var s1 := Splice(b1, 14, b[18..n]);
    assert b1[n - 4..] == [0, 0, 0, 0] + b[n..];
    var s2 := Splice(s1, 12, b[16..18]);
    assert s2 == b[..12] + b[16..18] + s1[14..];
    assert s1[14..] == b[18..n] + b1[n - 4..];
  }

  // ---- round trip ----

  /** Stripping undoes tagging, whatever the tag. */
  lemma UntagsTagged(frame: seq<byte>, tag: Word)
    requires |frame| >= ETH_HEADER
    ensures Untagged(Tagged(frame, tag)) == frame
  {
  }

  /** Stripping either transmitted copy twice restores the frame byte for byte: neither the id nor the mirror
      bit leaves a trace. On the way, the egress reads the id off either tag. */
  lemma TwoTagRoundTrip(frame: seq<byte>, id: Word)
    requires |frame| >= ETH_HEADER
    ensures var copy := Tagged(Tagged(frame, id), id);
      && |copy| == |frame| + 2 * VLAN_HEADER
      && WordAt(copy, 12) == ETH_P_8021Q && WordAt(copy, 14) == id
      && WordAt(Untagged(copy), 12) == ETH_P_8021Q && WordAt(Untagged(copy), 14) == id
      && Untagged(Untagged(copy)) == frame
  {
    UntagsTagged(frame, id);
    UntagsTagged(Tagged(frame, id), id);
  }

  // ---- the session's key ----

  const IP_ADDRESSES: nat := 12

  /** The bytes of the IP addresses, where the ingress reads them */
  function IngressKey(frame: seq<byte>): seq<byte>
    requires |frame| >= ETH_HEADER + 20
  {
    frame[ETH_HEADER + IP_ADDRESSES..][..8]
  }

  /** What the egress takes for them, behind one tag */
  function EgressKey(frame: seq<byte>): seq<byte>
    requires |frame| >= ETH_HEADER + VLAN_HEADER + 20
  {
    frame[ETH_HEADER + VLAN_HEADER + IP_ADDRESSES..][..8]
  }

  /** Bytes 26 to 33 of an untagged frame, and 30 to 37 of one with a tag */
  lemma KeyBytes(frame: seq<byte>)
    ensures |frame| >= 34 ==> IngressKey(frame) == frame[26..34]
    ensures |frame| >= 38 ==> EgressKey(frame) == frame[30..38]
  {
  }

  function WithTags(frame: seq<byte>, id: Word, tags: nat): (r: seq<byte>)
    requires |frame| >= ETH_HEADER
    ensures |r| == |frame| + tags * VLAN_HEADER
  {
    if tags == 0 then frame else Tagged(WithTags(frame, id, tags - 1), id)
  }

  /** The bytes of the time to live, protocol and header checksum, and then those of the source address */
  function BehindTwoTags(frame: seq<byte>): seq<byte>
    requires |frame| >= ETH_HEADER + 20
  {
    frame[22..30]
  }

  /** Of a frame with one tag the egress reads the session's key; of one with both it reads the four bytes in
      front of the addresses and the source address, which is the key exactly when these bytes, the source and
      the destination address are all the same. */
  lemma SameSession(frame: seq<byte>, id: Word, tags: nat)
    requires |frame| >= ETH_HEADER + 20 && 1 <= tags <= 2
    ensures EgressKey(WithTags(frame, id, tags)) == if tags == 1 then IngressKey(frame) else BehindTwoTags(frame)
    ensures EgressKey(WithTags(frame, id, tags)) == IngressKey(frame)
      <==> tags == 1 || frame[22..26] == frame[26..30] == frame[30..34]
  {
    hide Tagged;
    assert WithTags(frame, id, 1) == Tagged(frame, id);
    if tags == 1 {
      Behind(frame, id, 30);
    } else {
      assert WithTags(frame, id, 2) == Tagged(Tagged(frame, id), id);
      Behind(frame, id, 26);
      Behind(Tagged(frame, id), id, 30);
      SameHalves(frame[22..26], frame[26..30], frame[26..30], frame[30..34]);
      assert frame[22..][..8] == BehindTwoTags(frame) == frame[22..26] + frame[26..30];
      assert IngressKey(frame) == frame[26..30] + frame[30..34];
    }
  }

  /** A tag moves what is behind it by its own length. */
  lemma Behind(frame: seq<byte>, tag: Word, i: nat)
    requires ETH_HEADER <= |frame| && 16 <= i <= i + 8 <= |frame| + VLAN_HEADER
    ensures |Tagged(frame, tag)| == |frame| + VLAN_HEADER && Tagged(frame, tag)[i..][..8] == frame[i - VLAN_HEADER..][..8]
  {
    assert Tagged(frame, tag)[16..] == frame[12..];
  }

  lemma SameHalves(a: seq<byte>, b: seq<byte>, c: seq<byte>, d: seq<byte>)
    requires |a| == |c| && |b| == |d|
    ensures a + b == c + d <==> a == c && b == d
  {
    assert (a + b)[..|a|] == a && (a + b)[|a|..] == b;
    assert (c + d)[..|c|] == c && (c + d)[|c|..] == d;
  }

  /** The keys differ for this frame. */
  lemma OtherSession(id: Word)
    ensures var frame: seq<byte> := seq(34, i requires 0 <= i < 34 => i);
      EgressKey(WithTags(frame, id, 2)) != IngressKey(frame)
  {
    var frame: seq<byte> := seq(34, i requires 0 <= i < 34 => i);
    SameSession(frame, id, 2);
    assert frame[22..26][0] != frame[26..30][0];
  }
}
