/** The tags that the ingress of wispr_proto.c puts on packets: a packet number and a group number in the two
    low nibbles of a VLAN id, and the mirror bit of the second copy above them. */
module WisprTags {
  import opened Bits

  /** The numbers of paths and groups, constants of the program */
  ghost predicate Sizes(paths: nat, groups: nat) {
    1 <= paths <= 15 && 1 <= groups <= 15
  }

  /** What the egress reads from a VLAN id */
  function PacketNumber(tag: nat): nat {
    And(tag, 0x000F)
  }

  function GroupId(tag: nat): nat {
    Shr(And(tag, 0x00F0), 4)
  }

  function WisprMode(tag: nat): nat {
    Shr(And(tag, 0x0F00), 8)
  }

  /** The second copy's id */
  function Mirrored(tag: nat): (r: nat)
    ensures tag < 0x1_0000 ==> r < 0x1_0000
  {
    MirrorFits(tag);
    Or(tag, 0x0100)
  }

  lemma MirrorFits(tag: nat)
    ensures tag < 0x1_0000 ==> Or(tag, 0x0100) < 0x1_0000
  {
    Powers();
    Pow2Add(8, 8);
    if tag < 0x1_0000 {
      OrFits(16, tag, 0x0100);
    }
  }

  /** The update of a session's id, process_ingress0 */
  function NextTag(tag: nat, paths: nat, groups: nat): nat {
    if PacketNumber(tag) == paths then
      var bumped := And(tag, 0xFFF0) + 1 + 0x10;
      if GroupId(bumped) == groups then And(bumped, 0xFF0F) else bumped
    else tag + 1
  }

  /** The id of a session's n-th packet, counted from 1; a fresh session has id 0. */
  function TagOf(n: nat, paths: nat, groups: nat): nat
    requires paths > 0 && groups > 0
  {
    if n == 0 then 0 else (n - 1) / paths % groups * 16 + (n - 1) % paths + 1
  }

  lemma Powers()
    ensures Pow2(4) == 16 && Pow2(8) == 256
  {
    assert Pow2(2) == 4;
    Pow2Add(2, 2);
    Pow2Add(4, 4);
  }

  /** The nibbles of an id, from the low end: packet number, group, mode */
  lemma Nibbles(mode: nat, group: nat, packet: nat)
    requires mode < 16 && group < 16 && packet < 16
    ensures var tag := mode * 256 + group * 16 + packet;
      PacketNumber(tag) == packet && GroupId(tag) == group && WisprMode(tag) == mode
  {
    hide And, Shr, Pow2;
    Powers();
    var tag := mode * 256 + group * 16 + packet;
    assert tag == (mode * 16 + group) * 16 + packet;
    OneNibble(mode * 16 + group, packet);
    OneNibble(mode, group);
    OneNibble(0, mode);
    AndZero(packet);
    AndSplit(4, mode * 16 + group, packet, 15, 0);
    AndSplit(4, mode * 16 + group, packet, 0xF0, 0);
    AndZero(group);
    AndSplit(4, mode, group, 15, 0);
    ShrDivides(And(tag, 0x00F0), 4);
    ShrDivides(And(tag, 0x0F00), 8);
  }

  /** What the egress reads from any id, in numbers */
  lemma NibblesOf(tag: nat)
    ensures PacketNumber(tag) == tag % 16 && GroupId(tag) == tag / 16 % 16 && WisprMode(tag) == tag / 256 % 16
  {
    hide And, Shr, Pow2, PacketNumber, GroupId, WisprMode;
    var high, mode, group, packet := HexDigits(tag);
    Nibbles(mode, group, packet);
    HighDigits(high, mode * 256 + group * 16 + packet);
  }

  lemma HexDigits(tag: nat) returns (high: nat, mode: nat, group: nat, packet: nat)
    ensures mode == tag / 256 % 16 && group == tag / 16 % 16 && packet == tag % 16
    ensures tag == high * 4096 + (mode * 256 + group * 16 + packet)
  {
    var q := tag / 16;
    var q' := q / 16;
    high, mode, group, packet := q' / 16, q' % 16, q % 16, tag % 16;
    TwoDigits(tag);
  }

  lemma TwoDigits(tag: nat)
    ensures tag / 256 == tag / 16 / 16
  {
    var q, r := tag / 256, tag % 256;
    assert tag == (q * 16 + r / 16) * 16 + r % 16;
  }

  /** What is above the three nibbles is not read. */
  lemma HighDigits(high: nat, low: nat)
    requires low < 4096
    ensures PacketNumber(high * 4096 + low) == PacketNumber(low)
    ensures GroupId(high * 4096 + low) == GroupId(low) && WisprMode(high * 4096 + low) == WisprMode(low)
  {
    hide And, Shr, Pow2;
    Powers();
    Pow2Add(4, 8);
    AndZero(high);
    AndSplit(12, high, low, 0, 0x000F);
    AndSplit(12, high, low, 0, 0x00F0);
    AndSplit(12, high, low, 0, 0x0F00);
  }

  /** The mirror bit, in numbers */
  lemma MirrorBit(tag: nat)
    ensures Mirrored(tag) == if tag / 256 % 2 == 1 then tag else tag + 256
  {
    hide And, Or, Pow2;
    Powers();
    var high, low := tag / 256, tag % 256;
    AndSplit(8, high, low, 1, 0);
    AndZero(low);
    assert Pow2(1) == 2 by {
      PowZero();
      PowStep(1);
    }
    AndLowMask(high, 1);
    OrPlusAnd(tag, 0x0100);
  }

  lemma OneNibble(high: nat, low: nat)
    requires low < 16
    ensures And(high * 16 + low, 15) == low
  {
    hide And, Pow2;
    Powers();
    AndLowMask(high * 16 + low, 4);
    QuotientRemainder(high * 16 + low, 16, high, low);
  }

  /** Clearing one nibble keeps the other. */
  lemma ClearNibble(group: nat, packet: nat)
    requires group < 16 && packet < 16
    ensures And(group * 16 + packet, 0xFFF0) == group * 16
    ensures And(group * 16 + packet, 0xFF0F) == packet
  {
    hide And, Pow2;
    Powers();
    AndSplit(4, group, packet, 0xFFF, 0);
    AndSplit(4, group, packet, 0xFF0, 15);
    AndSplit(4, 0, group, 0xFF, 15);
    AndSplit(4, 0, group, 0xFF, 0);
    AndZero(packet);
    AndZero(group);
    AndZero(0xFF);
    OneNibble(0, packet);
    OneNibble(0, group);
  }

  /** The update steps packet and group cyclically. */
  lemma NextNibbles(group: nat, packet: nat, paths: nat, groups: nat)
    requires Sizes(paths, groups) && group < groups && packet <= paths
    ensures NextTag(group * 16 + packet, paths, groups)
      == if packet == paths then (if group + 1 == groups then 1 else (group + 1) * 16 + 1) else group * 16 + packet + 1
  {
    hide And, Shr;
    Nibbles(0, group, packet);
    ClearNibble(group, packet);
    if packet == paths {
      Nibbles(0, group + 1, 1);
      ClearNibble(group + 1, 1);
    }
  }

  /** Starting from a fresh session, the n-th update gives the n-th id: packet number ((n-1) mod paths) + 1
      and group ((n-1) div paths) mod groups. */
  lemma NextTagIs(n: nat, paths: nat, groups: nat)
    requires Sizes(paths, groups)
    ensures NextTag(TagOf(n, paths, groups), paths, groups) == TagOf(n + 1, paths, groups)
  {
    hide NextTag;
    if n == 0 {
      NextNibbles(0, 0, paths, groups);
      QuotientRemainder(0, paths, 0, 0);
      QuotientRemainder(0, groups, 0, 0);
    } else {
      var q, r := (n - 1) / paths, (n - 1) % paths;
      DivSuccessor(n - 1, paths);
      DivSuccessor(q, groups);
      NextNibbles(q % groups, r + 1, paths, groups);
    }
  }

  /** The egress reads the packet's numbers off either copy, and the mode only tells the copies apart. */
  lemma EgressReads(n: nat, paths: nat, groups: nat)
    requires Sizes(paths, groups) && n > 0
    ensures var tag := TagOf(n, paths, groups);
      && 0 < tag < 256 && Mirrored(tag) == tag + 256
      && PacketNumber(tag) == PacketNumber(Mirrored(tag)) == (n - 1) % paths + 1 <= paths
      && GroupId(tag) == GroupId(Mirrored(tag)) == (n - 1) / paths % groups < groups
      && WisprMode(tag) == 0 && WisprMode(Mirrored(tag)) == 1
  {
    hide And, Or, Shr, Pow2;
    Powers();
    var g, p := (n - 1) / paths % groups, (n - 1) % paths + 1;
    var tag := g * 16 + p;
    Nibbles(0, g, p);
    Nibbles(1, g, p);
    AndSplit(8, 0, tag, 1, 0);
    AndZero(1);
    AndZero(tag);
    OrPlusAnd(tag, 0x0100);
  }

  /** Two packets of a session get one tag exactly when their numbers agree modulo paths * groups. */
  lemma TagReuse(m: nat, n: nat, paths: nat, groups: nat)
    requires Sizes(paths, groups) && 0 < m && 0 < n
    ensures paths * groups > 0
    ensures TagOf(m, paths, groups) == TagOf(n, paths, groups) <==> (m - 1) % (paths * groups) == (n - 1) % (paths * groups)
  {
    MixedDigits(m - 1, paths, groups);
    MixedDigits(n - 1, paths, groups);
    var (g, r) := ((m - 1) / paths % groups, (m - 1) % paths);
    var (g', r') := ((n - 1) / paths % groups, (n - 1) % paths);
    SameDigits(g, r, g', r', paths);
    SameDigits(g, r + 1, g', r' + 1, 16);
  }

  lemma SameDigits(g: nat, r: nat, g': nat, r': nat, d: nat)
    requires r < d && r' < d
    ensures g * d + r == g' * d + r' <==> g == g' && r == r'
  {
    QuotientRemainder(g * d + r, d, g, r);
    QuotientRemainder(g' * d + r', d, g', r');
  }

  /** The remainder modulo paths * groups has the packet's numbers as its digits. */
  lemma MixedDigits(x: nat, paths: nat, groups: nat)
    requires 0 < paths && 0 < groups
    ensures paths * groups > 0 && x % (paths * groups) == x / paths % groups * paths + x % paths
  {
    var q, r := x / paths, x % paths;
    var c, g := q / groups, q % groups;
    MulPositive(paths, groups);
    Division(x, paths);
    Division(q, groups);
    MulDistributes(c * groups, g, paths);
    MulAssociates(c, groups, paths);
    MulMonotone(g + 1, groups, paths);
    MulDistributes(g, 1, paths);
    assert groups * paths == paths * groups;
    QuotientRemainder(x, paths * groups, c, g * paths + r);
  }
}
