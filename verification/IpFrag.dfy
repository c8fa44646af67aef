/** Sending a UDP datagram over a raw socket in IPv4 fragments, raw_iphdr_udp4_send of ipFrag.c. */
module IpFrag {
  import opened Bits
  import opened Octets

  const IP_HEADER: nat := 20
  const UDP_HEADER: nat := 8
  const HEADERS: nat := 28
  const MF: nat := 0x2000

  /** One call of sendmsg: the frag_off word of the IP header, in host byte order, and what follows the IP
      header */
  datatype Packet = Packet(fragOff: nat, data: seq<byte>)

  /** How RFC 791, section 3.1, reads the word */
  function Offset(p: Packet): nat {
    And(p.fragOff, 0x1FFF) * 8
  }

  predicate MoreFragments(p: Packet) {
    And(p.fragOff, MF) != 0
  }

  /** In numbers: the offset is the low 13 bits times 8, and the flag is the bit above them. */
  lemma HowRead(p: Packet)
    ensures Offset(p) == p.fragOff % 0x2000 * 8
    ensures MoreFragments(p) <==> p.fragOff / 0x2000 % 2 == 1
  {
    hide And;
    assert Pow2(13) == 0x2000 by {
      assert Pow2(3) == 8;
      Pow2Add(3, 3);
      Pow2Add(6, 6);
      Pow2Add(1, 12);
    }
    var high, low := p.fragOff / 0x2000, p.fragOff % 0x2000;
    AndLowMask(p.fragOff, 13);
    AndSplit(13, high, low, 1, 0);
    AndZero(low);
    AndLowMask(high, 1);
  }

  // ---- sizes ----

  /** totlen, an unsigned int */
  function TotLen(len: nat): nat {
    (len + HEADERS) % 0x1_0000_0000
  }

  predicate Fragmented(len: nat, mtu: nat) {
    HEADERS < mtu < TotLen(len) <= 65535
  }

  function Room(mtu: nat): nat
    requires mtu > HEADERS
  {
    mtu - IP_HEADER
  }

  /** ip_frag_size and last_frag_extra */
  function FragSize(mtu: nat): nat
    requires mtu > HEADERS
  {
    And(Room(mtu), 0xFFFF_FFF8)
  }

  function LastExtra(mtu: nat): nat
    requires mtu > HEADERS
  {
    And(Room(mtu), 7)
  }

  /** The masks split the room into a multiple of 8 and a rest. */
  lemma SizesSplitRoom(mtu: nat)
    requires HEADERS < mtu <= 65535
    ensures FragSize(mtu) + LastExtra(mtu) == Room(mtu) && LastExtra(mtu) < 8
    ensures FragSize(mtu) % 8 == 0 && FragSize(mtu) >= UDP_HEADER
  {
    hide And;
    var room := Room(mtu);
    assert Pow2(3) == 8 by {
      assert Pow2(2) == 4;
    }
    assert Pow2(16) == 0x1_0000 && Pow2(32) == 0x1_0000_0000 by {
      assert Pow2(4) == 16;
      Pow2Add(4, 4);
      Pow2Add(8, 8);
      Pow2Add(16, 16);
    }
    AndHighMask(room, 32, 3);
    AndLowMask(room, 3);
    EightAtLeast(room);
  }

  lemma FragSizePositive(mtu: nat)
    requires HEADERS < mtu <= 65535
    ensures FragSize(mtu) > 0
  {
    hide FragSize;
    SizesSplitRoom(mtu);
  }

  lemma EightAtLeast(n: nat)
    requires n >= 8
    ensures (n - n % 8) % 8 == 0 && n - n % 8 >= 8
  {
  }

  /** frg_no */
  function FragCount(payload: nat, size: nat, extra: nat): nat
    requires size > 0
  {
    payload / size + if payload % size > extra then 1 else 0
  }

  /** The count is the least number of fragments whose last one may be longer by `extra`: it is at least two
      when the payload exceeds the room, and its last fragment is not empty. */
  lemma CountIsLeast(payload: nat, size: nat, extra: nat, n: nat)
    requires size > 0 && extra < 8 <= size && payload > size + extra && n > 0
    ensures var count := FragCount(payload, size, extra);
      && count >= 2
      && (count - 1) * size < payload <= (count - 1) * size + size + extra
      && (payload <= (n - 1) * size + size + extra <==> count <= n)
  {
    var q, r := payload / size, payload % size;
    var count := FragCount(payload, size, extra);
    assert payload == q * size + r;
    assert q >= 1;
    assert q == 1 ==> r > extra;
    assert (count - 1) * size == q * size + (count - 1 - q) * size;
    if count <= n {
      MulMonotone(count - 1, n - 1, size);
    } else {
      MulMonotone(n - 1, count - 2, size);
      assert (count - 2) * size == (count - 1) * size - size;
    }
  }

  // ---- the fragments ----

  /** A piece of the payload as RFC 791, sections 3.1 and 3.2, asks: its offset fits beside the flags, and
      every piece but the last is marked and a multiple of 8 long. None is empty or longer than the room. */
  ghost predicate IsPiece(payload: seq<byte>, mtu: nat, p: Packet, offset: nat, last: bool)
    requires mtu > HEADERS
  {
    && 0 < |p.data| <= mtu - IP_HEADER
    && offset + |p.data| <= |payload| && p.data == payload[offset..offset + |p.data|]
    && offset / 8 < 0x2000 && p.fragOff == offset / 8 + (if last then 0 else MF)
    && Offset(p) == offset && (MoreFragments(p) <==> !last)
    && (if last then offset + |p.data| == |payload| else |p.data| % 8 == 0 && |p.data| == FragSize(mtu))
  }

  function Count(payload: seq<byte>, mtu: nat): nat
    requires HEADERS < mtu <= 65535
  {
    FragSizePositive(mtu);
    FragCount(|payload|, FragSize(mtu), LastExtra(mtu))
  }

  /** Where a piece begins */
  function Start(i: nat, size: nat): (r: nat)
    ensures r == i * size
  {
    i * size
  }

  /** The first fragments of a payload, in order */
  ghost predicate Pieces(payload: seq<byte>, mtu: nat, packets: seq<Packet>)
    requires HEADERS < mtu <= 65535
  {
    && |packets| <= Count(payload, mtu)
    && forall i: nat :: i < |packets| ==> IsPiece(payload, mtu, packets[i], Start(i, FragSize(mtu)), i == Count(payload, mtu) - 1)
  }

  /** An offset of at most 13 bits does not meet the flag. */
  lemma OffsetWord(units: nat)
    requires units < 0x2000
    ensures Or(units, MF) == units + MF < 0x1_0000
    ensures And(units, 0x1FFF) == And(units + MF, 0x1FFF) == units
    ensures And(units, MF) == 0 && And(units + MF, MF) == MF
  {
    hide And, Or;
    assert Pow2(13) == 0x2000 by {
      assert Pow2(3) == 8;
      Pow2Add(3, 3);
      Pow2Add(6, 6);
      Pow2Add(1, 12);
    }
    AndZero(units);
    AndZero(1);
    AndZero(0x1FFF);
    AndLowMask(units, 13);
    AndSplit(13, 1, units, 0, 0x1FFF);
    AndSplit(13, 0, units, 1, 0);
    AndSplit(13, 1, units, 1, 0);
    OneBit();
    OrPlusAnd(units, MF);
  }

  lemma OneBit()
    ensures And(1, 1) == 1
  {
  }

  lemma UnitsOf(i: nat, size: nat)
    requires size % 8 == 0
    ensures i * size % 8 == 0
  {
    var k := size / 8;
    assert i * size == 8 * (i * k);
  }

  /** A piece that is sent with its offset in units of 8 bytes */
  lemma PieceIs(payload: seq<byte>, mtu: nat, offset: nat, len: nat, last: bool)
    requires HEADERS < mtu <= 65535 && |payload| <= 65515 && offset % 8 == 0 && offset + len <= |payload|
    requires 0 < len <= mtu - IP_HEADER
    requires if last then offset + len == |payload| else len == FragSize(mtu)
    ensures IsPiece(payload, mtu, Packet(if last then offset / 8 else Or(offset / 8, MF), payload[offset..offset + len]), offset, last)
  {
    hide And, Or;
    OffsetWord(offset / 8);
    SizesSplitRoom(mtu);
  }

  // ---- sending ----

  /** The packets handed to sendmsg, when send(i) is what its i-th call returns */
  ghost predicate UpToFailure(sent: seq<Packet>, send: nat -> int, ret: int) {
    sent != [] && ret == send(|sent| - 1) && forall i: nat :: i < |sent| - 1 ==> send(i) >= 0
  }

  /** The i-th fragment, without the sizes the payload is cut by: it is the part of the payload its offset
      names, the next one begins where it ends, and only the one that ends with the payload is not marked.
      The others are as long as a multiple of 8 can be. */
  ghost predicate IsFragment(payload: seq<byte>, mtu: nat, sent: seq<Packet>, i: nat)
    requires i < |sent|
  {
    var (o, n) := (sent[i].fragOff % 0x2000 * 8, |sent[i].data|);
    && 20 + n <= mtu && o + n <= |payload| && sent[i].data == payload[o..o + n]
    && sent[i].fragOff / 0x2000 == (if o + n == |payload| then 0 else 1)
    && (o + n < |payload| ==> n % 8 == 0 && 20 + n + 8 > mtu)
    && (i == 0 ==> o == 0)
    && (i + 1 < |sent| ==> sent[i + 1].fragOff % 0x2000 * 8 == o + n)
  }

  lemma PieceNumbers(payload: seq<byte>, mtu: nat, p: Packet, offset: nat, last: bool)
    requires HEADERS < mtu && offset % 8 == 0 && IsPiece(payload, mtu, p, offset, last)
    ensures p.fragOff % 0x2000 * 8 == offset && p.fragOff / 0x2000 == if last then 0 else 1
  {
    hide And, FragSize;
  }

  lemma PieceMeans(payload: seq<byte>, mtu: nat, sent: seq<Packet>, i: nat)
    requires HEADERS < mtu <= 65535 && Room(mtu) < |payload| <= 65515 && Pieces(payload, mtu, sent) && i < |sent|
    ensures IsFragment(payload, mtu, sent, i)
    ensures Count(payload, mtu) >= 2
    ensures i == Count(payload, mtu) - 1 ==> sent[i].fragOff / 0x2000 == 0
  {
    hide And, Or, FragSize, LastExtra, Offset, MoreFragments, Pieces, FragCount, Count;
    var (size, n) := (FragSize(mtu), Count(payload, mtu));
    SizesSplitRoom(mtu);
    CountIs(payload, mtu);
    CountIsLeast(|payload|, size, LastExtra(mtu), 1);
    PieceIn(payload, mtu, sent, i);
    UnitsOf(i, size);
    PieceNumbers(payload, mtu, sent[i], i * size, i == n - 1);
    if i < n - 1 {
      MulMonotone(i + 1, n - 1, size);
      assert (i + 1) * size == i * size + size;
    }
    if i + 1 < |sent| {
      PieceIn(payload, mtu, sent, i + 1);
      UnitsOf(i + 1, size);
      PieceNumbers(payload, mtu, sent[i + 1], (i + 1) * size, i + 1 == n - 1);
    }
  }

  lemma PieceIn(payload: seq<byte>, mtu: nat, sent: seq<Packet>, i: nat)
    requires HEADERS < mtu <= 65535 && Pieces(payload, mtu, sent) && i < |sent|
    ensures |sent| <= Count(payload, mtu)
    ensures IsPiece(payload, mtu, sent[i], i * FragSize(mtu), i == Count(payload, mtu) - 1)
  {
    hide IsPiece, Count, FragSize;
    assert Start(i, FragSize(mtu)) == i * FragSize(mtu);
  }

  lemma NextPiece(payload: seq<byte>, mtu: nat, sent: seq<Packet>, p: Packet)
    requires HEADERS < mtu <= 65535 && Pieces(payload, mtu, sent) && |sent| < Count(payload, mtu)
    requires IsPiece(payload, mtu, p, Start(|sent|, FragSize(mtu)), |sent| == Count(payload, mtu) - 1)
    ensures Pieces(payload, mtu, sent + [p])
  {
    hide IsPiece, Count;
  }

  /** The i-th piece, cut out of the payload */
  lemma PieceAt(payload: seq<byte>, mtu: nat, i: nat)
    requires HEADERS < mtu <= 65535 && Room(mtu) < |payload| <= 65515 && i < Count(payload, mtu)
    ensures var (size, n) := (FragSize(mtu), Count(payload, mtu));
      var offset := i * size;
      && n >= 2 && size >= UDP_HEADER && (i > 0 ==> offset >= UDP_HEADER) && offset / 8 < 0x2000
      && (i < n - 1 ==>
            && offset + size <= (n - 1) * size && offset + size <= |payload|
            && IsPiece(payload, mtu, Packet(Or(offset / 8, MF), payload[offset..offset + size]), offset, false))
      && (i == n - 1 ==> offset < |payload| && IsPiece(payload, mtu, Packet(offset / 8, payload[offset..]), offset, true))
  {
    hide And, Or, IsPiece;
    SizesSplitRoom(mtu);
    var (size, n) := (FragSize(mtu), Count(payload, mtu));
    CountIsLeast(|payload|, size, LastExtra(mtu), 1);
    UnitsOf(i, size);
    var offset := i * size;
    if i > 0 {
      MulMonotone(1, i, size);
    }
    if i < n - 1 {
      MulMonotone(i + 1, n - 1, size);
      assert (i + 1) * size == offset + size;
      PieceIs(payload, mtu, offset, size, false);
    } else {
      assert payload[offset..] == payload[offset..|payload|];
      PieceIs(payload, mtu, offset, |payload| - offset, true);
    }
  }

  /** Behind the UDP header the payload is the buffer. */
  lemma BehindHeader(udp: seq<byte>, b: seq<byte>, offset: nat, end: nat)
    requires |udp| == UDP_HEADER <= offset <= end <= UDP_HEADER + |b|
    ensures (udp + b)[offset..end] == b[offset - UDP_HEADER..end - UDP_HEADER]
  {
  }

  /** In front of a turn of the loop: `base` is where the buffer's next bytes are. */
  ghost predicate Ready(udp: seq<byte>, b: seq<byte>, mtu: nat, sent: seq<Packet>, base: nat) {
    && |udp| == UDP_HEADER && HEADERS < mtu <= 65535 && Room(mtu) < UDP_HEADER + |b| <= 65515
    && 1 <= |sent| < Count(udp + b, mtu) && Pieces(udp + b, mtu, sent)
    && base == |sent| * FragSize(mtu) - UDP_HEADER
  }

  lemma FirstPiece(udp: seq<byte>, b: seq<byte>, mtu: nat)
    requires |udp| == UDP_HEADER && HEADERS < mtu <= 65535 && Room(mtu) < UDP_HEADER + |b| <= 65515
    ensures var base := FragSize(mtu) - UDP_HEADER;
      0 <= base <= |b| && Ready(udp, b, mtu, [Packet(MF, udp + b[..base])], base)
  {
    hide And, Or, IsPiece, FragSize, Count;
    var payload := udp + b;
    SizesSplitRoom(mtu);
    CountIsLeast(|payload|, FragSize(mtu), LastExtra(mtu), 1);
    CountIs(payload, mtu);
    PieceAt(payload, mtu, 0);
    OffsetWord(0);
    assert payload[..FragSize(mtu)] == udp + b[..FragSize(mtu) - UDP_HEADER];
  }

  lemma CountIs(payload: seq<byte>, mtu: nat)
    requires HEADERS < mtu <= 65535
    ensures FragSize(mtu) > 0 && Count(payload, mtu) == FragCount(|payload|, FragSize(mtu), LastExtra(mtu))
  {
    SizesSplitRoom(mtu);
  }

  /** The loop goes on until one piece is left. */
  lemma MiddlePiece(udp: seq<byte>, b: seq<byte>, mtu: nat, sent: seq<Packet>, base: nat)
    requires Ready(udp, b, mtu, sent, base)
    ensures base < (Count(udp + b, mtu) - 1) * FragSize(mtu) - UDP_HEADER <==> |sent| < Count(udp + b, mtu) - 1
    ensures |sent| < Count(udp + b, mtu) - 1 ==>
      && base + FragSize(mtu) <= |b| && FragSize(mtu) > 0
      && Ready(udp, b, mtu, sent + [Packet(Or((base + UDP_HEADER) / 8, MF) % 0x1_0000, b[base..base + FragSize(mtu)])],
               base + FragSize(mtu))
  {
    hide And, Or, IsPiece, Pieces, FragSize, Count;
    var payload, size := udp + b, FragSize(mtu);
    PieceAt(payload, mtu, |sent|);
    MulMonotone(|sent|, Count(payload, mtu) - 1, size);
    if |sent| < Count(payload, mtu) - 1 {
      OffsetWord((base + UDP_HEADER) / 8);
      BehindHeader(udp, b, base + UDP_HEADER, base + UDP_HEADER + size);
      NextPiece(payload, mtu, sent, Packet(Or((base + UDP_HEADER) / 8, MF) % 0x1_0000, b[base..base + size]));
      assert (|sent| + 1) * size == |sent| * size + size;
    }
  }

  lemma SmallWord(w: nat)
    requires w < 0x2000
    ensures w % 0x1_0000 == w
  {
  }

  lemma LastPiece(udp: seq<byte>, b: seq<byte>, mtu: nat, sent: seq<Packet>, base: nat)
    requires Ready(udp, b, mtu, sent, base) && |sent| == Count(udp + b, mtu) - 1
    ensures base <= |b| && Pieces(udp + b, mtu, sent + [Packet((base + UDP_HEADER) / 8 % 0x1_0000, b[base..])])
  {
    hide And, Or, IsPiece, Pieces, FragSize, Count;
    var payload := udp + b;
    PieceAt(payload, mtu, |sent|);
    BehindHeader(udp, b, base + UDP_HEADER, |payload|);
    assert payload[base + UDP_HEADER..] == b[base..];
    SmallWord((base + UDP_HEADER) / 8);
    NextPiece(payload, mtu, sent, Packet((base + UDP_HEADER) / 8 % 0x1_0000, b[base..]));
  }

  /** raw_iphdr_udp4_send: too long a datagram is refused, one that fits is sent in one piece with the IP
      header as it was made, and any other is sent in fragments until sendmsg fails. */
  method RawIphdrUdp4Send(udp: seq<byte>, buf: array<byte>, mtu: nat, madeFragOff: nat, send: nat -> int)
      returns (ret: int, sent: seq<Packet>)
    requires |udp| == 8 && buf.Length < 0x1_0000_0000 && mtu <= 65535
    ensures (buf.Length + 28) % 0x1_0000_0000 > 65535 ==> ret == -2 && sent == []
    ensures sent == [] <==> 65535 < buf.Length + 28 < 0x1_0000_0000
    ensures (buf.Length + 28) % 0x1_0000_0000 <= 65535 ==>
      sent != [] && ret == send(|sent| - 1) && forall i: nat :: i < |sent| - 1 ==> send(i) >= 0
    ensures buf.Length + 28 <= 65535 && mtu > 28 ==> forall i :: 0 <= i < |sent| ==> 20 + |sent[i].data| <= mtu
    ensures buf.Length + 28 <= 65535 && (forall i: nat :: i < |sent| ==> send(i) >= 0) ==>
      (|sent| == 1 <==> buf.Length + 28 <= mtu || mtu <= 28)
    ensures (buf.Length + 28) % 0x1_0000_0000 <= 65535 && ((buf.Length + 28) % 0x1_0000_0000 <= mtu || mtu <= 28) ==>
      sent == [Packet(madeFragOff, udp + buf[..])]
    ensures 28 < mtu < buf.Length + 28 <= 65535 ==>
      && (forall i :: 0 <= i < |sent| ==> IsFragment(udp + buf[..], mtu, sent, i))
      && ((forall i: nat :: i < |sent| ==> send(i) >= 0) ==> sent[|sent| - 1].fragOff / 0x2000 == 0)
    ensures Fragmented(buf.Length, mtu) ==>
      && HEADERS < mtu <= 65535 && Pieces(udp + buf[..], mtu, sent)
      && (|sent| == Count(udp + buf[..], mtu) || ret < 0)
  {
    hide Pieces, Count, Room, IsFragment;
    var len := buf.Length;
    var totlen := (len + HEADERS) % 0x1_0000_0000;
    if totlen > 65535 {
      return -2, [];
    }
    if totlen <= mtu || mtu <= HEADERS {
      return send(0), [Packet(madeFragOff, udp + buf[..])];
    }
    ret, sent := SendFragments(udp, buf, mtu, send);
    NoWrap(len, mtu);
    Sent(udp + buf[..], mtu, sent);
  }

  /** All the fragments that are sent */
  lemma Sent(payload: seq<byte>, mtu: nat, sent: seq<Packet>)
    requires HEADERS < mtu <= 65535 && Room(mtu) < |payload| <= 65515 && Pieces(payload, mtu, sent) && sent != []
    ensures forall i :: 0 <= i < |sent| ==> IsFragment(payload, mtu, sent, i) && 20 + |sent[i].data| <= mtu
    ensures Count(payload, mtu) >= 2
    ensures |sent| == Count(payload, mtu) ==> sent[|sent| - 1].fragOff / 0x2000 == 0
  {
    hide Pieces, Count;
    forall i | 0 <= i < |sent| ensures IsFragment(payload, mtu, sent, i) && 20 + |sent[i].data| <= mtu {
      PieceMeans(payload, mtu, sent, i);
    }
    PieceMeans(payload, mtu, sent, |sent| - 1);
  }

  /** A total length that does not wrap around */
  lemma NoWrap(len: nat, mtu: nat)
    requires len < 0x1_0000_0000 && Fragmented(len, mtu)
    ensures HEADERS < mtu <= 65535 && Room(mtu) < UDP_HEADER + len <= 65515
  {
  }

  method SendFragments(udp: seq<byte>, buf: array<byte>, mtu: nat, send: nat -> int) returns (ret: int, sent: seq<Packet>)
    requires |udp| == UDP_HEADER && buf.Length < 0x1_0000_0000 && Fragmented(buf.Length, mtu)
    ensures UpToFailure(sent, send, ret) && mtu <= 65535
    ensures Pieces(udp + buf[..], mtu, sent) && (|sent| == Count(udp + buf[..], mtu) || ret < 0)
  {
    hide And, Or, IsPiece, Pieces, FragCount, Fragmented;
    NoWrap(buf.Length, mtu);
    CountIs(udp + buf[..], mtu);
    var len := buf.Length;
    var ipPayload := len + UDP_HEADER;
    var ipFragSize := And(mtu - IP_HEADER, 0xFFFF_FFF8);
    var lastFragExtra := And(mtu - IP_HEADER, 7);
    var frgNo := FragCount(ipPayload, ipFragSize, lastFragExtra);
    var lastFragStart := (frgNo - 1) * ipFragSize - UDP_HEADER;
    FirstPiece(udp, buf[..], mtu);
    var base: nat := ipFragSize - UDP_HEADER;
    sent := [Packet(MF, udp + buf[..base])];
    ret := send(0);
    if ret < 0 {
      return;
    }
    MiddlePiece(udp, buf[..], mtu, sent, base);
    while base < lastFragStart
      invariant Ready(udp, buf[..], mtu, sent, base) && (base < lastFragStart <==> |sent| < frgNo - 1)
      invariant UpToFailure(sent, send, ret) && ret >= 0
      decreases frgNo - |sent|
    {
      MiddlePiece(udp, buf[..], mtu, sent, base);
      assert buf[..][base..base + ipFragSize] == buf[base..base + ipFragSize];
      sent := sent + [Packet(Or((base + UDP_HEADER) / 8, MF) % 0x1_0000, buf[base..base + ipFragSize])];
      ret := send(|sent| - 1);
      if ret < 0 {
        return;
      }
      base := base + ipFragSize;
      MiddlePiece(udp, buf[..], mtu, sent, base);
    }
    LastPiece(udp, buf[..], mtu, sent, base);
    assert buf[..][base..] == buf[base..len];
    sent := sent + [Packet((base + UDP_HEADER) / 8 % 0x1_0000, buf[base..len])];
    ret := send(|sent| - 1);
  }

  // ---- reassembly ----

  predicate Covers(p: Packet, b: nat) {
    Offset(p) <= b < Offset(p) + |p.data|
  }

  /** Which of `count` fragments carries a byte of the payload */
  function Carrier(b: nat, size: nat, count: nat): (i: nat)
    requires size > 0 && count > 0
    ensures i < count
  {
    if b / size < count - 1 then b / size else count - 1
  }

  lemma CountPositive(payload: seq<byte>, mtu: nat)
    requires HEADERS < mtu <= 65535 && Room(mtu) < |payload|
    ensures FragSize(mtu) > 0 && Count(payload, mtu) >= 2
  {
    hide And;
    SizesSplitRoom(mtu);
    CountIsLeast(|payload|, FragSize(mtu), LastExtra(mtu), 1);
  }

  /** Every byte of the payload is carried by one fragment and no other, and no fragment goes beyond the
      payload: there are no gaps and no overlaps. */
  lemma ExactCover(payload: seq<byte>, mtu: nat, packets: seq<Packet>, b: nat, j: nat)
    requires HEADERS < mtu <= 65535 && Room(mtu) < |payload|
    requires Pieces(payload, mtu, packets) && |packets| == Count(payload, mtu) && j < |packets|
    ensures FragSize(mtu) > 0
    ensures Covers(packets[j], b) <==> b < |payload| && j == Carrier(b, FragSize(mtu), |packets|)
    ensures Covers(packets[j], b) ==> packets[j].data[b - Offset(packets[j])] == payload[b]
  {
    hide And, Or;
    var (size, n) := (FragSize(mtu), Count(payload, mtu));
    SizesSplitRoom(mtu);
    CountIsLeast(|payload|, size, LastExtra(mtu), 1);
    assert IsPiece(payload, mtu, packets[j], Start(j, size), j == n - 1);
    hide Count, FragSize, LastExtra, Offset, MoreFragments;
    InPiece(b, size, j);
    InPiece(b, size, n - 1);
    assert (j + 1) * size == j * size + size;
  }

  /** A byte's piece number by division */
  lemma InPiece(b: nat, size: nat, j: nat)
    requires size > 0
    ensures b / size == j <==> j * size <= b < j * size + size
    ensures b / size >= j <==> j * size <= b
  {
    var q, r := b / size, b % size;
    assert b == q * size + r;
    if j * size <= b < j * size + size {
      QuotientRemainder(b, size, j, b - j * size);
    }
    if q >= j {
      MulMonotone(j, q, size);
    } else {
      MulMonotone(q + 1, j, size);
      assert (q + 1) * size == q * size + size;
    }
  }

  predicate Indices(order: seq<nat>, n: nat) {
    forall k :: 0 <= k < |order| ==> order[k] < n
  }

  predicate Fit(packets: seq<Packet>, n: nat) {
    forall i :: 0 <= i < |packets| ==> Offset(packets[i]) + |packets[i].data| <= n
  }

  /** Copying the fragments to their offsets, in the order of their arrival (RFC 791, section 3.2) */
  function Reassembled(blank: seq<byte>, packets: seq<Packet>, order: seq<nat>): (r: seq<byte>)
    requires Indices(order, |packets|) && Fit(packets, |blank|)
    ensures |r| == |blank|
    decreases |order|
  {
    if order == [] then blank else
      var before := Reassembled(blank, packets, order[..|order| - 1]);
      var p := packets[order[|order| - 1]];
      before[..Offset(p)] + p.data + before[Offset(p) + |p.data|..]
  }

  lemma FragmentsFit(payload: seq<byte>, mtu: nat, packets: seq<Packet>)
    requires HEADERS < mtu <= 65535 && Pieces(payload, mtu, packets)
    ensures Fit(packets, |payload|)
  {
    forall i: nat | i < |packets| ensures Offset(packets[i]) + |packets[i].data| <= |payload| {
      assert IsPiece(payload, mtu, packets[i], Start(i, FragSize(mtu)), i == Count(payload, mtu) - 1);
    }
  }

  lemma {:induction false} ByteReassembled(payload: seq<byte>, mtu: nat, size: nat, packets: seq<Packet>, blank: seq<byte>,
                                           order: seq<nat>, b: nat)
    requires HEADERS < mtu <= 65535 && Room(mtu) < |payload| == |blank| && b < |payload|
    requires Pieces(payload, mtu, packets) && |packets| == Count(payload, mtu) > 0 && size == FragSize(mtu) > 0
    requires Indices(order, |packets|) && Fit(packets, |blank|)
    ensures Reassembled(blank, packets, order)[b] == if Carrier(b, size, |packets|) in order then payload[b] else blank[b]
    decreases |order|
  {
    hide Pieces, Carrier, Count, Offset, Room, FragSize;
    if order != [] {
      var n := |order| - 1;
      assert order == order[..n] + [order[n]];
      ByteReassembled(payload, mtu, size, packets, blank, order[..n], b);
      ExactCover(payload, mtu, packets, b, order[n]);
    }
  }

  /** However often and in whatever order the fragments arrive, once each has arrived the receiver has the UDP
      header and the buffer. */
  lemma ReassemblesToPayload(payload: seq<byte>, mtu: nat, packets: seq<Packet>, blank: seq<byte>, order: seq<nat>)
    requires HEADERS < mtu <= 65535 && Room(mtu) < |payload| == |blank|
    requires Pieces(payload, mtu, packets) && |packets| == Count(payload, mtu)
    requires Indices(order, |packets|)
    requires forall i: nat :: i < |packets| ==> i in order
    ensures Fit(packets, |blank|)
    ensures Reassembled(blank, packets, order) == payload
  {
    hide Pieces, Carrier, Count, Offset, Room, Reassembled, FragSize;
    CountPositive(payload, mtu);
    FragmentsFit(payload, mtu, packets);
    forall b: nat | b < |payload| ensures Reassembled(blank, packets, order)[b] == payload[b] {
      ByteReassembled(payload, mtu, FragSize(mtu), packets, blank, order, b);
    }
  }
}
