/** Bytes, and words in network byte order */
module Octets {
  import opened Bits

  type byte = x: int | 0 <= x < 256

  /** A 16-bit word */
  type Word = x: int | 0 <= x < 0x1_0000

  function Bytes(w: Word): (r: seq<byte>)
    ensures |r| == 2
  {
    [w / 256, w % 256]
  }

  function WordAt(s: seq<byte>, at: nat): Word
    requires at + 2 <= |s|
  {
    var high: int := s[at];
    high * 256 + s[at + 1]
  }

  lemma BytesOfWord(s: seq<byte>, at: nat)
    requires at + 2 <= |s|
    ensures Bytes(WordAt(s, at)) == s[at..at + 2]
  {
    var high: int := s[at];
    QuotientRemainder(high * 256 + s[at + 1], 256, high, s[at + 1]);
  }
}
