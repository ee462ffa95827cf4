/**
 * Bytes and the 16-bit little-endian integers the packet format is made of.
 * The checksum reads the buffer as signed halves (struct format "<h");
 * the id, length and checksum fields are stored as unsigned halves.
 */
module Bytes {

  type byte = b: int | 0 <= b < 256
  type u16 = v: int | 0 <= v < 0x1_0000

  /** Unsigned little-endian value of the byte pair (lo, hi). */
  function U16Value(lo: byte, hi: byte): u16 {
    lo + 256 * hi
  }

  /** Little-endian encoding of an unsigned 16-bit value. */
  function U16Bytes(v: u16): (b: seq<byte>)
    ensures |b| == 2
  {
    [v % 256, v / 256]
  }

  /** Encoding then decoding a 16-bit value gives it back. */
  lemma U16RoundTrip(v: u16)
    ensures U16Value(U16Bytes(v)[0], U16Bytes(v)[1]) == v
  {
  }

  lemma U16BytesOfValue(lo: byte, hi: byte)
    ensures U16Bytes(U16Value(lo, hi)) == [lo, hi]
  {
  }

  /** Signed little-endian value of the byte pair (lo, hi): struct format "<h". */
  function Int16(lo: byte, hi: byte): (v: int)
    ensures -0x8000 <= v < 0x8000
    ensures v == U16Value(lo, hi) || v == U16Value(lo, hi) - 0x1_0000
  {
    if hi < 128 then lo + 256 * hi else lo + 256 * hi - 0x1_0000
  }

  /** Sum of the signed 16-bit words of s, two bytes at a time (a trailing odd byte adds nothing). */
  function WordSum(s: seq<byte>): int
    decreases |s|
  {
    if |s| < 2 then 0 else Int16(s[0], s[1]) + WordSum(s[2..])
  }

  /** The word sum of a concatenation splits at any even boundary. */
  lemma {:induction false} WordSumAppend(a: seq<byte>, b: seq<byte>)
    requires |a| % 2 == 0
    ensures WordSum(a + b) == WordSum(a) + WordSum(b)
    decreases |a|
  {
    if |a| == 0 {
      assert a + b == b;
    } else {
      assert (a + b)[2..] == a[2..] + b;
      WordSumAppend(a[2..], b);
    }
  }

  /** Replacing one aligned word changes the word sum by the difference of the two words. */
  lemma WordSumSplice(a: seq<byte>, w: seq<byte>, c: seq<byte>)
    requires |a| % 2 == 0 && |w| == 2
    ensures WordSum(a + w + c) == WordSum(a) + Int16(w[0], w[1]) + WordSum(c)
  {
    WordSumAppend(a, w + c);
    assert a + w + c == a + (w + c);
    assert (w + c)[2..] == c;
  }

  /** Replacing a 2-byte word at offset c of `other` is replacing it at |head| + c of head + other. */
  lemma SpliceAfter(head: seq<byte>, other: seq<byte>, newer: seq<byte>, c: nat, y: seq<byte>)
    requires c + 2 <= |other| && newer == other[..c] + y + other[c + 2..]
    ensures var pkt, i := head + other, |head| + c;
      && i + 2 <= |pkt|
      && pkt[i..i + 2] == other[c..c + 2]
      && head + newer == pkt[..i] + y + pkt[i + 2..]
  {
    var pkt, i := head + other, |head| + c;
    assert pkt[..i] == head + other[..c];
    assert pkt[i + 2..] == other[c + 2..];
  }

  /** The parts of a three-part concatenation after its first part. */
  lemma ThreeParts(x: seq<byte>, y: seq<byte>, z: seq<byte>)
    ensures var s := x + y + z;
      && s[|x| + |y|..] == z
      && s[|x|..] == y + z
  {
  }

  /** Slices of head + tail that stay inside head, and what is left after it. */
  lemma HeadParts(head: seq<byte>, tail: seq<byte>, k: nat)
    requires k <= |head|
    ensures var s := head + tail;
      && s[..|head|] == head && s[..k] == head[..k]
      && s[k..|head|] == head[k..] && s[k..][|head| - k..] == tail
  {
    var s := head + tail;
    assert s[..|head|] == head;
    assert s[k..][|head| - k..] == tail;
  }

  /** Concatenation regrouped after its first two parts. */
  lemma Regroup(a: seq<byte>, w: seq<byte>, x: seq<byte>, y: seq<byte>, z: seq<byte>)
    ensures a + w + x + y + z == a + w + (x + y + z)
  {
  }

  /** Appending one 4-byte group adds its two signed halves to the word sum. */
  lemma WordSumGroup(a: seq<byte>, g: seq<byte>)
    requires |a| % 2 == 0 && |g| == 4
    ensures WordSum(a + g) == WordSum(a) + Int16(g[0], g[1]) + Int16(g[2], g[3])
  {
    WordSumAppend(a, g);
    assert g[2..][2..] == [];
  }
}
