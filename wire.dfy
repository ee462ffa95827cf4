/**
 * Wire layout of the common header and footer that frame every packet.
 * The header is the 4-byte start token, the id and the length (both
 * unsigned 16-bit little-endian). The footer's layout belongs to the message
 * catalog, so it is a parameter: its size, the offset of its 2-byte
 * checksum field and the offset and value of its end terminator.
 */
module Wire {
  import opened Bytes

  const HeaderSize: nat := 8

  type Token = s: seq<byte> | |s| == 4 witness [0, 0, 0, 0]

  /** "$GRP": a group packet. */
  const StartGroup: Token := [0x24, 0x47, 0x52, 0x50]
  /** "$MSG": a message packet. */
  const StartMessage: Token := [0x24, 0x4D, 0x53, 0x47]

  /** `length` counts the bytes that follow the header: body, padding and footer. */
  datatype Header = Header(start: Token, id: u16, length: u16)

  function HeaderBytes(h: Header): (b: seq<byte>)
    ensures |b| == HeaderSize && b[..4] == h.start
    ensures DecodeHeader(b) == h
  {
    U16RoundTrip(h.id);
    U16RoundTrip(h.length);
    h.start + U16Bytes(h.id) + U16Bytes(h.length)
  }

  /** Reads the header fields back: each field re-encodes to the bytes it was read from. */
  function DecodeHeader(b: seq<byte>): (h: Header)
    requires |b| == HeaderSize
    ensures h.start == b[..4] && U16Bytes(h.id) == b[4..6] && U16Bytes(h.length) == b[6..8]
  {
    U16BytesOfValue(b[4], b[5]);
    U16BytesOfValue(b[6], b[7]);
    Header(b[..4], U16Value(b[4], b[5]), U16Value(b[6], b[7]))
  }

  /** Decoding is injective: a decoded header re-encodes to the very bytes it came from. */
  lemma HeaderBytesOfDecode(b: seq<byte>)
    requires |b| == HeaderSize
    ensures HeaderBytes(DecodeHeader(b)) == b
  {
    U16BytesOfValue(b[4], b[5]);
    U16BytesOfValue(b[6], b[7]);
    assert b == b[..4] + [b[4], b[5]] + [b[6], b[7]];
  }

  /**
   * Footer layout: `size` bytes, the checksum field at `checksumAt`, the
   * terminator `endMark` at `endAt`; every other footer byte is zero.
   */
  datatype FooterLayout = FooterLayout(size: nat, checksumAt: nat, endAt: nat, endMark: seq<byte>) {
    /** What the checksum law needs: a footer of whole groups, an aligned checksum word, fields that fit and do not overlap. */
    predicate Valid() {
      && size % 4 == 0
      && checksumAt % 2 == 0
      && checksumAt + 2 <= size
      && endAt + |endMark| <= size
      && (endAt + |endMark| <= checksumAt || checksumAt + 2 <= endAt)
    }
  }

  datatype Footer = Footer(end: seq<byte>, checksum: u16)

  function Zeros(n: nat): (z: seq<byte>)
    ensures |z| == n
  {
    seq(n, _ => 0)
  }

  /** The footer bytes in front of the checksum word: zeros, and the terminator if it comes first. */
  function FooterBefore(layout: FooterLayout): (b: seq<byte>)
    requires layout.Valid()
    ensures |b| == layout.checksumAt
  {
    if layout.endAt + |layout.endMark| <= layout.checksumAt then
      Zeros(layout.endAt) + layout.endMark + Zeros(layout.checksumAt - layout.endAt - |layout.endMark|)
    else
      Zeros(layout.checksumAt)
  }

  /** The footer bytes after the checksum word: zeros, and the terminator if it comes last. */
  function FooterAfter(layout: FooterLayout): (b: seq<byte>)
    requires layout.Valid()
    ensures |b| == layout.size - layout.checksumAt - 2
  {
    if layout.endAt + |layout.endMark| <= layout.checksumAt then
      Zeros(layout.size - layout.checksumAt - 2)
    else
      Zeros(layout.endAt - layout.checksumAt - 2) + layout.endMark + Zeros(layout.size - layout.endAt - |layout.endMark|)
  }

  /** The serialised footer: the terminator at its offset, the checksum at its offset, zeros elsewhere. */
  function FooterBytes(layout: FooterLayout, checksum: u16): (b: seq<byte>)
    requires layout.Valid()
    ensures |b| == layout.size
  {
    FooterBefore(layout) + U16Bytes(checksum) + FooterAfter(layout)
  }

  /** Decoding a serialised footer gives back its terminator and its checksum. */
  lemma FooterRoundTrip(layout: FooterLayout, checksum: u16)
    requires layout.Valid()
    ensures DecodeFooter(layout, FooterBytes(layout, checksum)) == Footer(layout.endMark, checksum)
  {
    var before, after := FooterBefore(layout), FooterAfter(layout);
    var b := FooterBytes(layout, checksum);
    var m, e, off := layout.endMark, layout.endAt, layout.checksumAt + 2;
    U16RoundTrip(checksum);
    assert b[layout.checksumAt] == U16Bytes(checksum)[0] && b[layout.checksumAt + 1] == U16Bytes(checksum)[1];
    assert b[off..] == after;
    if e + |m| <= layout.checksumAt {
      assert b[e..e + |m|] == before[e..e + |m|] == m;
    } else {
      assert b[e..e + |m|] == after[e - off..e - off + |m|] == m;
    }
  }

  /** Reads the terminator field and the checksum field out of footer bytes. */
  function DecodeFooter(layout: FooterLayout, b: seq<byte>): (f: Footer)
    requires layout.Valid() && |b| == layout.size
    ensures |f.end| == |layout.endMark|
    ensures U16Bytes(f.checksum) == b[layout.checksumAt..layout.checksumAt + 2]
  {
    U16BytesOfValue(b[layout.checksumAt], b[layout.checksumAt + 1]);
    Footer(b[layout.endAt..layout.endAt + |layout.endMark|],
           U16Value(b[layout.checksumAt], b[layout.checksumAt + 1]))
  }

  /**
   * Footers that differ only in their checksum agree outside the checksum
   * word: the footer with checksum v is the footer with checksum w with
   * that one word replaced.
   */
  lemma FooterSplice(layout: FooterLayout, w: u16, v: u16)
    requires layout.Valid()
    ensures var other, i := FooterBytes(layout, w), layout.checksumAt;
      other[i..i + 2] == U16Bytes(w) &&
      FooterBytes(layout, v) == other[..i] + U16Bytes(v) + other[i + 2..]
  {
    assert FooterBytes(layout, w) == FooterBefore(layout) + U16Bytes(w) + FooterAfter(layout);
    assert FooterBytes(layout, v) == FooterBefore(layout) + U16Bytes(v) + FooterAfter(layout);
    ConcatParts(FooterBefore(layout), U16Bytes(w), FooterAfter(layout));
  }

  /**
   * FooterSplice lifted to a whole packet: replacing the checksum word of
   * the footer that follows `head` gives the packet with the other footer.
   */
  lemma PacketSplice(layout: FooterLayout, head: seq<byte>, w: u16, v: u16)
    requires layout.Valid()
    ensures var pkt, i := head + FooterBytes(layout, w), |head| + layout.checksumAt;
      && i + 2 <= |pkt|
      && pkt[i..i + 2] == U16Bytes(w)
      && head + FooterBytes(layout, v) == pkt[..i] + U16Bytes(v) + pkt[i + 2..]
  {
    FooterSplice(layout, w, v);
    SpliceAfter(head, FooterBytes(layout, w), FooterBytes(layout, v), layout.checksumAt, U16Bytes(v));
  }

  lemma ConcatParts(a: seq<byte>, w: seq<byte>, c: seq<byte>)
    requires |w| == 2
    ensures (a + w + c)[..|a|] == a && (a + w + c)[|a| + 2..] == c
    ensures (a + w + c)[|a|..|a| + 2] == w
  {
  }
}
