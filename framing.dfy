/**
 * The packet protocol of port.py as functions: what send puts on the wire
 * (Framed) and what recv makes of the bytes waiting on the socket
 * (Receive), with the laws that connect the two.
 */
module Framing {
  import opened Bytes
  import opened Results
  import opened Checksum
  import opened Wire
  import opened Streams

  /** The undocumented group that recv drains without checking (port.py:49-51). */
  const NoisyGroupId: u16 := 20015
  const NoisyGroupSize: nat := 135

  /** Number of zero bytes that pad a body of n bytes to a multiple of four. */
  function PadCount(n: nat): (k: nat)
    ensures k < 4 && (n + k) % 4 == 0
  {
    (-(n as int)) % 4
  }

  /** The body padded with zeros to the next multiple of four. */
  function Padded(body: seq<byte>): (p: seq<byte>)
    ensures |p| % 4 == 0 && |body| <= |p| < |body| + 4
    ensures p[..|body|] == body
    ensures forall k | |body| <= k < |p| :: p[k] == 0
  {
    body + seq(PadCount(|body|), _ => 0)
  }

  /** Padding is to the NEXT multiple of four: no shorter padding reaches one. */
  lemma PaddingIsMinimal(body: seq<byte>, k: nat)
    requires (|body| + k) % 4 == 0
    ensures |Padded(body)| <= |body| + k
  {
    var p, n := |Padded(body)|, |body|;
    var q, r := p / 4, (n + k) / 4;
    assert p == 4 * q && n + k == 4 * r;
    assert 4 * r > 4 * q - 4;
    assert r >= q;
  }

  datatype SendFault = LengthOverflow

  /** The length field send writes: padded body plus footer, i.e. every byte after the header. */
  function LengthFor(layout: FooterLayout, body: seq<byte>): (n: nat)
    ensures |body| + layout.size <= n < |body| + layout.size + 4
    ensures n % 4 == layout.size % 4
  {
    |Padded(body)| + layout.size
  }

  /** The buffer send checksums: header, padded body and a footer whose checksum field is still 0. */
  function Placeholder(layout: FooterLayout, h: Header, body: seq<byte>): (b: seq<byte>)
    requires layout.Valid() && LengthFor(layout, body) < 0x1_0000
    ensures |b| == HeaderSize + LengthFor(layout, body) && |b| % 4 == 0
  {
    AlignedSum(HeaderSize, |Padded(body)|, layout.size);
    HeaderBytes(h.(length := LengthFor(layout, body))) + Padded(body) + FooterBytes(layout, 0)
  }

  /** Writing a footer with a zero checksum after the header and padded body gives the placeholder. */
  lemma PlaceholderWritten(layout: FooterLayout, h: Header, body: seq<byte>)
    requires layout.Valid() && LengthFor(layout, body) < 0x1_0000
    ensures var head := HeaderBytes(h.(length := LengthFor(layout, body))) + Padded(body);
      Overwrite(head, |head|, FooterBytes(layout, 0)) == Placeholder(layout, h, body)
  {
    var head := HeaderBytes(h.(length := LengthFor(layout, body))) + Padded(body);
    OverwriteAtEnd(head, FooterBytes(layout, 0));
  }

  /**
   * Rewriting the placeholder's footer in place with the stored checksum of
   * the placeholder gives the framed packet.
   */
  lemma StampFooter(layout: FooterLayout, h: Header, body: seq<byte>)
    requires layout.Valid() && LengthFor(layout, body) < 0x1_0000
    ensures ChecksumOf(Placeholder(layout, h, body)).Success?
    ensures var head := HeaderBytes(h.(length := LengthFor(layout, body))) + Padded(body);
      var v := StoredChecksum(ChecksumOf(Placeholder(layout, h, body)).value);
      Overwrite(Placeholder(layout, h, body), |head|, FooterBytes(layout, v)) == Framed(layout, h, body).value
  {
    var head := HeaderBytes(h.(length := LengthFor(layout, body))) + Padded(body);
    var v := StoredChecksum(ChecksumOf(Placeholder(layout, h, body)).value);
    assert Placeholder(layout, h, body) == head + FooterBytes(layout, 0);
    OverwriteTail(head + FooterBytes(layout, 0), |head|, FooterBytes(layout, v));
    assert (head + FooterBytes(layout, 0))[..|head|] == head;
  }

  /** An even offset into a run of whole 4-byte groups stays even. */
  lemma EvenOffset(a: nat, b: nat)
    requires a % 4 == 0 && b % 2 == 0
    ensures (a + b) % 2 == 0
  {
    assert a + b == 2 * (a / 4 * 2 + b / 2);
  }

  lemma AlignedSum(a: nat, b: nat, c: nat)
    requires a % 4 == 0 && b % 4 == 0 && c % 4 == 0
    ensures (a + b + c) % 4 == 0
  {
    assert a + b + c == 4 * (a / 4 + b / 4 + c / 4);
  }

  /**
   * The bytes send puts on the wire for header h and serialised body: the
   * placeholder with its footer rewritten to carry StoredChecksum of the
   * placeholder's checksum. Fails when the length does not fit the
   * header's 16-bit field.
   */
  function Framed(layout: FooterLayout, h: Header, body: seq<byte>): (r: Result<seq<byte>, SendFault>)
    requires layout.Valid()
    ensures r.Success? <==> LengthFor(layout, body) < 0x1_0000
    ensures r.Success? ==> |r.value| == HeaderSize + LengthFor(layout, body)
  {
    if LengthFor(layout, body) >= 0x1_0000 then Failure(LengthOverflow)
    else
      var sum := ChecksumOf(Placeholder(layout, h, body)).value;
      Success(HeaderBytes(h.(length := LengthFor(layout, body))) + Padded(body) + FooterBytes(layout, StoredChecksum(sum)))
  }

  /**
   * The layout of a framed packet of n bytes: a multiple of four bytes;
   * the header carries length n - 8, the bytes after the header up to the
   * footer are the padded body, the footer ends in the terminator, and
   * everything before the footer is as in the placeholder.
   */
  lemma FramedLayout(layout: FooterLayout, h: Header, body: seq<byte>)
    requires layout.Valid() && Framed(layout, h, body).Success?
    ensures var pkt, n := Framed(layout, h, body).value, |Framed(layout, h, body).value|;
      && n % 4 == 0
      && pkt[..HeaderSize] == HeaderBytes(h.(length := n - HeaderSize))
      && pkt[HeaderSize..n - layout.size] == Padded(body)
      && FooterOk(layout, pkt[HeaderSize..])
      && pkt[..n - layout.size] == Placeholder(layout, h, body)[..n - layout.size]
  {
    var pkt := Framed(layout, h, body).value;
    var head := HeaderBytes(h.(length := LengthFor(layout, body))) + Padded(body);
    var v := StoredChecksum(ChecksumOf(Placeholder(layout, h, body)).value);
    assert |Placeholder(layout, h, body)| == |pkt|;
    assert pkt == head + FooterBytes(layout, v);
    assert Placeholder(layout, h, body) == head + FooterBytes(layout, 0);
    HeadParts(head, FooterBytes(layout, v), HeaderSize);
    HeadParts(head, FooterBytes(layout, 0), HeaderSize);
    HeadParts(HeaderBytes(h.(length := LengthFor(layout, body))), Padded(body), HeaderSize);
    FooterRoundTrip(layout, v);
  }

  /** The packet send emits checksums to 0, which is what recv demands of it. */
  lemma FramedChecksumIsZero(layout: FooterLayout, h: Header, body: seq<byte>)
    requires layout.Valid() && Framed(layout, h, body).Success?
    ensures ChecksumOf(Framed(layout, h, body).value) == Success(0)
  {
    var head := HeaderBytes(h.(length := LengthFor(layout, body))) + Padded(body);
    assert Placeholder(layout, h, body) == head + FooterBytes(layout, 0);
    assert |head| % 4 == 0 by {
      AlignedSum(HeaderSize, |Padded(body)|, 0);
    }
    FooterChecksumZeroes(layout, head);
  }

  /**
   * The checksum law behind send: for any head of whole 4-byte groups,
   * writing StoredChecksum of (head + footer with checksum 0) into the
   * footer makes head + footer checksum to 0.
   */
  lemma FooterChecksumZeroes(layout: FooterLayout, head: seq<byte>)
    requires layout.Valid() && |head| % 4 == 0
    ensures
      && ChecksumOf(head + FooterBytes(layout, 0)).Success?
      && ChecksumOf(head + FooterBytes(layout, StoredChecksum(ChecksumOf(head + FooterBytes(layout, 0)).value))) == Success(0)
  {
    var place := head + FooterBytes(layout, 0);
    AlignedSum(|head|, layout.size, 0);
    var v := StoredChecksum(ChecksumOf(place).value);
    var i := |head| + layout.checksumAt;
    PacketSplice(layout, head, 0, v);
    assert place[i] == 0 && place[i + 1] == 0 by {
      assert place[i..i + 2] == U16Bytes(0);
    }
    EvenOffset(|head|, layout.checksumAt);
    ZeroSumLaw(place, i);
  }

  /** What recv returns when it does not fail: a packet, or nothing (timeout or the drained noisy group). */
  datatype Received = Packet(start: Token, id: u16, data: seq<byte>) | NoPacket

  /** The failures of recv, one per raise (or unchecked short read) in the source. */
  datatype RecvFault =
    | ShortHeader     // fewer than HeaderSize bytes arrived for the header
    | BadHeader       // start token other than "$GRP" or "$MSG"
    | Timeout         // a read after the header timed out
    | ShortFooter     // the bytes after the header cannot hold a footer
    | BadFooter       // wrong terminator in the footer
    | ChecksumLength  // header and rest are not a whole number of 4-byte groups
    | BadChecksum     // header and rest do not checksum to 0

  /**
   * One recv call: its outcome, how many bytes it took off the socket, and
   * the header and footer it decoded into the port's fields (None where it
   * did not get that far).
   */
  datatype Step = Step(outcome: Result<Received, RecvFault>, consumed: nat, header: Option<Header>, footer: Option<Footer>)

  /** True for the two start tokens recv accepts. */
  predicate IsStart(t: Token)
    ensures IsStart(t) ==> t[0] == 0x24
  {
    t == StartGroup || t == StartMessage
  }

  /** What recv does with the bytes that have arrived on the socket and not been read. */
  function Receive(layout: FooterLayout, pending: seq<byte>): (s: Step)
    requires layout.Valid()
    ensures s.consumed <= |pending|
    ensures s.outcome == Success(NoPacket) && s.consumed == 0 <==> pending == []
  {
    match ReadOf(pending, HeaderSize)
    case TimedOut => Step(Success(NoPacket), 0, None, None)
    case Data(headerStr) =>
      if |headerStr| < HeaderSize then Step(Failure(ShortHeader), |headerStr|, None, None)
      else
        var h := DecodeHeader(headerStr);
        var more := pending[HeaderSize..];
        if !IsStart(h.start) then Step(Failure(BadHeader), HeaderSize, Some(h), None)
        else if h.start == StartGroup && h.id == NoisyGroupId then
          match ReadOf(more, NoisyGroupSize)
          case TimedOut => Step(Failure(Timeout), HeaderSize, Some(h), None)
          case Data(skipped) => Step(Success(NoPacket), HeaderSize + |skipped|, Some(h), None)
        else
          match ReadOf(more, h.length)
          case TimedOut => Step(Failure(Timeout), HeaderSize, Some(h), None)
          case Data(rest) => ReceivePacket(layout, headerStr, rest)
  }

  /**
   * The bytes after the header end in a footer with the right terminator:
   * the terminator sits at its footer offset within the last `size` bytes.
   */
  predicate FooterOk(layout: FooterLayout, rest: seq<byte>)
    requires layout.Valid()
    ensures FooterOk(layout, rest) <==>
      (layout.size <= |rest| &&
       var at := |rest| - layout.size + layout.endAt;
       rest[at..at + |layout.endMark|] == layout.endMark)
  {
    layout.size <= |rest| &&
    var at := |rest| - layout.size + layout.endAt;
    assert rest[|rest| - layout.size..][layout.endAt..layout.endAt + |layout.endMark|] == rest[at..at + |layout.endMark|];
    DecodeFooter(layout, rest[|rest| - layout.size..]).end == layout.endMark
  }

  /**
   * The last stage of recv, once the header and the `length` bytes after
   * it have been read: footer terminator, then checksum of header and rest.
   */
  function ReceivePacket(layout: FooterLayout, headerStr: seq<byte>, rest: seq<byte>): (s: Step)
    requires layout.Valid() && |headerStr| == HeaderSize
    ensures s.consumed == HeaderSize + |rest| && s.header == Some(DecodeHeader(headerStr))
    ensures s.outcome.Success? <==> FooterOk(layout, rest) && ChecksumOf(headerStr + rest) == Success(0)
    ensures s.outcome.Success? ==>
      s.outcome.value == Packet(DecodeHeader(headerStr).start, DecodeHeader(headerStr).id, rest)
    ensures |rest| < layout.size ==> s.outcome == Failure(ShortFooter) && s.footer == None
    ensures layout.size <= |rest| ==> s.footer == Some(DecodeFooter(layout, rest[|rest| - layout.size..]))
    ensures layout.size <= |rest| && !FooterOk(layout, rest) ==> s.outcome == Failure(BadFooter)
    ensures FooterOk(layout, rest) && ChecksumOf(headerStr + rest).Failure? ==> s.outcome == Failure(ChecksumLength)
    ensures FooterOk(layout, rest) && ChecksumOf(headerStr + rest).Success? && ChecksumOf(headerStr + rest).value != 0
      ==> s.outcome == Failure(BadChecksum)
  {
    var h := DecodeHeader(headerStr);
    var used := HeaderSize + |rest|;
    if |rest| < layout.size then Step(Failure(ShortFooter), used, Some(h), None)
    else
      var f := DecodeFooter(layout, rest[|rest| - layout.size..]);
      if f.end != layout.endMark then Step(Failure(BadFooter), used, Some(h), Some(f))
      else if ChecksumOf(headerStr + rest).Failure? then Step(Failure(ChecksumLength), used, Some(h), Some(f))
      else if ChecksumOf(headerStr + rest).value != 0 then Step(Failure(BadChecksum), used, Some(h), Some(f))
      else Step(Success(Packet(h.start, h.id, rest)), used, Some(h), Some(f))
  }

  /**
   * Round trip: whatever follows on the stream, recv applied to the bytes
   * send emitted takes exactly those bytes and returns the packet's start
   * token and id with the padded body and footer, unless the packet is the
   * noisy group recv drains.
   */
  lemma RoundTrip(layout: FooterLayout, h: Header, body: seq<byte>, later: seq<byte>)
    requires layout.Valid() && Framed(layout, h, body).Success?
    requires IsStart(h.start) && !(h.start == StartGroup && h.id == NoisyGroupId)
    ensures var pkt := Framed(layout, h, body).value;
      var step := Receive(layout, pkt + later);
      && step.consumed == |pkt|
      && step.outcome == Success(Packet(h.start, h.id, pkt[HeaderSize..]))
  {
    var pkt := Framed(layout, h, body).value;
    FramedLayout(layout, h, body);
    FramedChecksumIsZero(layout, h, body);
    assert DecodeHeader(pkt[..HeaderSize]) == h.(length := |pkt| - HeaderSize);
    ReceiveWhole(layout, pkt, later);
  }

  /**
   * A complete packet whose header's length covers exactly its bytes, with
   * a valid start token, not the noisy group, a good footer and a zero
   * checksum, is received whole whatever follows it on the stream.
   */
  lemma ReceiveWhole(layout: FooterLayout, pkt: seq<byte>, later: seq<byte>)
    requires layout.Valid() && HeaderSize <= |pkt|
    requires var h := DecodeHeader(pkt[..HeaderSize]);
      && IsStart(h.start) && !(h.start == StartGroup && h.id == NoisyGroupId)
      && h.length == |pkt| - HeaderSize
    requires FooterOk(layout, pkt[HeaderSize..]) && ChecksumOf(pkt) == Success(0)
    ensures var h, step := DecodeHeader(pkt[..HeaderSize]), Receive(layout, pkt + later);
      && step.consumed == |pkt|
      && step.outcome == Success(Packet(h.start, h.id, pkt[HeaderSize..]))
  {
    var pending := pkt + later;
    var n := |pkt|;
    assert pending[..HeaderSize] == pkt[..HeaderSize];
    assert pending[..n] == pkt;
    assert pending[HeaderSize..n] == pkt[HeaderSize..];
    ReceiveAccepts(layout, pending);
  }

  /**
   * The converse of ReceiveTakesLength: when the whole packet has arrived,
   * its start token is valid, it is not the noisy group, its footer has the
   * right terminator and it checksums to 0, recv returns it.
   */
  lemma ReceiveAccepts(layout: FooterLayout, pending: seq<byte>)
    requires layout.Valid() && |pending| >= HeaderSize
    requires var h := DecodeHeader(pending[..HeaderSize]);
      && IsStart(h.start) && !(h.start == StartGroup && h.id == NoisyGroupId)
      && HeaderSize + h.length <= |pending|
      && FooterOk(layout, pending[HeaderSize..HeaderSize + h.length])
      && ChecksumOf(pending[..HeaderSize + h.length]) == Success(0)
    ensures var h, step := DecodeHeader(pending[..HeaderSize]), Receive(layout, pending);
      && step.outcome == Success(Packet(h.start, h.id, pending[HeaderSize..HeaderSize + h.length]))
      && step.consumed == HeaderSize + h.length
  {
    var n := HeaderSize + DecodeHeader(pending[..HeaderSize]).length;
    ReceiveReachesPacket(layout, pending);
    assert pending[..HeaderSize] + pending[HeaderSize..n] == pending[..n];
  }

  /**
   * What recv hands back for a packet send emitted is the padded body
   * followed by the footer, which carries the terminator and the stored
   * checksum of the placeholder.
   */
  lemma FramedRest(layout: FooterLayout, h: Header, body: seq<byte>)
    requires layout.Valid() && Framed(layout, h, body).Success?
    ensures var pkt, n := Framed(layout, h, body).value, |Framed(layout, h, body).value|;
      && pkt[HeaderSize..] == Padded(body) + pkt[n - layout.size..]
      && DecodeFooter(layout, pkt[n - layout.size..])
           == Footer(layout.endMark, StoredChecksum(ChecksumOf(Placeholder(layout, h, body)).value))
  {
    var v := StoredChecksum(ChecksumOf(Placeholder(layout, h, body)).value);
    ThreeParts(HeaderBytes(h.(length := LengthFor(layout, body))), Padded(body), FooterBytes(layout, v));
    FooterRoundTrip(layout, v);
  }

  /** A timeout on the header read is "no packet" and takes nothing off the socket. */
  lemma TimeoutIsNoPacket(layout: FooterLayout)
    requires layout.Valid()
    ensures Receive(layout, []) == Step(Success(NoPacket), 0, None, None)
  {
  }

  /**
   * A read after a valid header that times out is not caught by recv: when
   * nothing follows the header, recv fails with Timeout, whatever the
   * length field says, having taken only the header off the socket.
   */
  lemma LaterReadTimesOut(layout: FooterLayout, pending: seq<byte>)
    requires layout.Valid() && |pending| == HeaderSize
    requires IsStart(DecodeHeader(pending).start)
    ensures Receive(layout, pending).outcome == Failure(Timeout)
    ensures Receive(layout, pending).consumed == HeaderSize
  {
    assert pending[..HeaderSize] == pending;
    assert pending[HeaderSize..] == [];
  }

  /** A header whose start token is not "$GRP" or "$MSG" is rejected after reading only the header. */
  lemma BadStartRejected(layout: FooterLayout, pending: seq<byte>)
    requires layout.Valid() && |pending| >= HeaderSize
    requires !IsStart(DecodeHeader(pending[..HeaderSize]).start)
    ensures Receive(layout, pending).outcome == Failure(BadHeader)
    ensures Receive(layout, pending).consumed == HeaderSize
  {
  }

  /** The converse: a "$GRP" or "$MSG" header passes the sanity check, whatever follows it. */
  lemma GoodStartPasses(layout: FooterLayout, pending: seq<byte>)
    requires layout.Valid() && |pending| >= HeaderSize
    requires IsStart(DecodeHeader(pending[..HeaderSize]).start)
    ensures Receive(layout, pending).outcome != Failure(BadHeader)
  {
    var headerStr := pending[..HeaderSize];
    assert ReadOf(pending, HeaderSize) == Data(headerStr);
  }

  /** The noisy group ("$GRP", 20015) is drained: 135 more bytes are read and dropped, with no footer or checksum check. */
  lemma NoisyGroupDrained(layout: FooterLayout, pending: seq<byte>)
    requires layout.Valid() && |pending| >= HeaderSize + NoisyGroupSize
    requires DecodeHeader(pending[..HeaderSize]).start == StartGroup
    requires DecodeHeader(pending[..HeaderSize]).id == NoisyGroupId
    ensures Receive(layout, pending).outcome == Success(NoPacket)
    ensures Receive(layout, pending).consumed == HeaderSize + NoisyGroupSize
  {
  }

  /**
   * Any other header with a valid start token makes recv take exactly
   * `length` more bytes when they have arrived, and a packet it returns is
   * exactly those bytes, ends in the right terminator and, with the header,
   * checksums to 0.
   */
  lemma ReceiveTakesLength(layout: FooterLayout, pending: seq<byte>)
    requires layout.Valid() && |pending| >= HeaderSize
    requires var h := DecodeHeader(pending[..HeaderSize]);
      IsStart(h.start) && !(h.start == StartGroup && h.id == NoisyGroupId) &&
      |pending| >= HeaderSize + h.length
    ensures var h, step := DecodeHeader(pending[..HeaderSize]), Receive(layout, pending);
      && step.consumed == HeaderSize + h.length
      && (step.outcome.Success? ==>
            && step.outcome.value == Packet(h.start, h.id, pending[HeaderSize..HeaderSize + h.length])
            && FooterOk(layout, pending[HeaderSize..HeaderSize + h.length])
            && ChecksumOf(pending[..HeaderSize + h.length]) == Success(0))
  {
    var headerStr := pending[..HeaderSize];
    var n := HeaderSize + DecodeHeader(headerStr).length;
    var rest := pending[HeaderSize..n];
    ReceiveReachesPacket(layout, pending);
    assert headerStr + rest == pending[..n];
  }

  /**
   * Once a valid header other than the noisy group's has been read and
   * the `length` bytes after it have arrived, recv's outcome is decided
   * by its last stage on exactly those bytes. The one exception is a
   * length of 0 with nothing after the header: the read of 0 bytes still
   * waits for data, and times out.
   */
  lemma ReceiveReachesPacket(layout: FooterLayout, pending: seq<byte>)
    requires layout.Valid() && |pending| >= HeaderSize
    requires var h := DecodeHeader(pending[..HeaderSize]);
      IsStart(h.start) && !(h.start == StartGroup && h.id == NoisyGroupId) &&
      |pending| >= HeaderSize + h.length
    ensures |pending| == HeaderSize ==>
      Receive(layout, pending) == Step(Failure(Timeout), HeaderSize, Some(DecodeHeader(pending[..HeaderSize])), None)
    ensures var n := HeaderSize + DecodeHeader(pending[..HeaderSize]).length;
      |pending| > HeaderSize ==>
      Receive(layout, pending) == ReceivePacket(layout, pending[..HeaderSize], pending[HeaderSize..n])
  {
    var headerStr := pending[..HeaderSize];
    var rest := pending[HeaderSize..HeaderSize + DecodeHeader(headerStr).length];
    assert ReadOf(pending, HeaderSize) == Data(headerStr);
    if |pending| > HeaderSize {
      assert ReadOf(pending[HeaderSize..], DecodeHeader(headerStr).length) == Data(rest);
    }
  }

  /**
   * A packet send emitted that has had any one of its body or footer bytes
   * changed in transit is never returned by recv as a packet.
   */
  lemma CorruptionDetected(layout: FooterLayout, h: Header, body: seq<byte>, i: nat, b: byte, later: seq<byte>)
    requires layout.Valid() && Framed(layout, h, body).Success?
    requires IsStart(h.start) && !(h.start == StartGroup && h.id == NoisyGroupId)
    requires HeaderSize <= i < |Framed(layout, h, body).value| && b != Framed(layout, h, body).value[i]
    ensures !Receive(layout, Framed(layout, h, body).value[i := b] + later).outcome.Success?
  {
    var pkt := Framed(layout, h, body).value;
    FramedLayout(layout, h, body);
    FramedChecksumIsZero(layout, h, body);
    assert DecodeHeader(pkt[..HeaderSize]) == h.(length := |pkt| - HeaderSize);
    CorruptedRejected(layout, pkt, i, b, later);
  }

  /**
   * Changing one byte after the header of a packet that checksums to 0,
   * whose header has a valid start token, is not the noisy group and has a
   * length covering exactly the packet's bytes, makes recv reject it.
   */
  lemma CorruptedRejected(layout: FooterLayout, pkt: seq<byte>, i: nat, b: byte, later: seq<byte>)
    requires layout.Valid() && HeaderSize <= i < |pkt| && b != pkt[i]
    requires var h := DecodeHeader(pkt[..HeaderSize]);
      && IsStart(h.start) && !(h.start == StartGroup && h.id == NoisyGroupId)
      && h.length == |pkt| - HeaderSize
    requires ChecksumOf(pkt) == Success(0)
    ensures !Receive(layout, pkt[i := b] + later).outcome.Success?
  {
    var bad := pkt[i := b];
    var pending := bad + later;
    assert pending[..HeaderSize] == pkt[..HeaderSize];
    SingleByteChangeDetected(pkt, i, b);
    ReceiveTakesLength(layout, pending);
    assert pending[..|pkt|] == bad;
  }

  /**
   * The id word enters the placeholder's checksum as the id modulo 65536:
   * the checksum with id i is the checksum with id 0 plus i, modulo 65536.
   */
  lemma IdShiftsChecksum(layout: FooterLayout, h: Header, body: seq<byte>)
    requires layout.Valid() && LengthFor(layout, body) < 0x1_0000
    ensures ChecksumOf(Placeholder(layout, h, body)).value
      == AddU16(ChecksumOf(Placeholder(layout, h.(id := 0), body)).value, h.id)
  {
    var tail := U16Bytes(LengthFor(layout, body)) + Padded(body) + FooterBytes(layout, 0);
    assert ChecksumOf(Placeholder(layout, h, body)) == ChecksumOf(h.start + U16Bytes(h.id) + tail) by {
      PlaceholderWords(layout, h, body);
    }
    IdWordShift(h.start, h.id, tail);
    assert ChecksumOf(Placeholder(layout, h.(id := 0), body)) == ChecksumOf(h.start + U16Bytes(0) + tail) by {
      PlaceholderWords(layout, h.(id := 0), body);
    }
  }

  /** The placeholder's checksum, read as start token, id word, and everything after the id word. */
  lemma PlaceholderWords(layout: FooterLayout, h: Header, body: seq<byte>)
    requires layout.Valid() && LengthFor(layout, body) < 0x1_0000
    ensures var tail := U16Bytes(LengthFor(layout, body)) + Padded(body) + FooterBytes(layout, 0);
      ChecksumOf(Placeholder(layout, h, body)) == ChecksumOf(h.start + U16Bytes(h.id) + tail)
  {
    var n := LengthFor(layout, body);
    assert HeaderBytes(h.(length := n)) == h.start + U16Bytes(h.id) + U16Bytes(n);
    Regroup(h.start, U16Bytes(h.id), U16Bytes(n), Padded(body), FooterBytes(layout, 0));
  }

  /**
   * port.py:91 stores 65536 - checksum, which leaves the 16-bit field when
   * the placeholder already checksums to 0. For every footer layout, start
   * token and body that fit, that happens exactly when the id is the
   * additive inverse modulo 65536 of the placeholder's checksum with id 0;
   * by InverseUnique there is exactly one such id, StoredChecksum of that
   * checksum. StoredChecksum writes 0 in that case.
   */
  lemma AsWrittenChecksumOverflows(layout: FooterLayout, h: Header, body: seq<byte>)
    requires layout.Valid() && LengthFor(layout, body) < 0x1_0000
    ensures var c0 := ChecksumOf(Placeholder(layout, h.(id := 0), body)).value;
      var c := ChecksumOf(Placeholder(layout, h, body)).value;
      && (StoredChecksumAsWritten(c) == 0x1_0000 <==> AddU16(c0, h.id) == 0)
      && (StoredChecksumAsWritten(c) == 0x1_0000 ==> StoredChecksum(c) == 0)
  {
    IdShiftsChecksum(layout, h, body);
    AsWrittenOverflowsIff(ChecksumOf(Placeholder(layout, h, body)).value);
  }
}
