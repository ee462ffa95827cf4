/**
 * The Port class of port.py: receives and sends Applanix-framed packets on
 * its socket. The threading machinery it inherits is not modelled.
 */
module Ports {
  import opened Bytes
  import opened Results
  import opened Checksum
  import opened Wire
  import opened Streams
  import opened Framing

  class Port {
    const sock: Socket
    /** Wire layout of the catalog's common footer. */
    const layout: FooterLayout
    /** The last header and footer recv decoded (only recv uses them). */
    var header: Header
    var footer: Footer

    predicate Valid()
      reads this, sock
    {
      layout.Valid() && sock.Valid()
    }

    constructor (sock: Socket, layout: FooterLayout)
      requires layout.Valid() && sock.Valid()
      ensures Valid() && this.sock == sock && this.layout == layout
      ensures header == Header([0, 0, 0, 0], 0, 0) && footer == Footer([], 0)
    {
      this.sock, this.layout := sock, layout;
      header, footer := Header([0, 0, 0, 0], 0, 0), Footer([], 0);
    }

    /**
     * _checksum: sums the buffer from its cursor on, four bytes at a time,
     * each group read as two signed 16-bit halves; fails on a trailing
     * group shorter than four bytes. It leaves the cursor at the end.
     */
    static method Checksum(buff: ByteIO) returns (r: Result<u16, ChecksumFault>)
      requires buff.Valid()
      modifies buff
      ensures buff.Valid() && buff.data == old(buff.data) && buff.pos == |buff.data|
      ensures r == ChecksumOf(old(buff.data[buff.pos..]))
    {
      ghost var d, start, groups := buff.data, buff.pos, 0;
      var checksum := 0;
      while true
        invariant buff.Valid() && buff.data == d
        invariant buff.pos == start + 4 * groups
        invariant checksum == WordSum(d[start..buff.pos])
        decreases |d| - buff.pos
      {
        ghost var before := buff.pos;
        var data := buff.Read(4);
        if |data| == 0 {
          break;
        }
        if |data| < 4 {
          ShortGroupFails(d, start, before);
          return Failure(NotMultipleOfFour);
        }
        GroupStep(d, start, before);
        checksum := checksum + Int16(data[0], data[1]) + Int16(data[2], data[3]);
        groups := groups + 1;
      }
      assert d[start..buff.pos] == d[start..];
      return Success(checksum % 0x1_0000);
    }
  
    /**
     * recv: reads one packet from the socket. Its outcome, the bytes it
     * takes off the socket and the header and footer it leaves in the
     * port's fields are those Framing.Receive gives for the bytes pending
     * on the socket.
     */
    method Recv() returns (r: Result<Received, RecvFault>)
      requires Valid()
      modifies this`header, this`footer, sock`cursor
      ensures Valid() && sock.input == old(sock.input)
      ensures var step := Receive(layout, old(sock.Pending()));
        && r == step.outcome
        && sock.cursor == old(sock.cursor) + step.consumed
        && header == step.header.GetOr(old(header))
        && footer == step.footer.GetOr(old(footer))
    {
      ghost var pending := sock.Pending();
      var got := sock.Recv(HeaderSize);
      if got.TimedOut? {
        assert Receive(layout, pending) == Step(Success(NoPacket), 0, None, None);
        return Success(NoPacket);
      }
      var headerStr := got.bytes;
      if |headerStr| < HeaderSize {
        assert Receive(layout, pending) == Step(Failure(ShortHeader), |headerStr|, None, None);
        return Failure(ShortHeader);
      }
      header := DecodeHeader(headerStr);
      var start, id := header.start, header.id;
      if !IsStart(start) {
        assert Receive(layout, pending) == Step(Failure(BadHeader), HeaderSize, Some(header), None);
        return Failure(BadHeader);
      }
      ghost var more := pending[HeaderSize..];
      assert sock.Pending() == more;
      if start == StartGroup && id == NoisyGroupId {
        var skipped := sock.Recv(NoisyGroupSize);
        if skipped.TimedOut? {
          assert Receive(layout, pending) == Step(Failure(Timeout), HeaderSize, Some(header), None);
          return Failure(Timeout);
        }
        assert Receive(layout, pending) == Step(Success(NoPacket), HeaderSize + |skipped.bytes|, Some(header), None);
        return Success(NoPacket);
      }
      var got2 := sock.Recv(header.length);
      if got2.TimedOut? {
        assert Receive(layout, pending) == Step(Failure(Timeout), HeaderSize, Some(header), None);
        return Failure(Timeout);
      }
      var pktStr := got2.bytes;
      assert Receive(layout, pending) == ReceivePacket(layout, headerStr, pktStr);
      r := CheckPacket(headerStr, pktStr);
    }

    /**
     * The last part of recv, once the header and the bytes after it have
     * been read: decodes the footer into the port's field and checks its
     * terminator, then checksums header and rest.
     */
    method CheckPacket(headerStr: seq<byte>, pktStr: seq<byte>) returns (r: Result<Received, RecvFault>)
      requires Valid() && |headerStr| == HeaderSize
      modifies this`footer
      ensures var step := ReceivePacket(layout, headerStr, pktStr);
        r == step.outcome && footer == step.footer.GetOr(old(footer))
    {
      var start, id := DecodeHeader(headerStr).start, DecodeHeader(headerStr).id;
      if |pktStr| < layout.size {
        return Failure(ShortFooter);
      }
      footer := DecodeFooter(layout, pktStr[|pktStr| - layout.size..]);
      if footer.end != layout.endMark {
        return Failure(BadFooter);
      }
      var buff := new ByteIO.FromBytes(headerStr + pktStr);
      var sum := Checksum(buff);
      assert sum == ChecksumOf(headerStr + pktStr);
      if sum.Failure? {
        return Failure(ChecksumLength);
      }
      if sum.value != 0 {
        return Failure(BadChecksum);
      }
      return Success(Packet(start, id, pktStr));
    }

    /**
     * send: frames the serialised body and writes the packet to the socket
     * in one call. Returns the header with its length field set. Fails,
     * sending nothing, when the length does not fit the header.
     */
    method Send(h: Header, body: seq<byte>) returns (r: Result<Header, SendFault>)
      requires Valid()
      modifies sock`sent
      ensures Valid()
      ensures r.Success? <==> Framed(layout, h, body).Success?
      ensures r.Success? ==> r.value == h.(length := LengthFor(layout, body))
      ensures r.Success? ==> sock.sent == old(sock.sent) + [Framed(layout, h, body).value]
      ensures r.Failure? ==> sock.sent == old(sock.sent)
    {
      var packed := Pack(h, body);
      if packed.Failure? {
        return Failure(packed.error);
      }
      var (sent, wire) := packed.value;
      sock.Send(wire);
      return Success(sent);
    }

    /** The body copied into a fresh buffer and padded with zero bytes to a whole number of 4-byte groups. */
    static method PadMessage(body: seq<byte>) returns (padded: seq<byte>)
      ensures padded == Padded(body)
    {
      var msgBuff := new ByteIO();
      msgBuff.Write(body);
      var padCount := PadCount(msgBuff.Tell());
      msgBuff.Write(seq(padCount, _ => 0));
      OverwriteAtEnd([], body);
      OverwriteAtEnd(body, seq(padCount, _ => 0));
      padded := msgBuff.GetValue();
    }

    /**
     * The buffer work of send: pads the body, sets the header's length,
     * writes header, body and a footer with a zero checksum to one buffer,
     * checksums it, and rewrites the footer in place with the stored
     * checksum. Returns the header as sent and the packet bytes.
     */
    method Pack(h: Header, body: seq<byte>) returns (r: Result<(Header, seq<byte>), SendFault>)
      requires layout.Valid()
      ensures r.Success? <==> Framed(layout, h, body).Success?
      ensures r.Success? ==> r.value == (h.(length := LengthFor(layout, body)), Framed(layout, h, body).value)
    {
      var padded := PadMessage(body);
      var length := |padded| + layout.size;
      assert length == LengthFor(layout, body);
      var buff := new ByteIO();
      if length >= 0x1_0000 {
        return Failure(LengthOverflow);
      }
      var sent := h.(length := length);
      ghost var head := HeaderBytes(sent) + Padded(body);
      buff.Write(HeaderBytes(sent));
      buff.Write(padded);
      assert buff.data == head by {
        OverwriteAtEnd([], HeaderBytes(sent));
        OverwriteAtEnd(HeaderBytes(sent), Padded(body));
      }

      var footerStart := buff.Tell();
      assert footerStart == |head|;
      buff.Write(FooterBytes(layout, 0));
      PlaceholderWritten(layout, h, body);
      assert buff.data == Placeholder(layout, h, body);

      StampFooter(layout, h, body);
      buff.Seek(0);
      assert buff.data[0..] == buff.data;
      var sum := Checksum(buff);
      assert sum == ChecksumOf(Placeholder(layout, h, body));
      var stored := StoredChecksum(sum.value);

      buff.Seek(footerStart);
      buff.Write(FooterBytes(layout, stored));
      assert buff.data == Framed(layout, h, body).value;
      return Success((sent, buff.GetValue()));
    }
  }
}
