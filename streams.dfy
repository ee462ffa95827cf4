/**
 * The two byte streams the framing layer works with: an in-memory file
 * with a cursor (Python's StringIO, used to assemble and checksum packets)
 * and the TCP socket the packets travel on.
 */
module Streams {
  import opened Bytes

  function Min(a: nat, b: nat): nat {
    if a <= b then a else b
  }

  /**
   * The contents of an in-memory file after writing s at position p: the
   * bytes before p are kept, s replaces what was at [p, p + |s|), and
   * anything beyond that is kept.
   */
  function Overwrite(d: seq<byte>, p: nat, s: seq<byte>): seq<byte>
    requires p <= |d|
  {
    d[..p] + s + (if p + |s| <= |d| then d[p + |s|..] else [])
  }

  /** What a write leaves in the file: its new length, the kept prefix, the written bytes, the kept tail. */
  lemma OverwriteSpec(d: seq<byte>, p: nat, s: seq<byte>)
    requires p <= |d|
    ensures var r := Overwrite(d, p, s);
      && |r| == (if p + |s| <= |d| then |d| else p + |s|)
      && r[..p] == d[..p] && r[p..p + |s|] == s
      && (p + |s| <= |d| ==> r[p + |s|..] == d[p + |s|..])
  {
    var r := Overwrite(d, p, s);
    assert r[..p] == d[..p];
    assert r[p..p + |s|] == s;
  }

  /** Writing at the end of the file appends. */
  lemma OverwriteAtEnd(d: seq<byte>, s: seq<byte>)
    ensures Overwrite(d, |d|, s) == d + s
  {
  }

  /** Rewriting the tail of a file in place with bytes of the same length. */
  lemma OverwriteTail(d: seq<byte>, p: nat, s: seq<byte>)
    requires p + |s| == |d|
    ensures Overwrite(d, p, s) == d[..p] + s
  {
  }

  /** An in-memory file: its contents and the position of its cursor. */
  class ByteIO {
    var data: seq<byte>
    var pos: nat

    predicate Valid()
      reads this
    {
      pos <= |data|
    }

    /** An empty file. */
    constructor ()
      ensures Valid() && data == [] && pos == 0
    {
      data, pos := [], 0;
    }

    /** A file holding s, positioned at its start. */
    constructor FromBytes(s: seq<byte>)
      ensures Valid() && data == s && pos == 0
    {
      data, pos := s, 0;
    }

    function Tell(): nat
      reads this
    {
      pos
    }

    function GetValue(): seq<byte>
      reads this
    {
      data
    }

    method Seek(p: nat)
      requires Valid() && p <= |data|
      modifies this`pos
      ensures Valid() && pos == p
    {
      pos := p;
    }

    /** Writes s at the cursor, overwriting and extending, and moves the cursor past it. */
    method Write(s: seq<byte>)
      requires Valid()
      modifies this
      ensures Valid()
      ensures data == Overwrite(old(data), old(pos), s) && pos == old(pos) + |s|
    {
      data := Overwrite(data, pos, s);
      pos := pos + |s|;
    }

    /** Reads up to n bytes at the cursor; fewer only when the end of the file is reached. */
    method Read(n: nat) returns (r: seq<byte>)
      requires Valid()
      modifies this`pos
      ensures Valid()
      ensures r == data[old(pos)..Min(old(pos) + n, |data|)] && pos == old(pos) + |r|
    {
      r := data[pos..Min(pos + n, |data|)];
      pos := pos + |r|;
    }
  }

  /** What one recv call on the socket gives. */
  datatype ReadResult = Data(bytes: seq<byte>) | TimedOut

  /**
   * recv(n) on a socket with a timeout, given the bytes that have arrived
   * and not yet been read: the socket waits for data before every read,
   * whatever n is, so a read when nothing has arrived times out (a request
   * for 0 bytes included); otherwise it returns at most n bytes, fewer only
   * when fewer have arrived.
   */
  function ReadOf(pending: seq<byte>, n: nat): (r: ReadResult)
    ensures r.TimedOut? <==> pending == []
    ensures r.Data? ==> |r.bytes| <= n && |r.bytes| <= |pending| && r.bytes == pending[..|r.bytes|]
    ensures r.Data? ==> |r.bytes| == n || |r.bytes| == |pending|
    ensures r.Data? && n > 0 ==> |r.bytes| > 0
  {
    if pending == [] then TimedOut
    else Data(pending[..Min(n, |pending|)])
  }

  /** Bytes a read takes off the stream. */
  function Taken(r: ReadResult): nat {
    match r
    case Data(bytes) => |bytes|
    case TimedOut => 0
  }

  /**
   * A connected socket. `input` holds the bytes the peer has sent so far,
   * `cursor` how many of them have been read, `sent` one entry per send call.
   */
  class Socket {
    var input: seq<byte>
    var cursor: nat
    var sent: seq<seq<byte>>

    predicate Valid()
      reads this
    {
      cursor <= |input|
    }

    /** The bytes that have arrived and not been read yet. */
    function Pending(): seq<byte>
      reads this
      requires Valid()
    {
      input[cursor..]
    }

    constructor (arrived: seq<byte>)
      ensures Valid() && input == arrived && cursor == 0 && sent == []
    {
      input, cursor, sent := arrived, 0, [];
    }

    method Recv(n: nat) returns (r: ReadResult)
      requires Valid()
      modifies this`cursor
      ensures Valid()
      ensures r == ReadOf(old(Pending()), n)
      ensures cursor == old(cursor) + Taken(r) && Pending() == old(Pending())[Taken(r)..]
    {
      r := ReadOf(input[cursor..], n);
      cursor := cursor + Taken(r);
    }

    /** Sends data in one call; partial writes are not modelled. */
    method Send(data: seq<byte>)
      modifies this`sent
      ensures sent == old(sent) + [data]
    {
      sent := sent + [data];
    }
  }
}
