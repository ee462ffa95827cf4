/**
 * The checksum law of the packet format (Port._checksum in port.py): the
 * buffer is read in 4-byte groups, each group is two little-endian signed
 * 16-bit integers, and the checksum is their sum modulo 65536.
 */
module Checksum {
  import opened Bytes
  import opened Results

  /** The error _checksum raises: a trailing group shorter than four bytes. */
  datatype ChecksumFault = NotMultipleOfFour

  /**
   * Reference definition of the checksum. Summing 4-byte groups as two
   * signed halves is the same as summing the 2-byte words, which is what
   * WordSum does; Ports.Port.Checksum proves its group loop against this.
   */
  function ChecksumOf(s: seq<byte>): Result<u16, ChecksumFault> {
    if |s| % 4 == 0 then Success(WordSum(s) % 0x1_0000) else Failure(NotMultipleOfFour)
  }

  /** Reading the 4-byte group at offset at after whole groups from start adds its two signed halves. */
  lemma GroupStep(d: seq<byte>, start: nat, at: nat)
    requires start <= at && at + 4 <= |d| && (at - start) % 2 == 0
    ensures WordSum(d[start..at + 4]) == WordSum(d[start..at]) + Int16(d[at], d[at + 1]) + Int16(d[at + 2], d[at + 3])
  {
    assert d[start..at + 4] == d[start..at] + d[at..at + 4];
    WordSumGroup(d[start..at], d[at..at + 4]);
  }

  /** A buffer whose last group, after whole groups from start, is short has no checksum. */
  lemma ShortGroupFails(d: seq<byte>, start: nat, at: nat)
    requires start <= at < |d| < at + 4 && (at - start) % 4 == 0
    ensures ChecksumOf(d[start..]) == Failure(NotMultipleOfFour)
  {
    assert |d[start..]| == (at - start) + (|d| - at);
  }

  /**
   * The checksum field value that makes a buffer whose checksum is c sum
   * to zero: the additive inverse of c modulo 65536, (65536 - c) mod
   * 65536, which is 0 only when c is 0.
   */
  function StoredChecksum(c: u16): (v: u16)
    ensures (c + v) % 0x1_0000 == 0
    ensures v == 0 <==> c == 0
  {
    if c == 0 then 0 else 0x1_0000 - c
  }

  /** Addition of 16-bit values with wrap-around. */
  function AddU16(a: u16, b: u16): u16 {
    if a + b < 0x1_0000 then a + b else a + b - 0x1_0000
  }

  /** StoredChecksum is the only 16-bit value that cancels c modulo 65536. */
  lemma InverseUnique(c: u16, x: u16)
    ensures AddU16(c, x) == 0 <==> x == StoredChecksum(c)
  {
  }

  /**
   * A 16-bit word x placed after four bytes (where the header's id sits)
   * enters the checksum as x modulo 65536: the checksum with x there is
   * the checksum with 0 there, plus x.
   */
  lemma IdWordShift(a: seq<byte>, x: u16, tail: seq<byte>)
    requires |a| == 4 && ChecksumOf(a + U16Bytes(x) + tail).Success?
    ensures ChecksumOf(a + U16Bytes(x) + tail).value == AddU16(ChecksumOf(a + U16Bytes(0) + tail).value, x)
  {
    var k := WordSum(a) + WordSum(tail);
    var w := Int16(U16Bytes(x)[0], U16Bytes(x)[1]);
    assert WordSum(a + U16Bytes(x) + tail) == k + w by {
      WordSumSplice(a, U16Bytes(x), tail);
    }
    assert WordSum(a + U16Bytes(0) + tail) == k by {
      WordSumSplice(a, U16Bytes(0), tail);
    }
    U16RoundTrip(x);
    ModShift(k, w, x);
  }

  /** Adding x or x - 65536 to k, modulo 65536, is adding x to k mod 65536 with 16-bit wrap-around. */
  lemma ModShift(k: int, w: int, x: u16)
    requires w == x || w == x - 0x1_0000
    ensures (k + w) % 0x1_0000 == AddU16(k % 0x1_0000, x)
  {
    var q, r := k / 0x1_0000, k % 0x1_0000;
    var t := if w == x then 0 else 1;
    var s := if r + x < 0x1_0000 then 0 else 1;
    assert k + w == 0x1_0000 * (q - t + s) + AddU16(r, x);
  }

  /** The checksum field value exactly as port.py:91 computes it. */
  function StoredChecksumAsWritten(c: u16): (v: int)
    ensures 0 < v <= 0x1_0000
    ensures c != 0 ==> v == StoredChecksum(c)
  {
    0x1_0000 - c
  }

  /** The as-written value leaves the 16-bit range exactly when the placeholder sum is zero. */
  lemma AsWrittenOverflowsIff(c: u16)
    ensures StoredChecksumAsWritten(c) >= 0x1_0000 <==> c == 0
  {
  }

  /** The checksum is defined exactly on buffers whose length is a multiple of four, and lies in [0, 65535]. */
  lemma ChecksumDefinedIff(s: seq<byte>)
    ensures ChecksumOf(s).Success? <==> |s| % 4 == 0
    ensures ChecksumOf(s).Success? ==> 0 <= ChecksumOf(s).value < 0x1_0000
    ensures ChecksumOf([]) == Success(0)
  {
  }

  /**
   * The zero-sum law: in a buffer whose length is a multiple of four and
   * whose word at the even offset i is zero, writing StoredChecksum of the
   * buffer's checksum into that word makes the whole buffer checksum to 0.
   */
  lemma ZeroSumLaw(s: seq<byte>, i: nat)
    requires |s| % 4 == 0 && i % 2 == 0 && i + 2 <= |s|
    requires s[i] == 0 && s[i + 1] == 0
    requires ChecksumOf(s).Success?
    ensures ChecksumOf(s[..i] + U16Bytes(StoredChecksum(ChecksumOf(s).value)) + s[i + 2..]) == Success(0)
  {
    var v := StoredChecksum(ChecksumOf(s).value);
    var w := U16Bytes(v);
    var t := s[..i] + w + s[i + 2..];
    assert WordSum(t) == WordSum(s) + Int16(w[0], w[1]) by {
      assert s == s[..i] + [s[i], s[i + 1]] + s[i + 2..];
      WordSumSplice(s[..i], [s[i], s[i + 1]], s[i + 2..]);
      WordSumSplice(s[..i], w, s[i + 2..]);
    }
    U16RoundTrip(v);
    StoredWordCancels(WordSum(s), Int16(w[0], w[1]));
  }

  /** Adding the stored checksum word (read back as a signed half) cancels the sum modulo 65536. */
  lemma StoredWordCancels(total: int, word: int)
    requires word == StoredChecksum(total % 0x1_0000) as int || word == StoredChecksum(total % 0x1_0000) as int - 0x1_0000
    ensures (total + word) % 0x1_0000 == 0
  {
    var q, c := total / 0x1_0000, total % 0x1_0000;
    assert total == 0x1_0000 * q + c;
    if c == 0 {
      assert word == 0 || word == -0x1_0000;
    } else {
      assert word == 0x1_0000 - c || word == -c;
    }
  }

  /** A whole-multiple-of-65536 shift plus a nonzero amount below 65536 in size is not a multiple of 65536. */
  lemma NotMultiple(m: int, x: int)
    requires -0x1_0000 < x < 0x1_0000 && x != 0
    ensures (0x1_0000 * m + x) % 0x1_0000 != 0
  {
  }

  /** Adding a nonzero amount smaller than 65536 in size, plus a multiple of 65536, to a multiple of 65536 gives a non-multiple. */
  lemma ShiftNotZero(x: int, e: int, k: int)
    requires x % 0x1_0000 == 0 && -0x1_0000 < e < 0x1_0000 && e != 0
    ensures (x + e + 0x1_0000 * k) % 0x1_0000 != 0
  {
    var m := x / 0x1_0000;
    assert x == 0x1_0000 * m;
    assert x + e + 0x1_0000 * k == 0x1_0000 * (m + k) + e;
    NotMultiple(m + k, e);
  }

  /**
   * Changing any single byte of a buffer that checksums to 0 makes its
   * checksum nonzero: a one-byte change moves one 16-bit word by less than
   * 65536, so the modular sum cannot come back to 0.
   */
  lemma SingleByteChangeDetected(s: seq<byte>, i: nat, b: byte)
    requires i < |s| && b != s[i]
    requires ChecksumOf(s) == Success(0)
    ensures ChecksumOf(s[i := b]) != Success(0)
  {
    var j := i - i % 2;
    var t := s[i := b];
    var a, c := s[..j], s[j + 2..];
    assert WordSum(t) - WordSum(s) == Int16(t[j], t[j + 1]) - Int16(s[j], s[j + 1]) by {
      assert s == a + [s[j], s[j + 1]] + c;
      assert t == a + [t[j], t[j + 1]] + c;
      WordSumSplice(a, [s[j], s[j + 1]], c);
      WordSumSplice(a, [t[j], t[j + 1]], c);
    }
    var before: int, after: int := U16Value(s[j], s[j + 1]), U16Value(t[j], t[j + 1]);
    assert before != after by {
      U16BytesOfValue(s[j], s[j + 1]);
      U16BytesOfValue(t[j], t[j + 1]);
    }
    var ks := if s[j + 1] < 128 then 0 else 1;
    var kt := if t[j + 1] < 128 then 0 else 1;
    assert Int16(t[j], t[j + 1]) - Int16(s[j], s[j + 1]) == (after - before) + 0x1_0000 * (ks - kt);
    ShiftNotZero(WordSum(s), after - before, ks - kt);
  }
}
