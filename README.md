# Applanix packet framing (port.py) in Dafny

This project models the packet layer of the Applanix POS bridge: the
`Port` class in `applanix_bridge/src/port.py`. A port frames messages for
the Applanix TCP socket and reads them back. On the wire a packet is:

- an 8-byte common header: the start token `$GRP` or `$MSG`, a 16-bit id
  and a 16-bit length, both little-endian;
- the serialised message body, padded with zero bytes to a multiple of
  four;
- the common footer, which carries a 16-bit checksum field and the end
  terminator.

The Applanix checksum reads a buffer as 4-byte groups. Each group is two
little-endian signed 16-bit integers (struct format `<hh`). The checksum
is their sum modulo 65536. A packet is good when header, body and footer
together checksum to 0.

Modules:

- `Bytes`: bytes, unsigned and signed 16-bit little-endian values, and the
  word sum behind the checksum.
- `Checksum`: the reference checksum `ChecksumOf`, the stored checksum
  value, and the laws that make framing work. Writing the stored value
  into a zeroed aligned word zeroes the sum. Any single-byte change to a
  zero-sum buffer is detected.
- `Wire`: header encoding and decoding. The footer layout is a parameter
  (`FooterLayout`): its size, the offset of the checksum field, and the
  offset and bytes of the terminator. The message catalog that fixes the
  real footer is not part of this model.
- `Streams`: the two byte streams the port works with.
  - `ByteIO` models StringIO: contents plus a cursor, with `Write` that
    overwrites and extends, `Read`, `Seek`, `Tell` and `GetValue`.
  - `Socket` holds the bytes that have arrived, a read cursor and a log of
    sends. `ReadOf` states what one `recv(n)` returns.
- `Framing`: the protocol as functions, with the lemmas that relate them.
  - `Framed` is the packet send puts on the wire.
  - `Receive` is what recv makes of the pending bytes: its outcome, the
    bytes it consumes, and the header and footer it decodes.
- `Ports`: the `Port` class itself, as imperative code over those streams.
  - `Checksum` is the `_checksum` loop.
  - `Recv` and `CheckPacket` model `recv`.
  - `Send`, `Pack` and `PadMessage` model `send`.
  - `Checksum` is proved against `Checksum.ChecksumOf`. The other methods
    are proved against the `Framing` function for the same operation.

The header's `length` field counts the bytes after the header: padded
body plus footer (port.py:78). It does not count the whole packet, and
recv reads exactly that many bytes after the header (port.py:54).

## Model

| member | source | states |
|---|---|---|
| Ports.Port.Checksum | applanix_bridge/src/port.py:100-113 | The group loop returns exactly `ChecksumOf` of the bytes from the cursor on: the signed-half sum modulo 65536, or the not-a-multiple-of-4 error on a short trailing group. It leaves the cursor at the end and the contents unchanged. |
| Ports.Port.Recv | applanix_bridge/src/port.py:31-66 | recv's result is `Receive` applied to the bytes pending on the socket. The socket cursor advances by exactly the bytes `Receive` consumes. The port's header and footer fields become the ones decoded, and are kept where recv stopped before decoding them. |
| Ports.Port.CheckPacket | applanix_bridge/src/port.py:56-66 | After header and rest are read: decodes the footer into the port's field, checks its terminator, checksums header + rest. The outcome and the footer field are those of `ReceivePacket`. |
| Ports.Port.Send | applanix_bridge/src/port.py:68-98 | Sends exactly one packet, `Framed(layout, h, body)`, and returns the header with its length set. When the length does not fit 16 bits it fails and sends nothing. |
| Ports.Port.Pack | applanix_bridge/src/port.py:71-95 | The buffer work of send: padding, header with length, placeholder footer, checksum, and the footer rewritten in place at `footer_start`. It yields the sent header and exactly the bytes of `Framed`. |
| Ports.Port.PadMessage | applanix_bridge/src/port.py:71-75 | Writing the body and then the pad bytes to a fresh buffer yields `Padded(body)`. |
| Ports.Port.constructor | applanix_bridge/src/port.py:20-29 | A port holds its socket and footer layout, with empty header and footer fields. |
| Streams.ByteIO.Write | applanix_bridge/src/port.py:83 | A write overwrites at the cursor and extends the file (`Overwrite`), then moves the cursor past the written bytes. |
| Streams.OverwriteSpec | applanix_bridge/src/port.py:94-95 | After writing s at p: the bytes before p are unchanged, s sits at p, the tail beyond p + \|s\| is unchanged, and the new length is given. |
| Streams.ByteIO.Read | applanix_bridge/src/port.py:106 | A read returns the next n bytes at the cursor, fewer only at the end of the file, and advances the cursor by what it returned. |
| Streams.ByteIO.Seek | applanix_bridge/src/port.py:90 | Seek moves the cursor to a position inside the file. |
| Streams.ReadOf | applanix_bridge/src/port.py:35-38 | `recv(n)` times out exactly when nothing is pending, whatever n is (a socket with a timeout waits for data before every read). Otherwise it returns a prefix of the pending bytes, at most n long, and short only when fewer bytes are pending. For n > 0 that prefix is never empty. |
| Streams.Socket.Recv | applanix_bridge/src/port.py:36 | A socket read returns `ReadOf` of the pending bytes and takes exactly those bytes off the socket. |
| Streams.Socket.Send | applanix_bridge/src/port.py:98 | One send call appends the whole buffer to what the socket has sent. |
| Bytes.Int16 | applanix_bridge/src/port.py:18 | The `<h` reading of a byte pair lies in [-32768, 32767] and equals the unsigned value, or the unsigned value minus 65536. |
| Bytes.WordSumAppend | applanix_bridge/src/port.py:104-113 | The word sum splits at every even boundary, so a group-by-group loop computes the sum of the whole buffer. |
| Checksum.GroupStep | applanix_bridge/src/port.py:111-112 | One more 4-byte group adds its two signed halves to the running sum. |
| Checksum.ShortGroupFails | applanix_bridge/src/port.py:109-110 | A short trailing group after whole groups means the buffer has no checksum (the ValueError). |
| Checksum.ChecksumDefinedIff | applanix_bridge/src/port.py:102-113 | The checksum exists exactly when the length is a multiple of four, and lies in [0, 65535]. An empty buffer checksums to 0. |
| Checksum.StoredChecksum | applanix_bridge/src/port.py:91 | The corrected checksum field value is the additive inverse of the checksum modulo 65536. It is a 16-bit value, and it is 0 exactly when the checksum is 0. |
| Checksum.StoredChecksumAsWritten | applanix_bridge/src/port.py:91 | `65536 - c` as written lies in (0, 65536] and agrees with the corrected value for every c except 0. |
| Checksum.AsWrittenOverflowsIff | applanix_bridge/src/port.py:91 | The as-written value falls outside the 16-bit checksum field exactly when the placeholder checksum is 0. |
| Checksum.ZeroSumLaw | applanix_bridge/src/port.py:89-95 | In a buffer of whole groups whose aligned word at i is zero, writing the stored checksum into that word makes the buffer checksum to 0. |
| Checksum.SingleByteChangeDetected | applanix_bridge/src/port.py:62-64 | Changing any one byte of a buffer that checksums to 0 makes its checksum nonzero. |
| Wire.HeaderBytes | applanix_bridge/src/port.py:82 | The serialised header is 8 bytes, starts with its start token and decodes back to the header. |
| Wire.DecodeHeader | applanix_bridge/src/port.py:40-42 | The start token is the first four bytes. The id and length re-encode to bytes 4-5 and 6-7 they were read from. |
| Wire.HeaderBytesOfDecode | applanix_bridge/src/port.py:40-42 | Decoding 8 header bytes and re-encoding them gives the same bytes: decoding loses nothing. |
| Wire.FooterBytes | applanix_bridge/src/port.py:87 | The serialised footer is exactly `size` bytes long. |
| Wire.DecodeFooter | applanix_bridge/src/port.py:57-58 | The decoded terminator has the terminator's length. The checksum re-encodes to the footer's checksum bytes. |
| Framing.FooterOk | applanix_bridge/src/port.py:57-60 | The terminator check passes exactly when rest holds a footer and the terminator sits at its offset within the last `size` bytes of rest. |
| Wire.FooterRoundTrip | applanix_bridge/src/port.py:57-59 | Decoding a serialised footer gives back its terminator and checksum. |
| Wire.FooterSplice | applanix_bridge/src/port.py:93-95 | Two footers that differ only in their checksum differ only in the 2-byte checksum word. |
| Wire.PacketSplice | applanix_bridge/src/port.py:93-95 | Rewriting the footer after a head changes only the checksum word at head length + checksum offset. |
| Framing.LengthFor | applanix_bridge/src/port.py:78 | The length field is the padded body plus the footer size: at least body + footer, less than 4 more, and congruent to the footer size modulo 4. |
| Framing.PadCount | applanix_bridge/src/port.py:74 | `-n % 4` is below 4 and brings n to a multiple of four. |
| Framing.Padded | applanix_bridge/src/port.py:74-75 | The padded body starts with the body, has only zeros after it, is less than 4 bytes longer, and its length is a multiple of four. |
| Framing.PaddingIsMinimal | applanix_bridge/src/port.py:74 | No shorter padding reaches a multiple of four. |
| Framing.Placeholder | applanix_bridge/src/port.py:80-87 | The buffer that gets checksummed is 8 + length bytes long, a whole number of groups. |
| Framing.PlaceholderWritten | applanix_bridge/src/port.py:86-87 | Writing the zero-checksum footer at `footer_start` yields the placeholder. |
| Framing.StampFooter | applanix_bridge/src/port.py:89-95 | The placeholder always has a checksum. Rewriting its footer in place with the stored value gives exactly the framed packet. |
| Framing.Framed | applanix_bridge/src/port.py:68-98 | Send succeeds exactly when the length fits 16 bits. The packet is then 8 + length bytes long. |
| Framing.FramedLayout | applanix_bridge/src/port.py:77-95 | A framed packet is a whole number of groups. Its header carries length = size - 8, the padded body follows the header, and the footer ends in the terminator. Everything before the footer is as in the placeholder. |
| Framing.FramedChecksumIsZero | applanix_bridge/src/port.py:89-95 | Every packet send emits checksums to 0. |
| Framing.FooterChecksumZeroes | applanix_bridge/src/port.py:86-95 | For any head of whole groups, placing the stored checksum of head + zero-checksum footer into the footer makes head + footer checksum to 0. |
| Framing.Receive | applanix_bridge/src/port.py:31-66 | recv never consumes more than is pending. It reports "no packet" with nothing consumed exactly when nothing is pending. |
| Framing.ReceivePacket | applanix_bridge/src/port.py:56-66 | The last stage of recv succeeds iff the footer has the right terminator and header + rest checksum to 0. It then returns start, id and rest, and it consumes 8 + \|rest\|. Each failure is named by its cause: ShortFooter when rest cannot hold a footer, BadFooter for a wrong terminator, ChecksumLength when header + rest is not whole groups, BadChecksum for a nonzero sum. The decoded footer is the last `size` bytes of rest, or none when rest is too short. |
| Framing.LaterReadTimesOut | applanix_bridge/src/port.py:50-54 | A timeout on the read after a valid header is not caught: with nothing after a `$GRP`/`$MSG` header, whatever its id and length (0 included), recv fails with Timeout, having taken only the header. |
| Framing.IsStart | applanix_bridge/src/port.py:45 | True exactly for the start tokens `$GRP` and `$MSG`, so every accepted token begins with `$`. |
| Framing.GoodStartPasses | applanix_bridge/src/port.py:44-46 | A `$GRP` or `$MSG` start token (`IsStart`) always passes the sanity check, whatever follows the header. |
| Framing.RoundTrip | applanix_bridge/src/port.py:31-98 | recv applied to what send emitted, followed by anything, consumes exactly that packet. It returns its start token, id and the bytes after the header. This holds for every start token recv accepts except the drained noisy group. |
| Framing.ReceiveWhole | applanix_bridge/src/port.py:53-66 | A complete packet with a valid start token, not the noisy group, with a length covering its bytes, the right terminator and a zero checksum is received whole, whatever follows it. |
| Framing.ReceiveAccepts | applanix_bridge/src/port.py:53-66 | After a `$GRP`/`$MSG` header other than the noisy group, once its length bytes have arrived: if they end in the terminator and header + rest checksum to 0, recv returns them and consumes 8 + length bytes. |
| Framing.ReceiveTakesLength | applanix_bridge/src/port.py:53-66 | After a valid header other than the noisy group, recv consumes exactly 8 + length bytes. A packet it returns is those bytes, ends in the terminator and checksums to 0. |
| Framing.ReceiveReachesPacket | applanix_bridge/src/port.py:53-58 | After a `$GRP`/`$MSG` header other than the noisy group, with its length bytes available, recv's outcome is that of its last stage on exactly those bytes, provided anything follows the header. With nothing after it (possible only for length 0), the read at line 54 times out: Timeout, with only the header consumed. |
| Framing.FramedRest | applanix_bridge/src/port.py:66 | The bytes recv returns for a framed packet are the padded body followed by the footer. The footer decodes to the terminator and the stored checksum. |
| Framing.TimeoutIsNoPacket | applanix_bridge/src/port.py:35-38 | A timeout on the header read means "no packet", with nothing consumed. |
| Framing.BadStartRejected | applanix_bridge/src/port.py:44-46 | A start token other than `$GRP`/`$MSG` is rejected after reading only the header. |
| Framing.NoisyGroupDrained | applanix_bridge/src/port.py:48-51 | Group 20015 is drained: 135 more bytes are read and dropped, with no footer or checksum check, and recv reports "no packet". |
| Framing.CorruptionDetected | applanix_bridge/src/port.py:62-64 | A sent packet with any one byte after its header changed is never returned by recv. |
| Framing.CorruptedRejected | applanix_bridge/src/port.py:62-64 | The same at packet level: one changed byte after a valid header of a zero-sum packet makes recv reject it. |
| Framing.PlaceholderWords | applanix_bridge/src/port.py:80-87 | The placeholder's checksum is that of the start token, the id word, and everything after it (length word, padded body, zero-checksum footer). |
| Checksum.IdWordShift | applanix_bridge/src/port.py:100-113 | A 16-bit word x after the first four bytes enters the checksum as x with 16-bit wrap-around: the checksum with x there is the checksum with 0 there, plus x. |
| Framing.IdShiftsChecksum | applanix_bridge/src/port.py:80-89 | The placeholder checksum for id i is the placeholder checksum for id 0 plus i, with 16-bit wrap-around. |
| Checksum.InverseUnique | applanix_bridge/src/port.py:91 | `StoredChecksum(c)` is the one 16-bit value whose wrap-around sum with c is 0. |
| Framing.AsWrittenChecksumOverflows | applanix_bridge/src/port.py:91 | For every footer layout, start token and body whose length fits: line 91 as written yields 65536 exactly when the id is the 16-bit additive inverse of the placeholder checksum with id 0. By InverseUnique that is one id per layout, token and body, namely StoredChecksum of that checksum. In that case the corrected value is 0. |

## Left out

- Threading: the `threading.Thread` base class, `daemon`, the `finish` event and `opts` (port.py:14, 20-25) are not modelled. Methods run one at a time.
- Message serialisation: the body is given as the bytes the translator would write (port.py:72-73). The translator and the message catalog are not part of this model. For the same reason the footer layout is a parameter (`FooterLayout`) rather than the catalog's fixed common footer.
- Header bytes: the header is fixed as start token, id and length (8 bytes). Any other fields of the catalog's common header are not part of this model.
- Ports.Port.Send: port.py:77 builds the footer as `msg.CommonFooter(end=msg.CommonFooter.END)`. There `msg` is the message parameter of `send` (line 68), which hides the module imported at line 2. As written, the footer class is looked up on the message object, so `send` raises before it writes anything. The model uses the evidently intended footer: terminator `END` and checksum 0. `Framed`, `Send` and `Pack` describe that intended packet, not the as-written failure.
- Ports.Port.Pack: it writes the corrected `StoredChecksum` into the footer, not the value of port.py:91 as written (see Findings).
- Ports.Port.Send: in the source, `header.length` is assigned on the caller's header object. The model returns the updated header instead of mutating a shared object.
- Streams.Socket.Send: one call sends the whole buffer. Partial sends (the return value of `sock.send`) are not modelled.
- Streams.ReadOf: the network is modelled as the bytes that have arrived before the timeout. A read when nothing is pending times out, a read of 0 bytes included, because the socket waits for data before every read (the socket's timeout is set outside port.py). Connection close, resets and the wall-clock timeout are not modelled.
- Timeouts: a timeout on the header read is "no packet" (port.py:37-38). A timeout on a later read is not caught by the source and becomes the `Timeout` failure.
- Exceptions: each raise in recv is a distinct failure value (`ShortHeader`, `BadHeader`, `ShortFooter`, `BadFooter`, `ChecksumLength`, `BadChecksum`). Lines 60 and 64 raise a plain string, and line 64 also names an undefined `checksum`. Python raises a different exception there than the intended one. The model keeps the intended rejection and not the exception type.
- A header shorter than 8 bytes, or a rest shorter than the footer, makes the translator raise. These become `ShortHeader` and `ShortFooter`.
- Ports.Port.Recv: the unused `d` parameter of `recv` is left out.
- Streams.ByteIO.Seek: only positions inside the file are allowed. StringIO's seeking past the end (which pads on the next write) is not modelled; `send` never does it.
- Send overflow: header serialisation is done by the translator, which is not part of this model. The model assumes that a length above 65535 makes it raise, as a `<H` struct pack does, and returns `LengthOverflow` before writing anything. A serialiser that truncated instead would send a packet whose length field is the length modulo 65536; the model does not capture that alternative.
- The rest of the repository (the data and control ports built on `Port`, the bridge node, publishers and translator) is not part of this model.

## Findings

| source | as written | input that shows it | evidently intended | confidence | as-written member | corrected member |
|---|---|---|---|---|---|---|
| applanix_bridge/src/port.py:91 | `footer.checksum = 65536 - checksum`, which is 65536 when the placeholder already checksums to 0. 65536 does not fit the footer's unsigned 16-bit checksum field. | Any footer layout, start token and body whose length fits, with id = StoredChecksum(c0), where c0 is the placeholder checksum with id 0. For instance, a 4-byte footer (checksum word at 0, terminator `$#` at 2), `$MSG` and body `5C 48 00 00` give c0 = 65535 and so id 1. | `(65536 - checksum) % 65536`, which stores 0 in that case. Framing.FramedChecksumIsZero proves that every packet framed with it checksums to 0. | not executed | Framing.AsWrittenChecksumOverflows | Checksum.StoredChecksum |
