# pkt-line in Dafny

A model of the Go package `pkt-line` (cycloidio/pkt-line), which reads and
writes Git's smart-transport framing:

- **pkt-lines**: four hexadecimal length digits, then the payload. The
  special frames are `0000` (flush) and `0001` (delimiter), and a `PACK`
  marker switches the stream to raw pack-file bytes. A payload starting
  with `ERR ` is the peer's error report.
- **Parsers** for three messages carried in pkt-lines:
  - the protocol-v1 `git-receive-pack` response;
  - the protocol-v1 `git-upload-pack` response;
  - the protocol-v2 request.

Each parser has a chunk type and an encoder that writes a chunk back as one
packet.

Modules and files:

| file | module | models |
|---|---|---|
| `wrappers.dfy` | `Wrappers` | `Option` |
| `strings.dfy` | `Strings` | bytes, and the `strings`/`bytes` functions the parsers call (`HasPrefix`, `TrimSuffix`, `SplitN`) |
| `token.dfy` | `PktLine` | `token.go`: packets, their encoders, the split function, the classification of tokens, and the `PacketScanner` class |
| `receiveresp.dfy` | `ReceiveResp` | `receiveresp.go` |
| `request.dfy` | `RequestV2` | `v2/req.go` |
| `uploadresp.dfy` | `UploadResp` | `uploadresp.go` |

## How the model is built

- **The scanner's input.** Go's `io.Reader` and `bufio.Scanner` are
  replaced by the whole input as a `seq<byte>` with a cursor (`pos`).
  - The split function (`PktLine.Split`) and the classification of a token
    (`PktLine.Classify`) are pure functions.
  - `PktLine.PacketScanner.Scan` updates `pos`, `err`, `curr` and
    `packFileMode` in place, as the Go method updates its fields.
  - Its contract ties the new state to `PktLine.Advance`.
  - `PktLine.Packets` is the packet stream the scanner reports.
    `PktLine.ScannerFollowsPackets` proves that `Scan` walks exactly that
    stream.
- **Each parser** is a class with the Go fields `state`, `err` and `curr`,
  and a `Scan` method with `modifies`.
  - One call is specified by a pure step function `Step(state, outcome)`.
    The outcome is a packet, or the scanner's stop with its error. The step
    returns a `Transition`: report a chunk and move, move without a chunk,
    or halt with an error.
  - `Run` folds `Step` over a sequence of outcomes.
  - The lemmas about `Run` and `Step` carry the protocol properties.
  - Each class keeps a ghost list of the chunks it has reported. Its
    invariant says that list follows the message grammar.
- **Chunks** are records with the Go struct's fields.
  - `KindOf` follows the encoder's "first non-empty field wins" order. For
    example, `EndOfShallows` and `EndOfRequest` both encode as `0000`.
  - In the request and upload-response models a chunk with no field set is
    of kind `Blank`: the encoder aborts on it, but the parser can produce
    one, from a line with an empty value.
  - The receive-response model has no `Blank` kind. There the only chunk
    with no field set the parser produces comes from an `unpack ` line with
    an empty status, and `KindOf` counts it as an unpack line.
- **Encoder aborts** (`panic`) are preconditions: `Encodable` on a chunk, and
  `PktLine.Encodable` on a packet. `EncodableExactly` in each response
  module shows that a chunk's `Encodable` holds exactly when the Go encoder
  does not panic on it.
- **Errors** are kinds, not message texts: `SyntaxError` with a reason,
  `RemoteError` (the peer's `ERR` packet), `InvalidLength` (a header that is
  not hexadecimal) and `TruncatedFrame`.

**Where the model departs from the code.**

- **The upload parser's stop rule.** Each parser's `Err` doc comment and
  the other two parsers agree: when the packet scanner stops with an error,
  that error is reported. `UploadResponse.Scan` does not do this (finding 2 below).
  - `UploadResp.StopAsWritten` models the Go code as written.
  - The class uses the corrected `UploadResp.Stop`.
- **The error-packet encoder.** Its bound does not leave room for the
  header.
  - The model keeps the Go computation: `PktLine.EncodeErrorAsWritten`, with
    the Go abort bound.
  - `PktLine.ErrorHeaderOverflow` pins down what happens past the
    4-digit boundary.
  - Elsewhere, error packets are only encoded within the corrected bound
    (finding 1).
- **Everywhere else the model follows the code**, apart from what "Left
  out" below lists.

## Model

| member | source | states |
|---|---|---|
| `Strings.SplitN` | uploadresp.go:169-177 | `strings.SplitN` with a one-byte separator: at most n pieces that join back to the input, no separator in any piece but the last, at least two pieces when the separator occurs |
| `PktLine.ParseHex4` | token.go:178-181 | a four-byte header parses exactly when all four bytes are hexadecimal digits of either case, to a value below 0x10000 |
| `PktLine.FormatHex` | token.go:59 | `%04x`/`%04X`: below 0x10000, four digits of the given case that parse back to n; from 0x10000 a fifth digit appears and the first four parse only to n / 16 |
| `PktLine.EncodeErrorAsWritten` | token.go:68-75 | the error encoder as written: `ERR ` + message after a `%04X` header, accepted up to 0xFFFF bytes of `ERR ` + message |
| `PktLine.EncodeData` | token.go:54-60 | data of at most 65531 bytes is written after four lower-case hex digits that parse back to the frame's length, its content + 4 |
| `PktLine.EncodeToPktLine` | token.go:38-92 | flush is `0000`, delimiter `0001`, the indicator `PACK`, a pack chunk its raw bytes; data is its content after the lower-case hex of its length + 4; an error is `ERR ` + message after the upper-case hex of its length |
| `PktLine.Split` | token.go:168-190 | pack mode takes everything buffered; otherwise fewer than 4 bytes asks for more, `PACK` and headers 0 and 1 are 4-byte tokens, header n asks for exactly n bytes, a non-hex header fails |
| `PktLine.Classify` | token.go:134-165 | in pack mode a token is never rejected: a non-empty one is a pack chunk of all its bytes, and exactly the empty one ends the scan; a data packet's content is the token after its header |
| `PktLine.NextPacket` | token.go:129-165 | a packet always consumes at least one byte and never more than is left |
| `PktLine.Advance` | token.go:125-166 | once an error is set nothing changes; pack mode never turns off; a scanned packet becomes current with no error set; a stop sets the stream's error and keeps the current packet |
| `PktLine.PacketScanner.constructor` | token.go:104-108 | a new scanner is at position 0 with no error, no packet, framed mode |
| `PktLine.PacketScanner.Scan` | token.go:125-166 | returns true exactly when a packet was read, and leaves the fields as `Advance` says |
| `PktLine.ScanEncodedFramed` | token.go:143-164 | a framed packet (flush, delimiter, or data of 1 to 65531 bytes not starting with `ERR `) is read back as itself and consumes exactly its encoding |
| `PktLine.HeaderIsNotPack` | token.go:175-178 | an encoded header is hexadecimal, so a frame is never taken for the `PACK` marker |
| `PktLine.ScanEncodedBytes` | token.go:54-60 | the encoding of content c is read back as the data packet c and consumes \|c\| + 4 bytes |
| `PktLine.ScanEncodedError` | token.go:160-162 | an encoded error packet is read back as the remote error with the same message |
| `PktLine.ScanEncodedSpecial` | token.go:143-155 | `0000`, `0001` and `PACK` are read back as flush, delimiter and pack indicator, 4 bytes each |
| `PktLine.ScanEncodedPackFile` | token.go:135-141 | after `PACK` a non-empty read is one raw pack chunk of all its bytes; an empty one ends the scan |
| `PktLine.EmptyContentIsRejected` | token.go:156-159 | empty content encodes to `0004`, which the scanner rejects as an unknown special packet |
| `PktLine.NextPacketStable` | token.go:168-190 | in framed mode, once a buffer decides (a token or an error), more bytes do not change the answer |
| `PktLine.NonHexHeaderFails` | token.go:178-181 | a four-byte header other than `PACK` that is not hexadecimal is an invalid-length error, whatever follows it, consuming nothing |
| `PktLine.MidFrameEnds` | token.go:172-188 | in framed mode fewer than four bytes, or a header asking for more bytes than remain, is a clean end |
| `PktLine.PacketsOfFramedFirst` | token.go:125-166 | a framed packet in front of an encoded stream is reported first, then the rest of the stream |
| `PktLine.PacketsOfEncoding` | token.go:125-166 | a sequence of framed packets, encoded and followed by anything, is read back as the same packets, then whatever follows |
| `PktLine.PacketsOfRemoteError` | token.go:160-162 | an encoded error packet ends the packet stream with that remote error, whatever follows |
| `PktLine.PacketsOfPackFile` | token.go:151-155 | after `PACK` the rest of the input is one raw pack chunk, and the stream ends with no error |
| `PktLine.ScannerFollowsPackets` | token.go:125-166 | each `Scan` reports the first packet of the remaining stream and leaves the rest; once none remain it stops with the stream's error and stays stopped |
| `PktLine.ScannerReadsPacket` | token.go:129-165 | a packet at the front of the unread input is reported, the cursor moves past it, pack mode turns on after `PACK`, and the rest of the stream is what follows it |
| `PktLine.ScannerStops` | token.go:129-162 | a header or token the scanner rejects ends the stream with that error; the error is set, and every later `Scan` reports it again without moving |
| `PktLine.ScannerEnds` | token.go:129-141 | when the next split or classification is a clean end, the stream ends with no error and `Scan` changes nothing |
| `PktLine.ScannerEndsMidFrame` | token.go:129-190 | in framed mode, unread input of fewer than four bytes, or a header asking for more bytes than remain, ends the stream with no error and `Scan` changes nothing |
| `PktLine.ErrorHeaderOverflow` | token.go:68-75 | a 0xFFF8-byte message passes the error encoder's check, gets a five-digit header, and is read back as a 4096-byte frame that is not the remote error |
| `ReceiveResp.EncodeToPktLine` | receiveresp.go:43-57 | the unpack status is sent as `unpack <status>`, a reference update as `<status> <ref>` or `<status> <ref> <message>`, the end as `0000` |
| `ReceiveResp.EncodableExactly` | receiveresp.go:43-57 | the encoder's precondition holds exactly when a field is set and the line Go formats (`unpack <status>`, `<status> <ref>` or `<status> <ref> <message>`, with its newline) fits in one data packet |
| `ReceiveResp.Step` | receiveresp.go:89-155 | a clean stop is the end only in Begin and early EOF after it; the scanner's error is reported; a non-data packet in Begin and any packet but data or flush later is unexpected; flush ends the response; every reported chunk follows `unpack ref-update* end` |
| `ReceiveResp.ReceiveResponse.constructor` | receiveresp.go:70-72 | a new parser is in Begin with no error and no chunk, over a fresh scanner of the input |
| `ReceiveResp.ReceiveResponse.Scan` | receiveresp.go:89-157 | after an error or at the end it returns false and changes nothing; otherwise the fields, the result and the reported chunks are one `Step` on the scanner's next outcome; the reported chunks stay in grammar order |
| `ReceiveResp.ReceiveResponse.ScanPacket` | receiveresp.go:100-155 | the switch on the state for one scanned packet, as `Step` says |
| `ReceiveResp.ReceiveResponse.ScanUnpack` | receiveresp.go:102-117 | the Begin case: only a data line starting with `unpack ` is accepted, it gives the status and moves to ScanResult, as `Step` says |
| `ReceiveResp.ReceiveResponse.ScanRefUpdate` | receiveresp.go:118-154 | the ScanResult case: flush ends the response, a data line is a reference update, anything else is unexpected, as `Step` says |
| `ReceiveResp.ReceiveResponse.ScanRefUpdateLine` | receiveresp.go:126-150 | the fields after one data line in ScanResult are exactly those `RefUpdate` gives |
| `ReceiveResp.RefUpdate` | receiveresp.go:126-150 | a data line in ScanResult either reports a reference update and stays in ScanResult or halts with a syntax error; it never moves without a chunk |
| `ReceiveResp.WalkSnoc` | receiveresp.go:101-155 | one more chunk moves the grammar automaton by that chunk's kind |
| `ReceiveResp.ScanUnpackLine` | receiveresp.go:102-117 | after one trailing newline is removed, the first line must start with `unpack `, and the status is everything after that first space |
| `ReceiveResp.ScanResultLine` | receiveresp.go:126-150 | `ok <ref>` keeps all after the first space as the name; `ng` splits at the first two spaces and fails with fewer than three fields; anything else is unexpected |
| `ReceiveResp.EmittedWellFormed` | receiveresp.go:108-147 | every chunk the parser reports is well formed: when it fits in one packet, the encoder writes it as a packet that is read back as the same chunk, except an `unpack` chunk with an empty status and an `ng` update with an empty message |
| `ReceiveResp.RefUpdateWellFormed` | receiveresp.go:128-147 | every reference update read from a line is well formed: when it fits in one packet, the encoder writes it as a packet that is read back as the same update, except an `ng` update with an empty message (whose name has no space) |
| `ReceiveResp.EncodedFramed` | receiveresp.go:43-57 | a well-formed chunk encodes to a packet the scanner reads back as itself |
| `ReceiveResp.ParseEncodedUnpack` | receiveresp.go:108-117 | an encoded unpack line is read back in Begin as the same status |
| `ReceiveResp.ParseEncodedOk` | receiveresp.go:128-135 | an encoded `ok` update is read back as the same update |
| `ReceiveResp.ParseEncodedNg` | receiveresp.go:136-147 | an encoded `ng` update whose ref has no space and whose message is not empty is read back as the same update |
| `ReceiveResp.ParseEncoded` | receiveresp.go:101-155 | the encoding of a well-formed chunk is read back as that chunk, from every state where the grammar allows it |
| `ReceiveResp.RunFollowsGrammar` | receiveresp.go:101-155 | the chunks of any run are accepted by the grammar, which ends in the parser's last state |
| `ReceiveResp.ToPackets` | receiveresp.go:43-57 | one packet per chunk, each the packet that chunk's encoder writes |
| `ReceiveResp.EncodedReadsBack` | receiveresp.go:101-155 | for chunks that finish the response, each chunk's packet is read back by one step as that chunk, in order |
| `ReceiveResp.RunOfReadBack` | receiveresp.go:89-157 | packets that read back one by one as chunks make a run report those chunks and end in End with no error, whatever outcomes follow |
| `ReceiveResp.RunOfPackets` | receiveresp.go:89-157 | the packets of chunks that finish a response are read back as those chunks, ending in End with no error, whatever follows |
| `ReceiveResp.ParseEncodedResponse` | receiveresp.go:89-157 | a complete response, encoded and followed by any bytes, is read back as the same chunks, ending in End with no error |
| `RequestV2.EncodeToPktLine` | v2/req.go:47-64 | a command is `command=<name>\n`, a capability `<text>\n`, the end of the capabilities `0001`, an argument its raw bytes, the end of the arguments and of the request `0000` |
| `RequestV2.Step` | v2/req.go:97-166 | a clean stop is the end only in Begin; the scanner's error is reported; flush in Begin ends the stream, delimiter after the capabilities moves to the arguments, flush after the arguments goes back to Begin, any other non-data packet is unexpected; chunks follow `(command capability* end-capability argument* end-argument)* end-request` |
| `RequestV2.Request.constructor` | v2/req.go:75-77 | a new parser is in Begin with no error and no chunk, over a fresh scanner of the input |
| `RequestV2.Request.Scan` | v2/req.go:97-169 | after an error or at the end it returns false and changes nothing; otherwise the fields, the result and the reported chunks are one `Step`; the reported chunks stay in grammar order |
| `RequestV2.Request.ScanPacket` | v2/req.go:108-166 | the switch on the state for one scanned packet, as `Step` says |
| `RequestV2.WalkSnoc` | v2/req.go:110-166 | one more chunk moves the grammar automaton by that chunk's kind |
| `RequestV2.CommandLine` | v2/req.go:119-128 | a data line in Begin is a command exactly when it starts with `command=`: the name is the text after the prefix without one trailing newline and the state moves to ScanCapabilities; any other data line is an unexpected-packet error |
| `RequestV2.CommandRoundTrip` | v2/req.go:119-128 | a `command=` line gives the name with the prefix and one trailing newline removed, and re-encodes to the same packet exactly when it ended in a newline |
| `RequestV2.CapabilityRoundTrip` | v2/req.go:141-145 | a capability line loses one trailing newline, and re-encodes to the same packet exactly when it ended in a newline |
| `RequestV2.ArgumentRoundTrip` | v2/req.go:158-162 | an argument is kept verbatim and re-encodes to the same packet |
| `RequestV2.EncodedFramed` | v2/req.go:47-64 | a well-formed chunk encodes to a packet the scanner reads back as itself |
| `RequestV2.ParseEncoded` | v2/req.go:110-166 | the encoding of a well-formed chunk is read back as that chunk, from every state where the grammar allows it |
| `RequestV2.RunFollowsGrammar` | v2/req.go:110-166 | the chunks of any run are accepted by the request grammar, which ends in the parser's last state |
| `RequestV2.ToPackets` | v2/req.go:47-64 | one packet per chunk, each the packet that chunk's encoder writes |
| `RequestV2.EncodedReadsBack` | v2/req.go:110-166 | for chunks that finish the request stream, each chunk's packet is read back by one step as that chunk, in order |
| `RequestV2.RunOfReadBack` | v2/req.go:97-169 | packets that read back one by one as chunks make a run report those chunks and end in End with no error, whatever outcomes follow |
| `RequestV2.RunOfPackets` | v2/req.go:97-169 | the packets of chunks that finish the request stream are read back as those chunks, ending in End with no error |
| `RequestV2.ParseEncodedStream` | v2/req.go:97-169 | a complete request stream, encoded and followed by any bytes, is read back as the same chunks, ending in End with no error |
| `UploadResp.GrammarNext` | uploadresp.go:126-224 | the response order `shallow* unshallow* end-of-shallows? ack* nak? pack* end-of-request`: every move goes forward, to the section of the chunk read |
| `UploadResp.EncodeToPktLine` | uploadresp.go:52-78 | `shallow <id>\n`, `unshallow <id>\n`, `0000` for the end of the shallows, `ACK <id>\n` or `ACK <id> <detail>\n`, `NAK\n`, pack data as its bytes, `0000` for the end of the request |
| `UploadResp.EncodableExactly` | uploadresp.go:52-78 | the encoder's precondition holds exactly when a field is set and the line Go formats (shallow, unshallow, `ACK <id>` or `ACK <id> <detail>` with its newline, or the pack data) fits in one data packet |
| `UploadResp.StopAsWritten` | uploadresp.go:114-123 | as written, the only error a stop can set is early EOF (the scanner's own error is dropped) |
| `UploadResp.Stop` | uploadresp.go:114-123 | corrected: the scanner's error is reported as it is; a clean stop is the end exactly while waiting for the first acknowledgement or reading the pack, and early EOF elsewhere |
| `UploadResp.PackSection` | uploadresp.go:198-224 | flush ends the request, data and pack-file chunks are pack data, the `PACK` indicator alone reports no chunk, a delimiter or other packet is unexpected |
| `UploadResp.AckSection` | uploadresp.go:166-197 | `ACK` and `NAK` lines, an unexpected packet in Begin, otherwise the pack section; moves forward only |
| `UploadResp.UnshallowSection` | uploadresp.go:143-165 | `unshallow` lines and the flush ending the shallows, otherwise the acknowledgement section; moves forward only |
| `UploadResp.ShallowSection` | uploadresp.go:127-142 | `shallow` lines, otherwise the unshallow section; moves forward only |
| `UploadResp.Step` | uploadresp.go:110-224 | the state never moves back and every chunk moves it to the chunk's section; `PACK` reports nothing and moves to the pack section; flush ends the shallows up to the unshallow section and the request later; in Begin exactly the packets that open a response are accepted; a delimiter is always unexpected |
| `UploadResp.PrefixedLinesSplit` | uploadresp.go:130-133 | a `shallow `, `unshallow ` or `ACK ` line always splits into at least two fields, so the "cannot split" errors never occur |
| `UploadResp.UploadResponse.constructor` | uploadresp.go:91-93 | a new parser is in Begin with no error and no chunk, over a fresh scanner of the input |
| `UploadResp.UploadResponse.Scan` | uploadresp.go:110-227 | after an error or at the end it returns false and changes nothing; otherwise the fields, the result and the reported chunks are one `Step`; the reported chunks stay in section order |
| `UploadResp.UploadResponse.ScanPacket` | uploadresp.go:126-224 | the fallthrough from section to section for one scanned packet, leaving `Chunk` unchanged on `PACK`, as `Step` says |
| `UploadResp.UploadResponse.ScanShallowSection` | uploadresp.go:127-142 | the shallow case and its fallthrough: the fields and the result are those `ShallowSection` gives |
| `UploadResp.UploadResponse.ScanUnshallowSection` | uploadresp.go:143-165 | the unshallow case and its fallthrough: the fields and the result are those `UnshallowSection` gives |
| `UploadResp.UploadResponse.ScanAckSection` | uploadresp.go:166-197 | the acknowledgement case and its fallthrough: the fields and the result are those `AckSection` gives |
| `UploadResp.UploadResponse.ScanPackSection` | uploadresp.go:198-224 | the pack case: the fields and the result are those `PackSection` gives, and `PACK` leaves `Chunk` unchanged |
| `UploadResp.InOrderSnoc` | uploadresp.go:126-224 | a chunk that moves the state forward to its own section keeps the reported chunks in section order |
| `UploadResp.RunInOrder` | uploadresp.go:25-35 | over any run the state never moves back, and the chunks come in section order, none before the starting section and none past the final state |
| `UploadResp.ScanShallowLine` | uploadresp.go:127-140 | a `shallow ` line in Begin or among the shallows gives the id after the first space, without its newline; later it is pack data |
| `UploadResp.ScanUnshallowLine` | uploadresp.go:143-156 | an `unshallow ` line up to the unshallows gives the id after the first space, without its newline; later it is pack data |
| `UploadResp.AckSplit` | uploadresp.go:169-177 | an `ACK ` line splits into the id up to the next space and the rest as the detail, or just the id when there is no space |
| `UploadResp.ScanAckLine` | uploadresp.go:166-184 | an `ACK ` line up to the acknowledgements gives the id and the detail (empty without a second space); in the pack section it is pack data |
| `UploadResp.ScanNakLine` | uploadresp.go:185-191 | `NAK\n` up to the acknowledgements is the NAK and moves to the pack section; in the pack section it is data |
| `UploadResp.ScanOtherLine` | uploadresp.go:193-211 | any other data line is unexpected in Begin and pack data everywhere else |
| `UploadResp.EncodedFramed` | uploadresp.go:52-78 | a well-formed chunk encodes to a packet the scanner reads back as itself |
| `UploadResp.ParseEncodedShallow` | uploadresp.go:127-140 | an encoded shallow line is read back as the same id in Begin or among the shallows |
| `UploadResp.ParseEncodedUnshallow` | uploadresp.go:143-156 | an encoded unshallow line is read back as the same id up to the unshallows |
| `UploadResp.ParseEncodedAck` | uploadresp.go:166-184 | an encoded ACK whose id has no space is read back as the same id and detail |
| `UploadResp.ParseEncodedBareAck` | uploadresp.go:166-184 | an encoded `ACK <id>` line is read back as the same id with an empty detail |
| `UploadResp.ParseEncodedDetailedAck` | uploadresp.go:166-184 | an encoded `ACK <id> <detail>` line is read back as the same id and detail |
| `UploadResp.ParseEncodedPack` | uploadresp.go:206-211 | encoded pack data is read back as itself wherever pack data may come |
| `UploadResp.ParseEncoded` | uploadresp.go:126-224 | the encoding of a well-formed chunk is read back as that chunk, from every state where the order allows it |
| `UploadResp.ToPackets` | uploadresp.go:52-78 | one packet per chunk, each the packet that chunk's encoder writes |
| `UploadResp.RunCons` | uploadresp.go:110-227 | a run whose first outcome reports c reports c, then what the rest of the run reports |
| `UploadResp.RunOfPackets` | uploadresp.go:110-227 | the packets of chunks that finish a response are read back as those chunks, ending in End with no error |
| `UploadResp.ParseEncodedResponse` | uploadresp.go:110-227 | a complete response, encoded and followed by any bytes, is read back as the same chunks, ending in End with no error |
| `UploadResp.RemoteErrorDroppedAsWritten` | uploadresp.go:114-123 | for a response that is just the peer's `ERR` packet, the scanner stops with the remote error; as written the parser then reports no error, corrected it reports the remote error |

`Err`, `Chunk` and `Packet` are plain field reads in every class
(`Current` stands for the scanner's `Packet`). The `Scan` contracts state
what they return.

## Left out

- `bufio.Scanner` and `io.Reader`. The input is one `seq<byte>` read
  through a cursor. The scanner looks at all the unread input, where Go
  sees a partial buffer; `PktLine.NextPacketStable` shows this changes
  nothing in framed mode. Running out of bytes mid-frame ends the scan with
  no error, which is the split function's "need more" at the end of input.
- The size of raw pack-file chunks depends on Go's buffering. Here the whole
  remaining input is one chunk.
- bufio's 64 KiB token cap and its panic on repeated empty reads.
- Error message texts built with `fmt`. Errors are modelled by kind, and
  the syntax errors by reason; "early EOF" is the `EarlyEOF` reason.
- Frames of length 2 or 3 (headers `0002` and `0003`). Go slices past their
  end and panics; here they are a `TruncatedFrame` error.
- Tokens of 5 to 7 bytes. Go compares bytes past the token's end against
  `ERR `; here the test is only made on tokens of at least 8 bytes.
- The unused `PackRepo` field. The `Argument` slice aliasing the scan
  buffer: arguments are immutable sequences.
- The encoders' panics are preconditions (`Encodable`). The parsers'
  "impossible state" panic cannot happen: the states are a datatype, and
  `Scan` stops in End.
- Pack-file contents are opaque.
- A few line shapes are outside the round-trip lemmas (`WellFormed`)
  because the encoder writes them back differently:
  - capabilities, arguments and pack data starting with `ERR `;
  - pack data that looks like a shallow, unshallow, ACK or NAK line (outside
    the pack section);
  - the `Blank` chunks from lines with an empty value.
- The scanner's position after an error cannot be observed through the Go
  API. The model advances it past the rejected token and never reads it
  again.

## Findings

| source | as written | input that shows it | evidently intended | confidence | as-written member | corrected member |
|---|---|---|---|---|---|---|
| token.go:68-75 | the error encoder aborts only when `ERR ` + message exceeds 0xFFFF bytes, so a header of length + 4 can need five hex digits | a message of 0xFFF8 bytes: the header is `10000`, and the scanner reads a 4096-byte frame `1000` + `0ERR …` as data, not as the remote error | the data encoder's bound, leaving four bytes for the header | high; not executed | `PktLine.EncodeErrorAsWritten`, `PktLine.ErrorHeaderOverflow` | `PktLine.EncodeToPktLine`, `PktLine.ScanEncodedError` |
| uploadresp.go:114-123 | when the scanner stops, only "early EOF" is ever set; the scanner's own error is never copied into `err` | a response that is only the peer's `ERR <m>` packet: `Scan` returns false and `Err()` is nil | report the scanner's error, as the doc comments at uploadresp.go:95-96 and 106-109 say and as receiveresp.go:94 and v2/req.go:102 do | high; not executed | `UploadResp.StopAsWritten`, `UploadResp.RemoteErrorDroppedAsWritten` | `UploadResp.Stop`, `UploadResp.UploadResponse.Scan` |
