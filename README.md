# QVTP transfer core in Dafny

QVTP moves video files between a client and a server. Every message is a
*Datagram*: a type (REQUEST, RESPONSE, DATA, ACK, ERROR), a message text, and
for REQUEST, RESPONSE and DATA also a filename, a file size, a transaction id,
a sequence number, a payload and an MD5 checksum of the payload. This project
models three pieces of the protocol core and proves properties of them:

- the Datagram codec of `pdu.py`;
- the server of `video_server.py`: request classification, the upload
  receive loop and the download sender;
- the client of `video_client.py`: the upload and download drivers, and the
  dispatch on the download flag.

The connection is reduced to two sequences. `conn.receive()` takes the next
`StreamEvent(streamId, data, endStream)` from an input sequence and raises
`TransportClosed` when the sequence is empty. `conn.send(e)` appends `e` to an
output log. `new_stream()` hands out 0, 1, 2, … (common.py:15-19). Files are a
map from path to bytes: opening for reading is a lookup, `open(...,'wb')` sets
the entry to the empty sequence, and `f.write` appends to it.

Modules, one per file:

| module | file | what it holds |
|---|---|---|
| `Base` | base.dfy | bytes, `Result`/`Option`, Python slicing (`Prefix`, `Skip`, `Slice`), `Flatten` |
| `Struct` | struct.dfy | `struct.pack('!I')`/`('!Q')` and the matching unpack, with the range errors |
| `Utf8` | utf8.dfy | strict UTF-8 encoding and decoding of `str`, with both round trips |
| `Pdu` | pdu.dfy | constants, `Fields` (a Datagram's value), `Encode`/`Decode`, class `Datagram` with `to_bytes`, `from_bytes` (index cursor) and `calculate_checksum` |
| `PduProperties` | pdu_properties.dfy | layout, lengths, round trip, and where the codec is not symmetric |
| `Transport` | transport.dfy | classes `Connection` and `Disk` |
| `Chunking` | chunking.dfy | the 10 KiB chunking rule and the sending loop that both sides share |
| `VideoServer` | server.dfy | the server: each handler as a function on values and as a method that follows the source statement by statement |
| `ServerProperties` | server_properties.dfy | what the server's handlers guarantee |
| `VideoClient` | client.dfy | the client, in the same dual form |
| `ClientProperties` | client_properties.dfy | what the client's drivers guarantee |
| `Transfer` | transfer.dfy | client and server put together: uploads and downloads end to end |

Every imperative routine of the source is a method that changes a
`Connection`, a `Disk` or a `Datagram`. Each one is proved equal to a
specification function of the old state, and the guarantees are lemmas about
those functions. `md5` is a parameter of type `seq<byte> -> string`. Where a
proof needs the digest's shape, it assumes `IsMd5Like(md5)`: every digest is
32 lowercase hexadecimal characters.

The model follows what the code does, including these behaviours:

- `from_bytes` does not reject a payload whose declared length runs past the
  end of the buffer. Python's slice truncates the payload and the checksum
  comes out empty (`TruncatedPayloadAccepted`).
- `from_bytes` always reads the extended section, whatever the type, so an
  ACK or ERROR that `to_bytes` produced can never be decoded
  (`ShortTypesUndecodable`).
- The server replies on `initial_msg.transaction_id`, which the client never
  sets, so every reply goes out on 0 and not on the REQUEST's stream. Only the
  "Invalid request" ERROR goes out on the incoming stream id
  (`HandleInvalidRequest`).
- A first reply that is not a RESPONSE makes both client drivers return
  normally, without raising.
- The server's loop runs the handlers one after another on a single event
  sequence, not one handler per stream. An exception in a handler, or a first
  message that does not decode, ends the whole loop (`Serve`, `ServeFrom`).
- The upload loop does not check the DATA type. It skips empty events. It
  stops at the first datagram that does not decode (`ReceiveStops`).
- A REQUEST with `filesize == 0` is a download, including the REQUEST for an
  empty file.
- The client's download loop has no `try`. A missing event or one that does
  not decode raises, and the partially written file stays
  (`ReceiveFileEnds`). That includes the server's own "File not found" ERROR
  (`MissingFileSession`).
- In `upload_video`, a failed `open` raises before `new_stream`. `to_bytes`
  of the REQUEST runs after `new_stream`. Only the first `receive` is guarded.
  The server's ACK is never read.
- Both sending loops raise `struct.error` at the first sequence number that
  does not fit in 32 bits (`SendFileOverflow`).

## Model

| member | source | states |
|---|---|---|
| Base.Prefix | pdu.py:36 | `s[:n]` has length `min(n, len(s))`, is always a prefix of `s`, and is the first `n` elements when they exist (the whole of `s` otherwise) |
| Base.Skip | pdu.py:52 | `s[n:]` is what follows `s[:n]`, so the two put back together give `s` |
| Base.Slice | pdu.py:50 | `s[lo:hi]` is `s[lo:][:hi-lo]` |
| Struct.Pack32 | pdu.py:22 | `struct.pack('!I', x)` succeeds exactly when `0 <= x < 2**32`, gives 4 big-endian bytes that `struct.unpack('!I', …)` reads back as `x`, and otherwise raises `struct.error` |
| Struct.Pack64 | pdu.py:25 | `struct.pack('!Q', x)` succeeds exactly when `0 <= x < 2**64`, gives 8 big-endian bytes that `struct.unpack('!Q', …)` reads back as `x`, and otherwise raises `struct.error` |
| Struct.Unpack32 | pdu.py:34 | `struct.unpack('!I', …)` of four bytes is a 32-bit unsigned value |
| Struct.Unpack64 | pdu.py:42 | `struct.unpack('!Q', …)` of eight bytes is a 64-bit unsigned value |
| Struct.Unpack32BE32 | pdu.py:22-35 | unpacking what `'!I'` packed gives the number back |
| Struct.Unpack64BE64 | pdu.py:25-42 | unpacking what `'!Q'` packed gives the number back |
| Utf8.Encode | pdu.py:22-24 | (no contract of its own) `s.encode('utf-8')`; `EncodeLength`, `EncodeAscii` and `DecodeEncode` state its length, its ASCII case and its inverse |
| Utf8.Decode | pdu.py:36 | (no contract of its own) strict `.decode('utf-8')`; `DecodeEncode` and `EncodeDecode` state that it inverts `Encode` in both directions |
| Utf8.EncodeChar | pdu.py:22 | one character encodes to 1 to 4 bytes, and to exactly one byte iff it is ASCII |
| Utf8.DecodeChar | pdu.py:36 | a well-formed sequence decodes to one character and the 1 to 4 bytes it uses |
| Utf8.EncodeLength | pdu.py:22-24 | `len(s.encode('utf-8')) >= len(s)`, with equality iff `s` is ASCII, so the length prefixes (character counts) match the bytes only for ASCII text |
| Utf8.EncodeAscii | pdu.py:22 | ASCII text encodes to one byte per character, each equal to the code point |
| Utf8.DecodeEncodeChar | pdu.py:36 | decoding the encoding of one character gives it back, whatever bytes follow |
| Utf8.DecodeEncode | pdu.py:36 | `s.encode('utf-8').decode('utf-8') == s` for every string |
| Utf8.EncodeDecodeChar | pdu.py:36 | the bytes a decoded character uses are exactly its encoding |
| Utf8.EncodeDecode | pdu.py:36 | every byte string that decodes is the encoding of what it decodes to |
| Pdu.Encode | pdu.py:21-30 | `to_bytes` fails exactly when a packed integer is out of range, and then with `struct.error` |
| Pdu.Decode | pdu.py:32-53 | (no contract of its own) `from_bytes` on values; `RoundTripIff`, `DecodeLength`, `ShortBufferFails`, `ShortTypesUndecodable` and `TruncatedPayloadAccepted` state what it accepts and what it reads |
| Pdu.DecodeFilename | pdu.py:38-41 | (no contract of its own) `from_bytes` from the filename length on; `DecodeFilenameField` states what it reads |
| Pdu.DecodeTail | pdu.py:42-53 | (no contract of its own) `from_bytes` from the file size on; `DecodeTrailer` and `DecodeOwnTrailer` state what it reads |
| Pdu.DecodeText | pdu.py:36 | `.decode('utf-8')` fails only with `UnicodeDecodeError` |
| Pdu.UnpackAt32 | pdu.py:38 | reading `'!I'` at an index succeeds exactly when four bytes are left there, and reads them |
| Pdu.UnpackAt64 | pdu.py:42 | reading `'!Q'` at an index succeeds exactly when eight bytes are left there, and reads them |
| Pdu.Datagram.constructor | pdu.py:11-19 | the new object holds the given fields, with the defaults `filename=""`, `filesize=0`, ids 0, empty data and checksum |
| Pdu.Datagram.ToBytes | pdu.py:21-30 | the concatenation, step by step, equals `Encode` of the object's fields |
| Pdu.Datagram.FromBytes | pdu.py:32-53 | the cursor-driven reading succeeds exactly when `Decode` does, with the same fields in a fresh object or the same error |
| Pdu.Datagram.FromBytesFilename | pdu.py:38-41 | reading on from the filename length agrees with `DecodeFilename` on the rest of the buffer |
| Pdu.Datagram.FromBytesTail | pdu.py:42-53 | reading on from the file size agrees with `DecodeTail` on the rest of the buffer |
| Pdu.Datagram.CalculateChecksum | pdu.py:55-58 | only `checksum` changes, to the digest of `data`, and afterwards `is_checksum_valid` holds |
| PduProperties.EncodeLayout | pdu.py:22 | an encoding starts with the type as 4 big-endian bytes, then the message length as 4 bytes, then the message's UTF-8 bytes |
| PduProperties.EncodeShortLength | pdu.py:22-30 | an ACK or ERROR encodes to the header alone: `8 + len(msg)` bytes for ASCII text |
| PduProperties.EncodeExtendedLength | pdu.py:22-29 | a REQUEST, RESPONSE or DATA encodes to `8+|msg|+4+|filename|+8+4+4+4+|data|+|checksum|` bytes, with the data just before the checksum and the checksum, unprefixed, at the end |
| PduProperties.DecodeHeader | pdu.py:34-37 | decoding a packed type, length and ASCII message reads them and moves on to the filename |
| PduProperties.DecodeFilenameField | pdu.py:38-41 | decoding a packed ASCII filename reads it and moves on to the file size |
| PduProperties.DecodeTrailer | pdu.py:42-53 | the four integers are read back, then the payload is `data_len` bytes (fewer if the buffer ends) and the checksum is the rest |
| PduProperties.DecodeOwnTrailer | pdu.py:42-53 | the tail of an encoding decodes to the fields that produced it |
| PduProperties.RoundTrip | pdu.py:21-53 | `from_bytes(to_bytes(d)) == d` field for field for a REQUEST, RESPONSE or DATA with ASCII text and in-range integers |
| PduProperties.RoundTripIff | pdu.py:21-53 | for those types, with in-range integers, the round trip holds exactly when the message and the filename are ASCII |
| PduProperties.NonAsciiMessageBreaksRoundTrip | pdu.py:22-36 | a non-ASCII message never survives the round trip, whatever the type |
| PduProperties.NonAsciiMessageMisread | pdu.py:22-36 | a decoder given a non-ASCII message never reads that message back |
| PduProperties.MessageMisread | pdu.py:35-36 | when the first `msg_len` bytes after the header do not decode to `msg`, the decoded message is not `msg` |
| PduProperties.ShortPrefixMisread | pdu.py:36 | the first `len(s)` bytes of a non-ASCII `s`'s encoding never decode to `s` |
| PduProperties.DecodedMessage | pdu.py:35-36 | a decoded message is the decoding of exactly the `msg_len` bytes after the header |
| PduProperties.NonAsciiFilenameMisread | pdu.py:24-40 | a non-ASCII filename is never read back |
| PduProperties.NonAsciiFilenameBreaksRoundTrip | pdu.py:24-40 | a non-ASCII filename breaks the round trip even when the message is ASCII |
| PduProperties.ShortTypesUndecodable | pdu.py:23-38 | an encoded ACK or ERROR with ASCII text always fails to decode with `struct.error`, because the filename length is always read |
| PduProperties.DecodeLength | pdu.py:34-52 | a buffer that decodes is exactly 32 bytes plus the UTF-8 lengths of the three texts and the payload's length, and its prefix fields are read from the first 8 bytes |
| PduProperties.ShortBufferFails | pdu.py:34-48 | any buffer shorter than the 32 bytes of fixed-width fields fails to decode |
| PduProperties.TruncatedPayloadAccepted | pdu.py:48-62 | a datagram that declares more payload than it carries decodes, with the truncated payload and an empty checksum that no digest validates |
| Transport.Connection.constructor | video_server.py:119 | a fresh connection has the given events to receive, nothing sent and no stream allocated |
| Transport.Connection.Receive | video_server.py:23 | `receive()` yields the next event and removes it, or fails with `TransportClosed` when none is left; nothing is sent |
| Transport.Connection.Send | video_server.py:12 | `send(e)` appends `e` to the sent events and changes nothing else |
| Transport.Connection.NewStream | common.py:15-19 | `new_stream()` returns the number of streams allocated so far and allocates one more |
| Transport.Disk.constructor | video_client.py:21 | the disk holds the given files |
| Transport.Disk.ReadAll | video_client.py:21-22 | reading a file yields its bytes, or `FileNotFoundError` when it is missing |
| Transport.Disk.Create | video_client.py:81 | `open(path, 'wb')` makes the file empty and leaves the others alone |
| Transport.Disk.Append | video_client.py:88 | `f.write(b)` appends `b` to the open file and leaves the others alone |
| Transport.Parsed | video_server.py:29 | one result per event, and result `k` is what `from_bytes` makes of event `k`'s data |
| Chunking.NumChunks | video_server.py:71-72 | (no contract of its own) `(filesize + chunk_size - 1) // chunk_size`; `ChunksCount` states that it is the number of pieces |
| Chunking.Chunks | video_server.py:75-76 | (no contract of its own) the slices the `for` loop takes; `ChunksCount`, `ChunkSizes`, `FlattenChunks` and `ChunkAt` state their number, sizes, contents and order |
| Chunking.ChunksCount | video_server.py:71-75 | a file of `S` bytes has `ceil(S / 10240)` pieces |
| Chunking.ChunkSizes | video_server.py:75-76 | every piece but the last has exactly 10240 bytes; the last has between 1 and 10240 |
| Chunking.ChunksBounded | video_server.py:76 | no piece is longer than 10240 bytes |
| Chunking.FlattenChunks | video_server.py:75-76 | the pieces put together in order are the file |
| Chunking.ChunksFrom | video_server.py:75-76 | the pieces from the `k`-th on are the pieces of the bytes from offset `10240 k` on |
| Chunking.ChunkAt | video_server.py:76 | piece `k` is `video_data[10240k : 10240k + 10240]` |
| Chunking.DataPackets | video_server.py:77-79 | (no contract of its own) `to_bytes` of each piece's DATA datagram; when these pack is stated by `DataPacketOk`, and what the loop sends from them by `TransmitAll`, `TransmitUntil` and `SendFileShape` |
| Chunking.DataRecord | video_server.py:77-78 | (no contract of its own) the DATA datagram after `calculate_checksum`; `DataRecordDecodes` states that it packs, decodes back to itself and validates |
| Chunking.DataPacketOk | video_server.py:77-79 | a DATA datagram for a piece packs exactly when its sequence number fits in 32 bits, and otherwise raises `struct.error` |
| Chunking.TransmitAll | video_server.py:75-79 | when every packet packs, the loop sends them all, in order, on the stream, and completes |
| Chunking.TransmitUntil | video_server.py:75-79 | the loop raises at the first packet that does not pack, after sending exactly those before it |
| Chunking.Transmit | video_server.py:75-79 | (no contract of its own) the sending loop on packed datagrams; `TransmitAll` and `TransmitUntil` state what it sends and how it ends |
| Chunking.EndOfStream | video_server.py:83 | (no contract of its own) the empty event with `end_stream` set; `SendFileShape` states that it closes every completed transfer |
| Chunking.DataEvent | video_server.py:79 | (no contract of its own) the event carrying one piece's DATA datagram; `SendFileShape` and `DataStreamStep` state what it carries |
| Chunking.SendFile | video_server.py:70-83 | (no contract of its own) the whole send on values; `SendFileShape`, `SendFileAfter` and `SendFileOverflow` state its events and outcome |
| Chunking.SendFileShape | video_server.py:70-83 | for fewer than `2**32` pieces the loop completes after sending `ceil(S/10240)` DATA events (event `k` holds datagram `k+1` with piece `k`) and then one empty end-of-stream event |
| Chunking.SendFileAfter | video_client.py:44-59 | the same shape behind the REQUEST the client sent first |
| Chunking.SendFileOverflow | video_server.py:75-79 | a file of `2**32` or more pieces raises `struct.error` after sending `2**32 - 1` DATA events, and no end-of-stream event is sent |
| Chunking.DataRecordDecodes | video_server.py:77-79 | a DATA datagram numbered within 32 bits packs to a non-empty buffer that decodes back to it, and with an MD5-like digest its checksum is valid |
| Chunking.SendChunks | video_server.py:70-84 | the loop and the end-of-stream send append exactly the events `SendFile` describes, with its outcome |
| Chunking.SendPieces | video_server.py:75-80 | the `for` loop appends exactly the events `Transmit` describes for the file's DATA packets, with its outcome |
| Chunking.SendData | video_server.py:76-79 | one turn builds the DATA datagram, sets its checksum, packs it, and sends it on the stream when it packed |
| Chunking.SendStep | video_server.py:75-76 | the slice the loop takes at `i = 10240 k` is piece `k` and is numbered `k + 1` |
| VideoServer.NoticeWire | pdu.py:22-38 | a notice with ASCII text packs to type, length and the text's bytes, which `from_bytes` cannot read back |
| VideoServer.AckWireEncodes | video_server.py:50-52 | the ACK "Upload complete" is the 23-byte buffer `AckWire`, which does not decode |
| VideoServer.FileNotFoundWireEncodes | video_server.py:86-90 | the ERROR "File not found" is the 22-byte buffer `FileNotFoundWire`, which does not decode |
| VideoServer.InvalidRequestWireEncodes | video_server.py:109-112 | the ERROR "Invalid request" is the 23-byte buffer `InvalidRequestWire`, which does not decode |
| VideoServer.ReceiveChunks | video_server.py:20-46 | the upload loop takes at most the events there are |
| VideoServer.Upload | video_server.py:6-52 | `handle_upload` takes at most the events there are |
| VideoServer.Download | video_server.py:54-90 | `handle_download` takes no events and writes no file |
| VideoServer.Handle | video_server.py:101-112 | the dispatch takes at most the events there are |
| VideoServer.SendResponse | video_server.py:10-12 | the RESPONSE is packed and, when it packs, sent on the transaction id without ending the stream |
| VideoServer.SendNotice | video_server.py:50-52 | an ACK or ERROR always packs and is sent with the given end-of-stream flag |
| VideoServer.SendAck | video_server.py:50-52 | exactly `AckWire` is sent on the transaction id, ending the stream |
| VideoServer.SendFileNotFound | video_server.py:86-90 | exactly `FileNotFoundWire` is sent on the transaction id, without ending the stream |
| VideoServer.SendInvalidRequest | video_server.py:109-112 | exactly `InvalidRequestWire` is sent on the incoming stream id, without ending the stream |
| VideoServer.UploadReplies | video_server.py:6-52 | once the RESPONSE packs, the handler sends it and the ACK, takes what its loop took, and stores the loop's bytes under `received_<filename>` |
| VideoServer.HandleUpload | video_server.py:6-52 | the handler run on a connection and a disk does what `Upload` describes: its outcome, its sends, the events it takes and the files afterwards |
| VideoServer.ReceiveInto | video_server.py:17-46 | the `while True` loop takes the events `ReceiveChunks` takes and leaves the open file holding what it wrote |
| VideoServer.ReceiveOne | video_server.py:21-46 | one turn takes one event, keeps the counters in step with the bytes, and either stops or leaves the rest of the loop to the remaining events |
| VideoServer.AbsorbData | video_server.py:28-41 | a data event that decodes is put through the acceptance rule; one that does not decode stops the loop and changes nothing |
| VideoServer.Accept | video_server.py:30-35 | (no contract of its own) the checksum and sequence check on values; `AcceptRule` and `AcceptKeepsLockstep` state when it writes and what it keeps |
| VideoServer.AcceptChunk | video_server.py:30-41 | the checksum and sequence check writes the chunk and moves the counters exactly as `Accept` says |
| VideoServer.AcceptKeepsLockstep | video_server.py:31-35 | accepting a chunk keeps `total_chunks == last_sequence_num` and `total_size == len(written)`; only an accepted chunk adds its bytes |
| VideoServer.HandleDownload | video_server.py:54-90 | the handler run on a connection and a disk does what `Download` describes: its outcome and its sends |
| VideoServer.Classify | video_server.py:101-109 | (no contract of its own) the three nested tests on the first message; `HandleRoutes`, `HandleIgnores` and `HandleInvalidRequest` state where each outcome leads |
| VideoServer.HandleRequest | video_server.py:100-112 | the dispatch on a decoded first message does what `Handle` describes |
| VideoServer.Serve | video_server.py:92-115 | (no contract of its own) `echo_server_proto` on values; `ServeWritesUploads`, `ServeStep` and `ServeLast` state what it writes and which handlers it runs |
| VideoServer.ServeFrom | video_server.py:100-115 | (no contract of its own) the loop once a first message decoded; `ServeFromWritesUploads` and `ServeDecoded` state what it writes and how it goes on |
| VideoServer.EchoServerProto | video_server.py:92-115 | the whole loop sends exactly what `Serve` describes and leaves the files as `Serve` says |
| VideoServer.ServeOne | video_server.py:94-115 | one turn of the outer loop either ends it or consumes at least one event and leaves the rest to `Serve` |
| VideoServer.ServeDecoded | video_server.py:100-115 | after a first message decodes, the loop either stops, when its handler raised, or goes on with the remaining events |
| ServerProperties.HandleIgnores | video_server.py:101 | a first message that is not a REQUEST produces no output, takes no event and writes nothing |
| ServerProperties.HandleInvalidRequest | video_server.py:109-112 | a REQUEST without a filename gets exactly one ERROR "Invalid request" on its incoming stream, not ending it, and nothing else happens |
| ServerProperties.HandleRoutes | video_server.py:101-108 | a REQUEST with a filename goes to the upload handler when `filesize > 0` and to the download handler otherwise |
| ServerProperties.DecodedRequestPacks | video_server.py:10-12 | the RESPONSE echoing a decoded REQUEST always packs |
| ServerProperties.UploadRaises | video_server.py:10-12 | when the RESPONSE cannot be packed, upload handling raises before sending or writing anything |
| ServerProperties.UploadReplyShape | video_server.py:10-52 | the upload handler sends exactly two events on the transaction id: a RESPONSE echoing filename and filesize, then one ACK "Upload complete" ending the stream; it stores the loop's bytes under `received_<filename>` |
| ServerProperties.AcceptRule | video_server.py:28-35 | a chunk changes the state iff its checksum is valid and it is next in sequence, and then its bytes are appended; an empty checksum never validates |
| ServerProperties.ReceiveSkips | video_server.py:31-43 | an empty event, or a chunk with an invalid checksum or out of order, leaves the bytes and all counters unchanged and the loop goes on |
| ServerProperties.ReceiveLockstep | video_server.py:17-35 | the loop keeps `total_chunks == last_sequence_num` and `total_size == len(written)`, only appends, and never lowers the sequence number |
| ServerProperties.ReceiveStops | video_server.py:25-46 | the loop takes events up to and including the first end-of-stream event or the first datagram that does not decode, or all of them when there is none |
| ServerProperties.Accepted | video_server.py:28-35 | the accepted chunks are numbered on from the last sequence number, one by one, each with a valid checksum |
| ServerProperties.Payloads | video_server.py:32 | (no contract of its own) the data fields of a run of datagrams, in order; `ReceiveWritesAccepted` states that the written file is their concatenation |
| ServerProperties.ReceiveWritesAccepted | video_server.py:28-35 | the written file is the in-order concatenation of the accepted chunks, and both counters grow by one per accepted chunk |
| ServerProperties.DownloadMissing | video_server.py:86-90 | a missing file gets only the ERROR "File not found" on the transaction id, not ending the stream: no RESPONSE and no DATA |
| ServerProperties.DownloadServes | video_server.py:62-83 | a file of `S` bytes gets a RESPONSE with `filesize = S`, then `ceil(S/10240)` DATA events numbered 1..n holding the pieces, then one empty end-of-stream event, all on the transaction id |
| ServerProperties.OnlyUploadsWrittenChains | video_server.py:15-16 | writing only `received_...` files is preserved from one handler to the next |
| ServerProperties.HandleWritesUploads | video_server.py:101-108 | one handler writes at most the `received_<filename>` file |
| ServerProperties.ServeWritesUploads | video_server.py:92-115 | over a whole connection the server removes no file and writes only `received_...` files |
| ServerProperties.ServeFromWritesUploads | video_server.py:100-115 | the same from a decoded first message on |
| VideoClient.Basename | video_client.py:28 | the basename holds no '/', is a suffix of the path, and is either the whole path or preceded by a '/' |
| VideoClient.Upload | video_client.py:17-62 | `upload_video` takes at most the events there are and writes no file |
| VideoClient.UploadAfter | video_client.py:30-60 | once the REQUEST packed, the call takes at most the events there are and leaves the files alone |
| VideoClient.UploadReply | video_client.py:34-60 | the part after the REQUEST takes at most the events there are |
| VideoClient.ReceiveFile | video_client.py:82-91 | the download loop takes at most the events there are |
| VideoClient.Download | video_client.py:64-93 | `download_video` takes at most the events there are |
| VideoClient.UploadVideo | video_client.py:17-62 | the driver run on a connection and a disk does what `Upload` describes: its outcome, its sends, the events it takes and the streams it opens |
| VideoClient.PackRequest | video_client.py:28-30 | the REQUEST object packs to `Encode` of its fields |
| VideoClient.UploadOnceSent | video_client.py:28-60 | once the REQUEST packs, the upload is the REQUEST on the new stream followed by whatever the reply leads to |
| VideoClient.AwaitResponse | video_client.py:34-60 | after the REQUEST, the driver does what `UploadReply` describes |
| VideoClient.DownloadVideo | video_client.py:64-93 | the driver run on a connection and a disk does what `Download` describes, files included |
| VideoClient.ReceiveFileInto | video_client.py:81-91 | the `while True` loop takes the events `ReceiveFile` takes and leaves the output file holding what it wrote |
| VideoClient.ReceiveChunk | video_client.py:83-91 | one turn takes one event, appends the chunk when its checksum is valid, and either ends the loop or leaves the rest to the remaining events |
| VideoClient.Launch | video_client.py:11-15 | (no contract of its own) the dispatch on the flag on values; `EchoClientProto` and `ClientRequestHandler.LaunchQvtp` state that the methods do what it describes |
| VideoClient.EchoClientProto | video_client.py:95-99 | the flag selects the download or the upload driver, with that driver's effects |
| VideoClient.ClientRequestHandler.constructor | video_client.py:8-9 | the handler holds the given connection |
| VideoClient.ClientRequestHandler.LaunchQvtp | video_client.py:11-15 | the same dispatch on the flag, over the handler's connection |
| ClientProperties.UploadMissingFile | video_client.py:21-22 | a missing file raises before a stream is opened or anything is sent |
| ClientProperties.UploadRequestRaises | video_client.py:28-30 | a REQUEST that cannot be packed raises after the stream is opened, with nothing sent |
| ClientProperties.UploadFirstEvent | video_client.py:28-32 | the first thing an upload sends is its REQUEST, on the one new stream |
| ClientProperties.UploadRequest | video_client.py:28 | the upload REQUEST carries `filename = basename(filepath)` and `filesize = len(file)`, and reads back as such when the basename is ASCII |
| ClientProperties.UploadGate | video_client.py:35-44 | DATA and end-of-stream go out only after a first reply that decodes to a RESPONSE; without a reply the call returns normally after the REQUEST |
| ClientProperties.UploadSendsFile | video_client.py:44-59 | after a RESPONSE the client sends the REQUEST and then exactly the events `SendFile` describes, ending normally |
| ClientProperties.DownloadRequest | video_client.py:68 | the download REQUEST names the file with the default `filesize = 0` on the new stream, and reads back as such when the name is ASCII |
| ClientProperties.DownloadNeedsResponse | video_client.py:79-81 | no output file is written unless the first reply decodes to a RESPONSE |
| ClientProperties.ReceiveFileEnds | video_client.py:82-91 | the download loop ends normally exactly at the first end-of-stream event, and otherwise raises `TransportClosed` or the decode error of the first event that does not decode |
| ClientProperties.ReceiveFileWrites | video_client.py:82-91 | the output file is the arrival-order concatenation of the checksum-valid chunks before the event the loop ends at, whatever their sequence numbers |
| Transfer.TransmitData | video_server.py:75-79 | with every number in range, the sending loop sends exactly the DATA events of the pieces and completes |
| Transfer.DataStreamStep | video_server.py:75-83 | a data stream starts with the end-of-stream event when no piece is left, and otherwise with a non-empty DATA event that decodes to the first piece's datagram |
| Transfer.StreamCarries | video_server.py:75-83 | a data stream carries its pieces, one decodable DATA event each, then the end of the stream |
| Transfer.DataRecordValid | pdu.py:55-65 | a DATA datagram whose checksum `calculate_checksum` set passes `is_checksum_valid` |
| Transfer.ServerAcceptsStream | video_server.py:20-46 | the upload loop, carried pieces numbered on from its last sequence number, accepts them all in order, counts them, and stops at the end of the stream |
| Transfer.ClientAcceptsStream | video_client.py:82-91 | the download loop writes every piece it is carried, in order, and ends normally at the end of the stream |
| Transfer.FileAsStream | video_server.py:70-83 | a file as the sender sends it is the data stream of its pieces numbered from 1, and the pieces make up the file |
| Transfer.FileCarried | video_server.py:70-83 | a file as the sender sends it carries its pieces numbered from 1 |
| Transfer.ServerReceivesPieces | video_server.py:17-46 | carried pieces numbered from 1 that make up a file leave the upload loop with the whole file and the counters at the number of pieces and the file's length |
| Transfer.ClientReceivesPieces | video_client.py:81-91 | carried pieces that make up a file leave the download loop with the whole file, ending normally |
| Transfer.ServerReceivesFile | video_server.py:17-46 | fed a file as the client sends it, the upload loop writes exactly that file and stops at its end-of-stream event |
| Transfer.ClientReceivesFile | video_client.py:81-91 | fed a file as the server sends it, the download loop writes exactly that file and ends normally |
| Transfer.UploadHandled | video_server.py:6-52 | given the file as the client sends it, `handle_upload` replies with the RESPONSE and the ACK, takes every event of the transfer and stores the file as `received_<name>` |
| Transfer.ServeStep | video_server.py:94-105 | the outer loop at a first event that decodes runs the handler for it, on the event's stream |
| Transfer.ServeLast | video_server.py:94-115 | a handler that returns normally after taking every remaining event is the last one the loop runs |
| Transfer.ServerServesUpload | video_server.py:92-115 | an upload REQUEST for a non-empty file, followed by the file as the client sends it, gets the RESPONSE and the ACK, and the file is stored as `received_<name>` |
| Transfer.UploadSession | video_client.py:17-62 | an upload end to end: the client sends the REQUEST and the whole file and ends normally; the server, reading exactly that, sends back those replies and stores the file as `received_<basename>` |
| Transfer.ServerServesDownload | video_server.py:54-90 | a download REQUEST for a file the server holds gets the RESPONSE with the file's size and the whole file |
| Transfer.DownloadSession | video_client.py:64-93 | a download end to end: the server answers the client's REQUEST with the RESPONSE and the file, and the client, reading that, ends normally holding the server's copy under the same name |
| Transfer.ServerReportsMissing | video_server.py:86-90 | a download REQUEST for a missing file gets only the ERROR "File not found" |
| Transfer.ClientRejectsReply | video_client.py:75-76 | a first reply that `from_bytes` cannot read makes the download raise after its REQUEST, with nothing written |
| Transfer.MissingFileSession | video_client.py:75-76 | a download of a missing file: the server's ERROR cannot be decoded, so the client raises `struct.error` and writes nothing |
| Transfer.TwentyFiveKiB | video_server.py:71-76 | a 25 KiB file goes out as pieces of 10240, 10240 and 5120 bytes |

## Left out

- video_quic.py is not part of this model: it configures aioquic and dispatches its events.
- qvtp.py is not part of this model: it parses the command line and starts the event loop.
- The connection stub in common.py has no-op `send`/`receive`. The model replaces them with an input sequence and an output log, and keeps only `new_stream`'s counter.
- asyncio scheduling and per-stream concurrency are not modelled. Each handler and driver runs sequentially over one event sequence.
- MD5 itself is not modelled: the digest is a parameter. Lemmas that need a checksum to validate assume only that every digest is 32 lowercase hex characters.
- Pdu.Datagram.CalculateChecksum: validity afterwards is proved only for digests of that shape. An empty digest would not validate.
- Transfer.DataRecordValid: proved under the same assumption about the digest.
- Real file I/O is modelled as a map from paths to bytes. Errors other than a missing file are not modelled: permissions, a directory, a full disk.
- `print` logging is left out. The `num_chunks` it prints is `NumChunks`.
- Only `os.path.basename`'s last-'/' split is modelled, not its platform rules.
- Python's `str.encode`/`bytes.decode` is modelled by a strict UTF-8 codec on code points, which has no surrogates. Lone surrogates in a Python `str` are not modelled.
- VideoServer.EchoServerProto: states what is sent and written, not how many events remain unread when the loop stops.
- The exceptions a handler raises are not modelled beyond `struct.error`, `UnicodeDecodeError`, `FileNotFoundError` and `TransportClosed`. An exception caught by the server's upload loop ends only that loop; one raised in `echo_server_proto`'s body ends the server loop.
