/** Both sides of one transfer put together: what the client sends is what
    the server reads, and the other way round. The server's replies go out
    on the request's transaction id, which the client leaves at 0. */
module Transfer {
  import opened Base
  import opened Struct
  import opened Pdu
  import PduProperties
  import Utf8
  import opened Transport
  import opened Chunking
  import VideoServer
  import VideoClient
  import ServerProperties
  import ClientProperties

  /** Pieces no longer than `ChunkSize` whose numbers all fit in 32 bits. */
  predicate Sendable(chunks: seq<seq<byte>>, first: int)
  {
    0 <= first && first + |chunks| <= Two32 && forall k :: 0 <= k < |chunks| ==> |chunks[k]| <= ChunkSize
  }

  lemma SendableTail(chunks: seq<seq<byte>>, first: int)
    requires Sendable(chunks, first) && chunks != []
    ensures |chunks[0]| <= ChunkSize && FitsU32(first) && Sendable(chunks[1..], first + 1)
  {
    assert forall k :: 0 <= k < |chunks| - 1 ==> chunks[1..][k] == chunks[k + 1];
  }

  /** The DATA event of each piece, numbered from `first`. */
  function DataEvents(sid: int, chunks: seq<seq<byte>>, first: int, md5: Hasher): (r: seq<StreamEvent>)
    requires Sendable(chunks, first)
    ensures |r| == |chunks|
    decreases |chunks|
  {
    if chunks == [] then []
    else
      SendableTail(chunks, first);
      DataPacketOk(first, chunks[0], md5);
      [DataEvent(sid, first, chunks[0], md5)] + DataEvents(sid, chunks[1..], first + 1, md5)
  }

  lemma DataPacketsTail(chunks: seq<seq<byte>>, first: int, md5: Hasher)
    requires chunks != []
    ensures DataPackets(chunks, first, md5)[0] == Encode(DataRecord(first, chunks[0], md5))
    ensures DataPackets(chunks, first, md5)[1..] == DataPackets(chunks[1..], first + 1, md5)
  {
  }

  /** The sending loop sends exactly the DATA events of the pieces when every
      number fits. */
  lemma {:induction false} TransmitData(sid: int, chunks: seq<seq<byte>>, first: int, md5: Hasher)
    requires Sendable(chunks, first)
    ensures Transmit(sid, DataPackets(chunks, first, md5)) == Sending(DataEvents(sid, chunks, first, md5), Done)
    decreases |chunks|
  {
    if chunks != [] {
      SendableTail(chunks, first);
      DataPacketOk(first, chunks[0], md5);
      DataPacketsTail(chunks, first, md5);
      TransmitData(sid, chunks[1..], first + 1, md5);
    }
  }

  /** The DATA events of `chunks` numbered from `first`, then the
      end-of-stream event and whatever follows it. */
  function DataStream(sid: int, chunks: seq<seq<byte>>, first: int, md5: Hasher, rest: seq<StreamEvent>): seq<StreamEvent>
    requires Sendable(chunks, first)
  {
    DataEvents(sid, chunks, first, md5) + [EndOfStream(sid)] + rest
  }

  /** The head of a data stream: the end-of-stream event when no piece is
      left, otherwise a non-empty DATA event that decodes to the first piece's
      datagram, followed by the stream of the remaining pieces. */
  lemma DataStreamStep(sid: int, chunks: seq<seq<byte>>, first: int, md5: Hasher, rest: seq<StreamEvent>)
    requires Sendable(chunks, first)
    ensures var inbox := DataStream(sid, chunks, first, md5, rest);
      && inbox != [] && Parsed(inbox)[1..] == Parsed(inbox[1..])
      && (chunks == [] ==> inbox[0] == EndOfStream(sid) && inbox[1..] == rest)
      && (chunks != [] ==>
            && !inbox[0].endStream && inbox[0].data != []
            && Parsed(inbox)[0] == Ok(DataRecord(first, chunks[0], md5))
            && Sendable(chunks[1..], first + 1)
            && inbox[1..] == DataStream(sid, chunks[1..], first + 1, md5, rest))
  {
    var inbox := DataStream(sid, chunks, first, md5, rest);
    ParsedSuffix(inbox, 1);
    if chunks != [] {
      SendableTail(chunks, first);
      DataRecordDecodes(first, chunks[0], md5);
      var e := DataEvent(sid, first, chunks[0], md5);
      var tail := DataEvents(sid, chunks[1..], first + 1, md5);
      ConcatAssoc([e], tail, [EndOfStream(sid)]);
      ConcatAssoc([e], tail + [EndOfStream(sid)], rest);
      assert inbox == [e] + (tail + [EndOfStream(sid)] + rest);
      assert ([e] + (tail + [EndOfStream(sid)] + rest))[1..] == tail + [EndOfStream(sid)] + rest;
    }
  }

  /** `inbox`, read as `parsed`, holds one non-empty DATA event per piece,
      decoding to that piece's datagram numbered from `first`, and then an
      end-of-stream event. */
  predicate Carries(inbox: seq<StreamEvent>, parsed: seq<Result<Fields>>, chunks: seq<seq<byte>>, first: int, md5: Hasher)
    requires |parsed| == |inbox|
    decreases |chunks|
  {
    if chunks == [] then inbox != [] && inbox[0].endStream
    else
      && inbox != [] && !inbox[0].endStream && inbox[0].data != []
      && parsed[0] == Ok(DataRecord(first, chunks[0], md5))
      && Carries(inbox[1..], parsed[1..], chunks[1..], first + 1, md5)
  }

  /** A data stream carries its pieces. */
  lemma {:induction false} StreamCarries(sid: int, chunks: seq<seq<byte>>, first: int, md5: Hasher, rest: seq<StreamEvent>)
    requires Sendable(chunks, first)
    ensures var inbox := DataStream(sid, chunks, first, md5, rest);
      Carries(inbox, Parsed(inbox), chunks, first, md5)
    decreases |chunks|
  {
    DataStreamStep(sid, chunks, first, md5, rest);
    if chunks != [] {
      StreamCarries(sid, chunks[1..], first + 1, md5, rest);
    }
  }

  /** A DATA datagram built by `calculate_checksum` passes
      `is_checksum_valid` when the digest is an MD5-style hex string. */
  lemma DataRecordValid(sequenceNum: int, chunk: seq<byte>, md5: Hasher)
    requires IsMd5Like(md5)
    ensures DataRecord(sequenceNum, chunk, md5).ChecksumValid(md5)
  {
    assert IsHexDigest(md5(chunk));
  }

  /** The upload loop accepts every piece it is carried whose numbering
      continues from its last sequence number, writes them in order, counts
      them, and stops at the end-of-stream event. */
  lemma {:induction false} ServerAcceptsStream(inbox: seq<StreamEvent>, parsed: seq<Result<Fields>>, chunks: seq<seq<byte>>,
                                               first: int, md5: Hasher, st: VideoServer.UploadState)
    requires |parsed| == |inbox| && IsMd5Like(md5) && Carries(inbox, parsed, chunks, first, md5) && st.lastSeq == first - 1
    ensures VideoServer.ReceiveChunks(inbox, parsed, st, md5)
        == VideoServer.LoopEnd(VideoServer.UploadState(st.written + Flatten(chunks), st.totalChunks + |chunks|,
                                                       st.totalSize + |Flatten(chunks)|, st.lastSeq + |chunks|),
                               |chunks| + 1)
    decreases |chunks|
  {
    if chunks != [] {
      var dm := DataRecord(first, chunks[0], md5);
      DataRecordValid(first, chunks[0], md5);
      var next := VideoServer.Accept(st, dm, md5);
      assert next == VideoServer.UploadState(st.written + chunks[0], st.totalChunks + 1, st.totalSize + |chunks[0]|, first);
      ServerAcceptsStream(inbox[1..], parsed[1..], chunks[1..], first + 1, md5, next);
      ConcatAssoc(st.written, chunks[0], Flatten(chunks[1..]));
    }
  }

  /** The download loop writes every piece it is carried, in order, and ends
      normally at the end-of-stream event. */
  lemma {:induction false} ClientAcceptsStream(inbox: seq<StreamEvent>, parsed: seq<Result<Fields>>, chunks: seq<seq<byte>>,
                                               first: int, md5: Hasher, written: seq<byte>)
    requires |parsed| == |inbox| && IsMd5Like(md5) && Carries(inbox, parsed, chunks, first, md5)
    ensures VideoClient.ReceiveFile(inbox, parsed, written, md5)
        == VideoClient.FileLoop(Done, written + Flatten(chunks), |chunks| + 1)
    decreases |chunks|
  {
    if chunks != [] {
      DataRecordValid(first, chunks[0], md5);
      ClientAcceptsStream(inbox[1..], parsed[1..], chunks[1..], first + 1, md5, written + chunks[0]);
      ConcatAssoc(written, chunks[0], Flatten(chunks[1..]));
    }
  }

  /** A whole file sent by `SendFile` is the data stream of its pieces
      numbered from 1, and those pieces put together are the file. */
  lemma FileAsStream(sid: int, video: seq<byte>, md5: Hasher, rest: seq<StreamEvent>)
    requires NumChunks(|video|) < Two32
    ensures Sendable(Chunks(video), 1) && |Chunks(video)| == NumChunks(|video|)
    ensures SendFile(sid, video, md5).events + rest == DataStream(sid, Chunks(video), 1, md5, rest)
    ensures Flatten(Chunks(video)) == video
  {
    ChunksCount(video);
    ChunksBounded(video);
    FlattenChunks(video);
    TransmitData(sid, Chunks(video), 1, md5);
  }

  /** A file as `SendFile` sends it carries the file's pieces numbered from 1. */
  lemma FileCarried(sid: int, video: seq<byte>, md5: Hasher, rest: seq<StreamEvent>)
    requires NumChunks(|video|) < Two32
    ensures |Chunks(video)| == NumChunks(|video|) && Flatten(Chunks(video)) == video
    ensures var inbox := SendFile(sid, video, md5).events + rest;
      Carries(inbox, Parsed(inbox), Chunks(video), 1, md5)
  {
    FileAsStream(sid, video, md5, rest);
    StreamCarries(sid, Chunks(video), 1, md5, rest);
  }

  /** The upload loop, carried pieces numbered from 1, writes them all. */
  lemma ServerReceivesPieces(inbox: seq<StreamEvent>, parsed: seq<Result<Fields>>, chunks: seq<seq<byte>>,
                             video: seq<byte>, md5: Hasher)
    requires |parsed| == |inbox| && IsMd5Like(md5) && Carries(inbox, parsed, chunks, 1, md5) && Flatten(chunks) == video
    ensures VideoServer.ReceiveChunks(inbox, parsed, VideoServer.Start, md5)
      == VideoServer.LoopEnd(VideoServer.UploadState(video, |chunks|, |video|, |chunks|), |chunks| + 1)
  {
    ServerAcceptsStream(inbox, parsed, chunks, 1, md5, VideoServer.Start);
    assert VideoServer.Start.written + video == video;
  }

  /** The download loop, carried pieces numbered from 1, writes them all. */
  lemma ClientReceivesPieces(inbox: seq<StreamEvent>, parsed: seq<Result<Fields>>, chunks: seq<seq<byte>>,
                             video: seq<byte>, md5: Hasher)
    requires |parsed| == |inbox| && IsMd5Like(md5) && Carries(inbox, parsed, chunks, 1, md5) && Flatten(chunks) == video
    ensures VideoClient.ReceiveFile(inbox, parsed, [], md5) == VideoClient.FileLoop(Done, video, |chunks| + 1)
  {
    ClientAcceptsStream(inbox, parsed, chunks, 1, md5, []);
    assert [] + video == video;
  }

  /** The upload loop of the server, fed a file as the client sends it,
      writes exactly that file and stops at its end-of-stream event, with the
      counters at the number of pieces and the file's length. */
  lemma ServerReceivesFile(sid: int, video: seq<byte>, md5: Hasher, rest: seq<StreamEvent>)
    requires IsMd5Like(md5) && NumChunks(|video|) < Two32
    ensures var inbox := SendFile(sid, video, md5).events + rest;
      var n := NumChunks(|video|);
      VideoServer.ReceiveChunks(inbox, Parsed(inbox), VideoServer.Start, md5)
        == VideoServer.LoopEnd(VideoServer.UploadState(video, n, |video|, n), n + 1)
  {
    var inbox := SendFile(sid, video, md5).events + rest;
    FileCarried(sid, video, md5, rest);
    ServerReceivesPieces(inbox, Parsed(inbox), Chunks(video), video, md5);
  }

  /** The download loop of the client, fed a file as the server sends it,
      writes exactly that file and ends normally at its end-of-stream event. */
  lemma ClientReceivesFile(sid: int, video: seq<byte>, md5: Hasher, rest: seq<StreamEvent>)
    requires IsMd5Like(md5) && NumChunks(|video|) < Two32
    ensures var inbox := SendFile(sid, video, md5).events + rest;
      VideoClient.ReceiveFile(inbox, Parsed(inbox), [], md5)
        == VideoClient.FileLoop(Done, video, NumChunks(|video|) + 1)
  {
    var inbox := SendFile(sid, video, md5).events + rest;
    FileCarried(sid, video, md5, rest);
    ClientReceivesPieces(inbox, Parsed(inbox), Chunks(video), video, md5);
  }

  /** The RESPONSE the server sends for a file `name` of `size` bytes. */
  function ResponseEvent(name: string, size: int): StreamEvent
    requires Encodable(VideoServer.ResponseRecord(name, size))
  {
    StreamEvent(0, Encode(VideoServer.ResponseRecord(name, size)).value, false)
  }

  /** A REQUEST event as the client sends it on stream `sid`. */
  function RequestEvent(sid: int, name: string, size: int): StreamEvent
    requires Encodable(VideoClient.RequestRecord(name, size))
  {
    StreamEvent(sid, Encode(VideoClient.RequestRecord(name, size)).value, false)
  }

  /** `handle_upload`, given the file as the client sends it, replies with
      the RESPONSE and the ACK, takes every event of the transfer and stores
      the file as `received_<name>`. */
  lemma UploadHandled(sid: int, name: string, video: seq<byte>, serverFiles: FileStore, md5: Hasher)
    requires IsMd5Like(md5) && Encodable(VideoServer.ResponseRecord(name, |video|)) && NumChunks(|video|) < Two32
    ensures var events := SendFile(sid, video, md5).events;
      && |events| == NumChunks(|video|) + 1
      && VideoServer.Upload(VideoClient.RequestRecord(name, |video|), events, serverFiles, md5)
           == VideoServer.Handled(Done, [ResponseEvent(name, |video|), StreamEvent(0, VideoServer.AckWire, true)],
                                  |events|, serverFiles[VideoServer.ReceivedPrefix + name := video])
  {
    var events := SendFile(sid, video, md5).events;
    SendFileShape(sid, video, md5);
    VideoServer.UploadReplies(VideoClient.RequestRecord(name, |video|), events, serverFiles, md5, ResponseEvent(name, |video|).data);
    ServerReceivesFile(sid, video, md5, []);
    assert events + [] == events;
  }

  /** `echo_server_proto` at a first event that decodes. */
  lemma ServeStep(inbox: seq<StreamEvent>, files: FileStore, md5: Hasher)
    requires inbox != [] && Decode(inbox[0].data).Ok?
    ensures VideoServer.Serve(inbox, files, md5)
      == VideoServer.ServeFrom(Decode(inbox[0].data).value, inbox[0].streamId, inbox[1..], files, md5)
  {
  }

  /** A handler that returns normally after taking every remaining event is
      the last one the server runs. */
  lemma ServeLast(m: Fields, sid: int, inbox: seq<StreamEvent>, files: FileStore, md5: Hasher)
    requires var h := VideoServer.Handle(m, sid, inbox, files, md5); h.outcome == Done && h.consumed == |inbox|
    ensures var h := VideoServer.Handle(m, sid, inbox, files, md5);
      VideoServer.ServeFrom(m, sid, inbox, files, md5) == VideoServer.ServerRun(h.sent, h.files)
  {
    var h := VideoServer.Handle(m, sid, inbox, files, md5);
    assert inbox[h.consumed..] == [];
    assert h.sent + [] == h.sent;
  }

  /** The server, given an upload REQUEST for a non-empty file followed by
      the file as the client sends it, answers with the RESPONSE and the ACK
      and stores the file as `received_<name>`. */
  lemma ServerServesUpload(sid: int, name: string, video: seq<byte>, serverFiles: FileStore, md5: Hasher)
    requires IsMd5Like(md5) && name != [] && Utf8.IsAscii(name) && video != []
    requires Encodable(VideoClient.RequestRecord(name, |video|)) && NumChunks(|video|) < Two32
    ensures Encodable(VideoServer.ResponseRecord(name, |video|))
    ensures VideoServer.Serve([RequestEvent(sid, name, |video|)] + SendFile(sid, video, md5).events, serverFiles, md5)
      == VideoServer.ServerRun([ResponseEvent(name, |video|), StreamEvent(0, VideoServer.AckWire, true)],
                               serverFiles[VideoServer.ReceivedPrefix + name := video])
  {
    var request := VideoClient.RequestRecord(name, |video|);
    assert PduProperties.AsciiText(request);
    PduProperties.RoundTrip(request);
    var events := SendFile(sid, video, md5).events;
    var inbox := [RequestEvent(sid, name, |video|)] + events;
    assert inbox[0] == RequestEvent(sid, name, |video|) && inbox[1..] == events;
    ServeStep(inbox, serverFiles, md5);
    ServerProperties.HandleRoutes(request, sid, events, serverFiles, md5);
    UploadHandled(sid, name, video, serverFiles, md5);
    ServeLast(request, sid, events, serverFiles, md5);
  }

  /** An upload end to end: when the server's replies are what it sends for
      that upload, the client sends the REQUEST and the whole file and ends
      normally, and the server, reading what the client sent, sends exactly
      those replies and stores the file as `received_<basename>`. The client
      leaves the ACK unread. */
  lemma UploadSession(filepath: string, clientFiles: FileStore, serverFiles: FileStore, sid: int, md5: Hasher)
    requires IsMd5Like(md5) && filepath in clientFiles
    requires var name := VideoClient.Basename(filepath);
      var video := clientFiles[filepath];
      && name != [] && Utf8.IsAscii(name) && video != []
      && Encodable(VideoClient.RequestRecord(name, |video|)) && NumChunks(|video|) < Two32
    ensures var name := VideoClient.Basename(filepath);
      var video := clientFiles[filepath];
      Encodable(VideoServer.ResponseRecord(name, |video|)) &&
      var replies := [ResponseEvent(name, |video|), StreamEvent(0, VideoServer.AckWire, true)];
      var c := VideoClient.Upload(filepath, clientFiles, replies, sid, md5);
      && c.outcome == Done && c.consumed == 1 && c.files == clientFiles
      && VideoServer.Serve(c.sent, serverFiles, md5)
           == VideoServer.ServerRun(replies, serverFiles[VideoServer.ReceivedPrefix + name := video])
  {
    var name := VideoClient.Basename(filepath);
    var video := clientFiles[filepath];
    ServerServesUpload(sid, name, video, serverFiles, md5);
    var response := VideoServer.ResponseRecord(name, |video|);
    assert PduProperties.AsciiText(response);
    PduProperties.RoundTrip(response);
    var replies := [ResponseEvent(name, |video|), StreamEvent(0, VideoServer.AckWire, true)];
    ClientProperties.UploadSendsFile(filepath, clientFiles, replies, sid, md5);
  }

  /** The server, given a download REQUEST for a file it holds, sends the
      RESPONSE with the file's size and then the whole file. */
  lemma ServerServesDownload(sid: int, name: string, serverFiles: FileStore, md5: Hasher)
    requires name in serverFiles && name != [] && Utf8.IsAscii(name)
    requires Encodable(VideoClient.RequestRecord(name, 0)) && Encodable(VideoServer.ResponseRecord(name, |serverFiles[name]|))
    ensures VideoServer.Serve([RequestEvent(sid, name, 0)], serverFiles, md5)
      == VideoServer.ServerRun([ResponseEvent(name, |serverFiles[name]|)] + SendFile(0, serverFiles[name], md5).events,
                               serverFiles)
  {
    var request := VideoClient.RequestRecord(name, 0);
    assert PduProperties.AsciiText(request);
    PduProperties.RoundTrip(request);
    ServerProperties.HandleRoutes(request, sid, [], serverFiles, md5);
  }

  /** A download end to end: the server, reading the client's REQUEST, sends
      the RESPONSE and the file; the client, reading those replies, ends
      normally with the server's copy of the file stored under its name. */
  lemma DownloadSession(name: string, clientFiles: FileStore, serverFiles: FileStore, sid: int, md5: Hasher)
    requires IsMd5Like(md5) && name in serverFiles && name != [] && Utf8.IsAscii(name)
    requires Encodable(VideoClient.RequestRecord(name, 0)) && Encodable(VideoServer.ResponseRecord(name, |serverFiles[name]|))
    requires NumChunks(|serverFiles[name]|) < Two32
    ensures var video := serverFiles[name];
      var replies := [ResponseEvent(name, |video|)] + SendFile(0, video, md5).events;
      var d := VideoClient.Download(name, clientFiles, replies, sid, md5);
      && d.outcome == Done && d.consumed == |replies| && d.files == clientFiles[name := video]
      && VideoServer.Serve(d.sent, serverFiles, md5) == VideoServer.ServerRun(replies, serverFiles)
  {
    var video := serverFiles[name];
    var events := SendFile(0, video, md5).events;
    var replies := [ResponseEvent(name, |video|)] + events;
    ServerServesDownload(sid, name, serverFiles, md5);
    var response := VideoServer.ResponseRecord(name, |video|);
    assert PduProperties.AsciiText(response);
    PduProperties.RoundTrip(response);
    assert replies[0] == ResponseEvent(name, |video|) && replies[1..] == events + [];
    ClientReceivesFile(0, video, md5, []);
    SendFileShape(0, video, md5);
  }

  /** The server, given a download REQUEST for a file it does not hold,
      sends only its ERROR "File not found". */
  lemma ServerReportsMissing(sid: int, name: string, serverFiles: FileStore, md5: Hasher)
    requires name !in serverFiles && name != [] && Utf8.IsAscii(name) && Encodable(VideoClient.RequestRecord(name, 0))
    ensures VideoServer.Serve([RequestEvent(sid, name, 0)], serverFiles, md5)
      == VideoServer.ServerRun([StreamEvent(0, VideoServer.FileNotFoundWire, false)], serverFiles)
  {
    var request := VideoClient.RequestRecord(name, 0);
    assert PduProperties.AsciiText(request);
    PduProperties.RoundTrip(request);
    ServerProperties.HandleRoutes(request, sid, [], serverFiles, md5);
  }

  /** A first reply that `from_bytes` cannot read makes the download raise
      after its REQUEST, with nothing written. */
  lemma ClientRejectsReply(name: string, clientFiles: FileStore, inbox: seq<StreamEvent>, sid: int, md5: Hasher)
    requires Encodable(VideoClient.RequestRecord(name, 0)) && inbox != [] && Decode(inbox[0].data) == Err(StructError)
    ensures VideoClient.Download(name, clientFiles, inbox, sid, md5)
      == VideoClient.ClientRun(Raised(StructError), [RequestEvent(sid, name, 0)], 1, 1, clientFiles)
  {
  }

  /** A download of a file the server does not hold: the server sends its
      ERROR "File not found", which `from_bytes` cannot read (it always
      expects the extended section), so the client raises `struct.error`
      and writes nothing. */
  lemma MissingFileSession(name: string, clientFiles: FileStore, serverFiles: FileStore, sid: int, md5: Hasher)
    requires name !in serverFiles && name != [] && Encodable(VideoClient.RequestRecord(name, 0)) && Utf8.IsAscii(name)
    ensures var replies := [StreamEvent(0, VideoServer.FileNotFoundWire, false)];
      var d := VideoClient.Download(name, clientFiles, replies, sid, md5);
      && d.outcome == Raised(StructError) && d.files == clientFiles
      && VideoServer.Serve(d.sent, serverFiles, md5) == VideoServer.ServerRun(replies, serverFiles)
  {
    VideoServer.FileNotFoundWireEncodes();
    ClientRejectsReply(name, clientFiles, [StreamEvent(0, VideoServer.FileNotFoundWire, false)], sid, md5);
    ServerReportsMissing(sid, name, serverFiles, md5);
  }

  /** A 25 KiB file goes out as two full pieces of 10240 bytes and one of 5120. */
  lemma TwentyFiveKiB(video: seq<byte>)
    requires |video| == 25 * 1024
    ensures |Chunks(video)| == 3
    ensures |Chunks(video)[0]| == 10240 && |Chunks(video)[1]| == 10240 && |Chunks(video)[2]| == 5120
  {
    var rest1 := Skip(video, ChunkSize);
    var rest2 := Skip(rest1, ChunkSize);
    var rest3 := Skip(rest2, ChunkSize);
    assert |rest1| == 15360 && |rest2| == 5120 && rest3 == [];
    assert Chunks(rest2) == [Prefix(rest2, ChunkSize)];
    assert Chunks(rest1) == [Prefix(rest1, ChunkSize)] + Chunks(rest2);
  }
}
