/** The server side of a transfer (video_server.py): request classification,
    the upload receive loop and the download sender, each as a specification
    on values and as the handler that follows it step by step. */
module VideoServer {
  import opened Base
  import opened Struct
  import opened Pdu
  import opened Transport
  import opened Chunking
  import Utf8
  import PduProperties

  /** The RESPONSE that acknowledges a request, echoing its filename and a size. */
  function ResponseRecord(filename: string, filesize: int): Fields
  {
    Fields(MsgTypeResponse, "", filename, filesize, 0, 0, [], "")
  }

  /** An ACK or ERROR datagram: only the type and the message are set. */
  function NoticeRecord(mtype: int, text: string): Fields
  {
    Fields(mtype, text, "", 0, 0, 0, [], "")
  }

  /** An upload is stored under its filename with this prefix. */
  const ReceivedPrefix: string := "received_"

  const UploadComplete: string := "Upload complete"
  const FileNotFound: string := "File not found"
  const InvalidRequestText: string := "Invalid request"

  /** The three notices on the wire: type, text length, then the ASCII text. */
  const AckWire: seq<byte> :=
    [0, 0, 0, 4, 0, 0, 0, 15, 85, 112, 108, 111, 97, 100, 32, 99, 111, 109, 112, 108, 101, 116, 101]
  const FileNotFoundWire: seq<byte> :=
    [0, 0, 0, 5, 0, 0, 0, 14, 70, 105, 108, 101, 32, 110, 111, 116, 32, 102, 111, 117, 110, 100]
  const InvalidRequestWire: seq<byte> :=
    [0, 0, 0, 5, 0, 0, 0, 15, 73, 110, 118, 97, 108, 105, 100, 32, 114, 101, 113, 117, 101, 115, 116]

  /** A notice whose text is ASCII packs to its type and length, four bytes
      each, then one byte per character; `from_bytes` cannot read it back,
      since it always expects the extended section. */
  lemma NoticeWire(mtype: int, text: string, wire: seq<byte>)
    requires 0 <= mtype < 256 && !HasExtension(mtype) && |text| < 256 && Utf8.IsAscii(text)
    requires |wire| == 8 + |text| && wire[..8] == [0, 0, 0, mtype, 0, 0, 0, |text|]
    requires forall i :: 0 <= i < |text| ==> wire[8 + i] == text[i] as int
    ensures Encode(NoticeRecord(mtype, text)) == Ok(wire)
    ensures Decode(wire) == Err(StructError)
  {
    Utf8.EncodeAscii(text);
    assert Utf8.Encode(text) == wire[8..];
    assert BE32(mtype) == wire[..4] && BE32(|text|) == wire[4..8];
    assert wire == wire[..4] + (wire[4..8] + wire[8..]);
    PduProperties.ShortTypesUndecodable(NoticeRecord(mtype, text));
  }

  /** `to_bytes` of the ACK the server sends when an upload ends. */
  lemma AckWireEncodes()
    ensures Encode(NoticeRecord(MsgTypeAck, UploadComplete)) == Ok(AckWire)
    ensures Decode(AckWire) == Err(StructError)
  {
    NoticeWire(MsgTypeAck, UploadComplete, AckWire);
  }

  /** `to_bytes` of the ERROR for a missing file. */
  lemma FileNotFoundWireEncodes()
    ensures Encode(NoticeRecord(MsgTypeError, FileNotFound)) == Ok(FileNotFoundWire)
    ensures Decode(FileNotFoundWire) == Err(StructError)
  {
    NoticeWire(MsgTypeError, FileNotFound, FileNotFoundWire);
  }

  /** `to_bytes` of the ERROR for a REQUEST without a filename. */
  lemma InvalidRequestWireEncodes()
    ensures Encode(NoticeRecord(MsgTypeError, InvalidRequestText)) == Ok(InvalidRequestWire)
    ensures Decode(InvalidRequestWire) == Err(StructError)
  {
    NoticeWire(MsgTypeError, InvalidRequestText, InvalidRequestWire);
  }

  /** The upload handler's variables: the bytes written to the open file and
      the three counters. */
  datatype UploadState = UploadState(written: seq<byte>, totalChunks: int, totalSize: int, lastSeq: int)

  const Start: UploadState := UploadState([], 0, 0, 0)

  /** The counters move together: one chunk per sequence number, one byte
      counted per byte written. */
  predicate Lockstep(st: UploadState)
  {
    st.totalChunks == st.lastSeq && st.totalSize == |st.written|
  }

  /** A decoded chunk is written when its checksum is valid and it is the next
      in sequence; otherwise nothing changes. */
  function Accept(st: UploadState, dm: Fields, md5: Hasher): UploadState
  {
    if dm.ChecksumValid(md5) && dm.sequenceNum == st.lastSeq + 1 then
      UploadState(st.written + dm.data, st.totalChunks + 1, st.totalSize + |dm.data|, dm.sequenceNum)
    else st
  }

  /** Where the upload loop stopped: its final state and how many events it
      took from the connection. */
  datatype LoopEnd = LoopEnd(state: UploadState, consumed: nat)

  /** The `while True` loop of `handle_upload` on the events still to arrive,
      `parsed` holding what `from_bytes` makes of each: it stops when no event
      arrives, at the first end-of-stream event (whose data is ignored) and at
      the first datagram that does not decode. */
  function ReceiveChunks(inbox: seq<StreamEvent>, parsed: seq<Result<Fields>>, st: UploadState, md5: Hasher): (r: LoopEnd)
    requires |parsed| == |inbox|
    ensures r.consumed <= |inbox|
    decreases |inbox|
  {
    if inbox == [] then LoopEnd(st, 0)
    else if inbox[0].endStream then LoopEnd(st, 1)
    else if inbox[0].data == [] then
      var r := ReceiveChunks(inbox[1..], parsed[1..], st, md5);
      LoopEnd(r.state, r.consumed + 1)
    else match parsed[0]
      case Err(_) => LoopEnd(st, 1)
      case Ok(dm) =>
        var r := ReceiveChunks(inbox[1..], parsed[1..], Accept(st, dm, md5), md5);
        LoopEnd(r.state, r.consumed + 1)
  }

  /** What one handler did: how it returned, what it sent, how many events
      it took, and the files afterwards. */
  datatype Handled = Handled(outcome: Outcome, sent: seq<StreamEvent>, consumed: nat, files: FileStore)

  /** `handle_upload`: a RESPONSE echoing filename and filesize, the receive
      loop writing `received_<filename>`, then the ACK that closes the stream.
      Replies go out on the request's transaction id. */
  function Upload(init: Fields, inbox: seq<StreamEvent>, files: FileStore, md5: Hasher): (r: Handled)
    ensures r.consumed <= |inbox|
  {
    var tid := init.transactionId;
    match Encode(ResponseRecord(init.filename, init.filesize))
    case Err(e) => Handled(Raised(e), [], 0, files)
    case Ok(response) =>
      var loop := ReceiveChunks(inbox, Parsed(inbox), Start, md5);
      Handled(Done, [StreamEvent(tid, response, false), StreamEvent(tid, AckWire, true)],
              loop.consumed, files[ReceivedPrefix + init.filename := loop.state.written])
  }

  /** `handle_download`: an ERROR when the file is missing; otherwise a
      RESPONSE with the file's size and the whole file as DATA events. */
  function Download(init: Fields, files: FileStore, md5: Hasher): (r: Handled)
    ensures r.consumed == 0 && r.files == files
  {
    var tid := init.transactionId;
    if init.filename !in files then
      Handled(Done, [StreamEvent(tid, FileNotFoundWire, false)], 0, files)
    else
      var video := files[init.filename];
      match Encode(ResponseRecord(init.filename, |video|))
      case Err(e) => Handled(Raised(e), [], 0, files)
      case Ok(response) =>
        var s := SendFile(tid, video, md5);
        Handled(s.outcome, [StreamEvent(tid, response, false)] + s.events, 0, files)
  }

  /** How `echo_server_proto` treats a decoded first message. */
  datatype Request = UploadRequest | DownloadRequest | InvalidRequest | OtherMessage

  function Classify(m: Fields): Request
  {
    if m.mtype != MsgTypeRequest then OtherMessage
    else if m.filename == [] then InvalidRequest
    else if m.filesize > 0 then UploadRequest
    else DownloadRequest
  }

  /** The body of `echo_server_proto`'s loop for one decoded first message
      that arrived on stream `sid`; `inbox` holds the events after it. */
  function Handle(m: Fields, sid: int, inbox: seq<StreamEvent>, files: FileStore, md5: Hasher): (r: Handled)
    ensures r.consumed <= |inbox|
  {
    match Classify(m)
    case OtherMessage => Handled(Done, [], 0, files)
    case InvalidRequest => Handled(Done, [StreamEvent(sid, InvalidRequestWire, false)], 0, files)
    case UploadRequest => Upload(m, inbox, files, md5)
    case DownloadRequest => Download(m, files, md5)
  }

  /** What the server sent over the whole connection, and its files at the end. */
  datatype ServerRun = ServerRun(sent: seq<StreamEvent>, files: FileStore)

  /** `echo_server_proto`: serves first messages until no event arrives, one
      does not decode or a handler raises. */
  function Serve(inbox: seq<StreamEvent>, files: FileStore, md5: Hasher): ServerRun
    decreases |inbox|, 0
  {
    if inbox == [] then ServerRun([], files)
    else match Decode(inbox[0].data)
      case Err(_) => ServerRun([], files)
      case Ok(m) => ServeFrom(m, inbox[0].streamId, inbox[1..], files, md5)
  }

  /** `echo_server_proto` once first message `m` has arrived on stream `sid`
      and decoded: handle it, then serve what follows unless the handler
      raised. */
  function ServeFrom(m: Fields, sid: int, inbox: seq<StreamEvent>, files: FileStore, md5: Hasher): ServerRun
    decreases |inbox|, 1
  {
    var h := Handle(m, sid, inbox, files, md5);
    if h.outcome.Raised? then ServerRun(h.sent, h.files)
    else
      var next := Serve(inbox[h.consumed..], h.files, md5);
      ServerRun(h.sent + next.sent, next.files)
  }

  /** The loop's state after `used` more events were taken. */
  function Resume(r: LoopEnd, used: nat): LoopEnd
  {
    LoopEnd(r.state, r.consumed + used)
  }

  /** Builds the RESPONSE datagram and sends it on `tid` when it packs. */
  method SendResponse(conn: Connection, tid: int, filename: string, filesize: int) returns (r: Result<seq<byte>>)
    modifies conn
    ensures r == Encode(ResponseRecord(filename, filesize))
    ensures conn.sent == old(conn.sent) + (if r.Ok? then [StreamEvent(tid, r.value, false)] else [])
    ensures conn.inbox == old(conn.inbox) && conn.streams == old(conn.streams)
  {
    var response := new Datagram(MsgTypeResponse, "", filename := filename, filesize := filesize);
    r := response.ToBytes();
    assert response.Value() == ResponseRecord(filename, filesize);
    if r.Ok? {
      conn.Send(StreamEvent(tid, r.value, false));
    }
  }

  /** Builds an ACK or ERROR datagram, packs it and sends it on `sid`. */
  method SendNotice(conn: Connection, sid: int, mtype: int, text: string, endStream: bool)
    returns (ghost wire: seq<byte>)
    requires FitsU32(mtype) && !HasExtension(mtype) && FitsU32(|text|)
    modifies conn
    ensures Encode(NoticeRecord(mtype, text)) == Ok(wire)
    ensures conn.sent == old(conn.sent) + [StreamEvent(sid, wire, endStream)]
    ensures conn.inbox == old(conn.inbox) && conn.streams == old(conn.streams)
  {
    var notice := new Datagram(mtype, text);
    var bytes := notice.ToBytes();
    assert notice.Value() == NoticeRecord(mtype, text);
    wire := bytes.value;
    conn.Send(StreamEvent(sid, bytes.value, endStream));
  }

  /** The ACK that ends an upload. */
  method SendAck(conn: Connection, tid: int)
    modifies conn
    ensures conn.sent == old(conn.sent) + [StreamEvent(tid, AckWire, true)]
    ensures conn.inbox == old(conn.inbox) && conn.streams == old(conn.streams)
  {
    AckWireEncodes();
    var _ := SendNotice(conn, tid, MsgTypeAck, UploadComplete, true);
  }

  /** The ERROR for a download of a missing file. */
  method SendFileNotFound(conn: Connection, tid: int)
    modifies conn
    ensures conn.sent == old(conn.sent) + [StreamEvent(tid, FileNotFoundWire, false)]
    ensures conn.inbox == old(conn.inbox) && conn.streams == old(conn.streams)
  {
    FileNotFoundWireEncodes();
    var _ := SendNotice(conn, tid, MsgTypeError, FileNotFound, false);
  }

  /** The ERROR for a REQUEST without a filename. */
  method SendInvalidRequest(conn: Connection, sid: int)
    modifies conn
    ensures conn.sent == old(conn.sent) + [StreamEvent(sid, InvalidRequestWire, false)]
    ensures conn.inbox == old(conn.inbox) && conn.streams == old(conn.streams)
  {
    InvalidRequestWireEncodes();
    var _ := SendNotice(conn, sid, MsgTypeError, InvalidRequestText, false);
  }

  /** `Upload` once the RESPONSE has packed. */
  lemma UploadReplies(init: Fields, inbox: seq<StreamEvent>, files: FileStore, md5: Hasher, response: seq<byte>)
    requires Encode(ResponseRecord(init.filename, init.filesize)) == Ok(response)
    ensures var loop := ReceiveChunks(inbox, Parsed(inbox), Start, md5);
      Upload(init, inbox, files, md5) ==
        Handled(Done, [StreamEvent(init.transactionId, response, false), StreamEvent(init.transactionId, AckWire, true)],
                loop.consumed, files[ReceivedPrefix + init.filename := loop.state.written])
  {
  }

  /** `handle_upload`, step by step. */
  method HandleUpload(conn: Connection, disk: Disk, init: Datagram, md5: Hasher) returns (outcome: Outcome)
    modifies conn, disk
    ensures var h := Upload(init.Value(), old(conn.inbox), old(disk.files), md5);
      && outcome == h.outcome && conn.sent == old(conn.sent) + h.sent
      && conn.inbox == old(conn.inbox)[h.consumed..] && disk.files == h.files
      && conn.streams == old(conn.streams)
  {
    var tid := init.transactionId;
    var response := SendResponse(conn, tid, init.filename, init.filesize);
    if response.Err? {
      return Raised(response.error);
    }
    UploadReplies(init.Value(), conn.inbox, disk.files, md5, response.value);
    ghost var first := StreamEvent(tid, response.value, false);
    ghost var sent1 := conn.sent;
    var path := ReceivedPrefix + init.filename;
    disk.Create(path);
    ReceiveInto(conn, disk, path, md5);
    SendAck(conn, tid);
    ghost var last := StreamEvent(tid, AckWire, true);
    assert conn.sent == old(conn.sent) + [first, last] by {
      assert (old(conn.sent) + [first]) + [last] == old(conn.sent) + [first, last];
    }
    return Done;
  }

  /** The receive loop of `handle_upload`, writing to the file at `path`,
      which has just been created. */
  method ReceiveInto(conn: Connection, disk: Disk, path: string, md5: Hasher)
    requires path in disk.files && disk.files[path] == []
    modifies conn, disk
    ensures var r := ReceiveChunks(old(conn.inbox), Parsed(old(conn.inbox)), Start, md5);
      && conn.inbox == old(conn.inbox)[r.consumed..] && disk.files == old(disk.files)[path := r.state.written]
      && conn.sent == old(conn.sent) && conn.streams == old(conn.streams)
  {
    ghost var inbox0 := conn.inbox;
    ghost var parsed0 := Parsed(inbox0);
    ghost var files1 := disk.files;
    ghost var used: nat := 0;
    ghost var written: seq<byte> := [];
    var totalChunks, totalSize, lastSeq := 0, 0, 0;
    assert files1 == files1[path := written];
    while true
      invariant used <= |inbox0| && conn.inbox == inbox0[used..]
      invariant disk.files == files1[path := written]
      invariant var st := UploadState(written, totalChunks, totalSize, lastSeq);
        Lockstep(st) && ReceiveChunks(inbox0, parsed0, Start, md5) == Resume(ReceiveChunks(conn.inbox, parsed0[used..], st, md5), used)
      invariant conn.sent == old(conn.sent) && conn.streams == old(conn.streams)
      decreases |conn.inbox|
    {
      ghost var before := conn.inbox;
      if used < |inbox0| {
      }
      var stop: bool;
      stop, written, totalChunks, totalSize, lastSeq :=
        ReceiveOne(conn, disk, path, md5, parsed0[used..], files1, written, totalChunks, totalSize, lastSeq);
      if stop {
        ghost var r := ReceiveChunks(inbox0, parsed0, Start, md5);
        assert r.consumed == used + (|before| - |conn.inbox|) && r.state.written == written;
        assert conn.inbox == inbox0[r.consumed..];
        assert disk.files == old(disk.files)[path := r.state.written];
        break;
      }
      assert parsed0[used..][1..] == parsed0[used + 1..];
      used := used + 1;
    }
  }

  /** One pass of `handle_upload`'s loop body: `stop` says it left the loop. */
  method ReceiveOne(conn: Connection, disk: Disk, path: string, md5: Hasher, ghost parsed: seq<Result<Fields>>,
                    ghost files1: FileStore, ghost written: seq<byte>, totalChunks: int, totalSize: int, lastSeq: int)
    returns (stop: bool, ghost written': seq<byte>, totalChunks': int, totalSize': int, lastSeq': int)
    requires |parsed| == |conn.inbox| && (conn.inbox != [] ==> parsed[0] == Decode(conn.inbox[0].data))
    requires disk.files == files1[path := written]
    modifies conn, disk
    ensures disk.files == files1[path := written']
    ensures conn.sent == old(conn.sent) && conn.streams == old(conn.streams)
    ensures old(conn.inbox) == [] ==> stop && conn.inbox == []
    ensures old(conn.inbox) != [] ==> conn.inbox == old(conn.inbox)[1..]
    ensures var st := UploadState(written, totalChunks, totalSize, lastSeq);
      var st' := UploadState(written', totalChunks', totalSize', lastSeq');
      && (Lockstep(st) ==> Lockstep(st'))
      && (stop ==> st' == st && ReceiveChunks(old(conn.inbox), parsed, st, md5) == LoopEnd(st, |old(conn.inbox)| - |conn.inbox|))
      && (!stop ==> ReceiveChunks(old(conn.inbox), parsed, st, md5) == Resume(ReceiveChunks(conn.inbox, parsed[1..], st', md5), 1))
  {
    ghost var st := UploadState(written, totalChunks, totalSize, lastSeq);
    written', totalChunks', totalSize', lastSeq' := written, totalChunks, totalSize, lastSeq;
    ghost var before := conn.inbox;
    var message := conn.Receive();
    if message.Err? {
      return true, written', totalChunks', totalSize', lastSeq';
    }
    var event := message.value;
    assert before == [event] + conn.inbox && before[1..] == conn.inbox;
    if event.endStream {
      return true, written', totalChunks', totalSize', lastSeq';
    }
    if event.data != [] {
      var ok: bool;
      ok, written', totalChunks', totalSize', lastSeq' :=
        AbsorbData(disk, path, event.data, md5, parsed[0], files1, written, totalChunks, totalSize, lastSeq);
      if !ok {
        return true, written', totalChunks', totalSize', lastSeq';
      }
      if Lockstep(st) {
        AcceptKeepsLockstep(st, parsed[0].value, md5);
      }
    }
    stop := false;
  }

  /** The part of `handle_upload`'s loop body after an event with data:
      decode it and write it when it is valid and next in sequence. */
  method AbsorbData(disk: Disk, path: string, data: seq<byte>, md5: Hasher, ghost parsed: Result<Fields>,
                    ghost files1: FileStore, ghost written: seq<byte>, totalChunks: int, totalSize: int, lastSeq: int)
    returns (ok: bool, ghost written': seq<byte>, totalChunks': int, totalSize': int, lastSeq': int)
    requires parsed == Decode(data)
    requires disk.files == files1[path := written]
    modifies disk
    ensures disk.files == files1[path := written']
    ensures ok == parsed.Ok?
    ensures var st := UploadState(written, totalChunks, totalSize, lastSeq);
      UploadState(written', totalChunks', totalSize', lastSeq') == if ok then Accept(st, parsed.value, md5) else st
  {
    var dataMsg := Datagram.FromBytes(data);
    if dataMsg.Err? {
      return false, written, totalChunks, totalSize, lastSeq;
    }
    written', totalChunks', totalSize', lastSeq' :=
      AcceptChunk(disk, path, dataMsg.value, md5, files1, written, totalChunks, totalSize, lastSeq);
    ok := true;
  }

  /** Writes a decoded chunk and advances the counters when its checksum is
      valid and it is the next in sequence. */
  method AcceptChunk(disk: Disk, path: string, dm: Datagram, md5: Hasher,
                     ghost files1: FileStore, ghost written: seq<byte>, totalChunks: int, totalSize: int, lastSeq: int)
    returns (ghost written': seq<byte>, totalChunks': int, totalSize': int, lastSeq': int)
    requires disk.files == files1[path := written]
    modifies disk
    ensures disk.files == files1[path := written']
    ensures UploadState(written', totalChunks', totalSize', lastSeq')
      == Accept(UploadState(written, totalChunks, totalSize, lastSeq), dm.Value(), md5)
  {
    written', totalChunks', totalSize', lastSeq' := written, totalChunks, totalSize, lastSeq;
    var chunk, sequenceNum := dm.data, dm.sequenceNum;
    if dm.IsChecksumValid(md5) {
      if sequenceNum == lastSeq + 1 {
        disk.Append(path, chunk);
        UpdateTwice(files1, path, written, written + chunk);
        written' := written + chunk;
        totalSize' := totalSize + |chunk|;
        totalChunks' := totalChunks + 1;
        lastSeq' := sequenceNum;
      }
    }
  }

  /** Accepting a chunk or not, the counters stay in step with the file. */
  lemma AcceptKeepsLockstep(st: UploadState, dm: Fields, md5: Hasher)
    requires Lockstep(st)
    ensures Lockstep(Accept(st, dm, md5))
    ensures |Accept(st, dm, md5).written| == |st.written| + (if Accept(st, dm, md5) == st then 0 else |dm.data|)
  {
  }

  /** `handle_download`, step by step. */
  method HandleDownload(conn: Connection, disk: Disk, init: Datagram, md5: Hasher) returns (outcome: Outcome)
    modifies conn
    ensures var h := Download(init.Value(), disk.files, md5);
      && outcome == h.outcome && conn.sent == old(conn.sent) + h.sent
      && conn.inbox == old(conn.inbox) && conn.streams == old(conn.streams)
  {
    var tid := init.transactionId;
    var read := disk.ReadAll(init.filename);
    if read.Err? {
      SendFileNotFound(conn, tid);
      return Done;
    }
    var videoData := read.value;
    var response := SendResponse(conn, tid, init.filename, |videoData|);
    if response.Err? {
      return Raised(response.error);
    }
    ghost var sent1 := conn.sent;
    outcome := SendChunks(conn, tid, videoData, md5);
    ConcatAssoc(old(conn.sent), sent1[|old(conn.sent)|..], SendFile(tid, videoData, md5).events);
  }

  /** The body of `echo_server_proto`'s loop once the first message decoded. */
  method HandleRequest(conn: Connection, disk: Disk, initialMsg: Datagram, sid: int, md5: Hasher)
    returns (outcome: Outcome)
    modifies conn, disk
    ensures var h := Handle(initialMsg.Value(), sid, old(conn.inbox), old(disk.files), md5);
      && outcome == h.outcome && conn.sent == old(conn.sent) + h.sent
      && conn.inbox == old(conn.inbox)[h.consumed..] && disk.files == h.files
  {
    outcome := Done;
    if initialMsg.mtype == MsgTypeRequest {
      if initialMsg.filename != "" {
        if initialMsg.filesize > 0 {
          outcome := HandleUpload(conn, disk, initialMsg, md5);
        } else {
          outcome := HandleDownload(conn, disk, initialMsg, md5);
        }
      } else {
        SendInvalidRequest(conn, sid);
      }
    }
  }

  /** `echo_server_proto`, step by step. */
  method EchoServerProto(conn: Connection, disk: Disk, md5: Hasher)
    modifies conn, disk
    ensures var run := Serve(old(conn.inbox), old(disk.files), md5);
      conn.sent == old(conn.sent) + run.sent && disk.files == run.files
  {
    ghost var total := Serve(conn.inbox, disk.files, md5);
    ghost var sent0 := conn.sent;
    while true
      invariant var now := Serve(conn.inbox, disk.files, md5);
        sent0 + total.sent == conn.sent + now.sent && total.files == now.files
      decreases |conn.inbox|
    {
      var stop := ServeOne(conn, disk, md5);
      if stop {
        break;
      }
    }
  }

  /** One pass of `echo_server_proto`'s loop body: `stop` says it left the loop. */
  method ServeOne(conn: Connection, disk: Disk, md5: Hasher) returns (stop: bool)
    modifies conn, disk
    ensures var before := Serve(old(conn.inbox), old(disk.files), md5);
      if stop then old(conn.sent) + before.sent == conn.sent && before.files == disk.files
      else
        var after := Serve(conn.inbox, disk.files, md5);
        && |conn.inbox| < |old(conn.inbox)|
        && old(conn.sent) + before.sent == conn.sent + after.sent && before.files == after.files
  {
    ghost var before := conn.inbox;
    var message := conn.Receive();
    if message.Err? {
      return true;
    }
    var event := message.value;
    assert before == [event] + conn.inbox && before[1..] == conn.inbox;
    var parsed := Datagram.FromBytes(event.data);
    if parsed.Err? {
      return true;
    }
    var initialMsg := parsed.value;
    assert Serve(before, old(disk.files), md5)
      == ServeFrom(initialMsg.Value(), event.streamId, conn.inbox, old(disk.files), md5);
    stop := ServeDecoded(conn, disk, initialMsg, event.streamId, md5);
  }

  /** The rest of the loop body once the first message has decoded: handle
      it, and leave the loop if the handler raised. */
  method ServeDecoded(conn: Connection, disk: Disk, initialMsg: Datagram, sid: int, md5: Hasher)
    returns (stop: bool)
    modifies conn, disk
    ensures var before := ServeFrom(initialMsg.Value(), sid, old(conn.inbox), old(disk.files), md5);
      if stop then old(conn.sent) + before.sent == conn.sent && before.files == disk.files
      else
        var after := Serve(conn.inbox, disk.files, md5);
        && |conn.inbox| <= |old(conn.inbox)|
        && old(conn.sent) + before.sent == conn.sent + after.sent && before.files == after.files
  {
    ghost var m := initialMsg.Value();
    ghost var rest := conn.inbox;
    ghost var files0 := disk.files;
    ghost var sent0 := conn.sent;
    var outcome := HandleRequest(conn, disk, initialMsg, sid, md5);
    ghost var h := Handle(m, sid, rest, files0, md5);
    stop := outcome.Raised?;
    if !stop {
      ConcatAssoc(sent0, h.sent, Serve(conn.inbox, disk.files, md5).sent);
    }
  }
}
