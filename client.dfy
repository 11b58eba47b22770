/** The client side of a transfer (video_client.py): the upload and the
    download driver, each as a specification on values and as the method
    that follows it step by step, and the dispatch on the download flag. */
module VideoClient {
  import opened Base
  import opened Struct
  import opened Pdu
  import opened Transport
  import opened Chunking

  /** `os.path.basename`: what follows the last '/'. */
  function Basename(path: string): (r: string)
    ensures '/' !in r
    ensures |r| <= |path| && path[|path| - |r|..] == r
    ensures |r| < |path| ==> path[|path| - |r| - 1] == '/'
    decreases |path|
  {
    if path == [] || path[|path| - 1] == '/' then []
    else
      var init := path[..|path| - 1];
      var r := Basename(init);
      assert path[|path| - |r| - 1..] == init[|init| - |r|..] + [path[|path| - 1]];
      r + [path[|path| - 1]]
  }

  /** The REQUEST that opens a transfer: an upload names the file and its
      size, a download leaves the size at its default 0. */
  function RequestRecord(filename: string, filesize: int): Fields
  {
    Fields(MsgTypeRequest, "", filename, filesize, 0, 0, [], "")
  }

  /** What one client call did: how it returned, what it sent, how many
      events it took, how many streams it opened, and the files afterwards. */
  datatype ClientRun = ClientRun(outcome: Outcome, sent: seq<StreamEvent>, consumed: nat, newStreams: nat, files: FileStore)

  /** `upload_video`, with `sid` the id `new_stream` hands out. A missing
      file raises before a stream is opened; a REQUEST that cannot be packed
      raises after; a failed receive ends the call quietly, a reply that does
      not decode raises; the file goes out only after a RESPONSE. */
  function Upload(filepath: string, files: FileStore, inbox: seq<StreamEvent>, sid: int, md5: Hasher): (r: ClientRun)
    ensures r.consumed <= |inbox| && r.files == files
  {
    if filepath !in files then ClientRun(Raised(FileNotFoundError), [], 0, 0, files)
    else
      var video := files[filepath];
      match Encode(RequestRecord(Basename(filepath), |video|))
      case Err(e) => ClientRun(Raised(e), [], 0, 1, files)
      case Ok(request) => UploadAfter(video, request, inbox, sid, files, md5)
  }

  /** `upload_video` once its REQUEST packed: the REQUEST goes out on `sid`,
      then whatever the reply leads to. */
  function UploadAfter(video: seq<byte>, request: seq<byte>, inbox: seq<StreamEvent>, sid: int, files: FileStore,
                       md5: Hasher): (r: ClientRun)
    ensures r.consumed <= |inbox| && r.files == files
  {
    var a := UploadReply(video, inbox, sid, md5);
    ClientRun(a.outcome, [StreamEvent(sid, request, false)] + a.sent, a.consumed, 1, files)
  }

  /** What `upload_video` did after its REQUEST: how it returned, what else
      it sent and how many events it took. */
  datatype Answered = Answered(outcome: Outcome, sent: seq<StreamEvent>, consumed: nat)

  /** The rest of `upload_video` once the REQUEST is out: no reply ends the
      call quietly, a reply that does not decode raises, and only a RESPONSE
      lets the file go out on `sid`. */
  function UploadReply(video: seq<byte>, inbox: seq<StreamEvent>, sid: int, md5: Hasher): (r: Answered)
    ensures r.consumed <= |inbox|
  {
    if inbox == [] then Answered(Done, [], 0)
    else match Decode(inbox[0].data)
      case Err(e) => Answered(Raised(e), [], 1)
      case Ok(reply) =>
        if reply.mtype != MsgTypeResponse then Answered(Done, [], 1)
        else
          var s := SendFile(sid, video, md5);
          Answered(s.outcome, s.events, 1)
  }

  /** Where the download loop stopped: how, the bytes written, and how many
      events it took. */
  datatype FileLoop = FileLoop(outcome: Outcome, written: seq<byte>, consumed: nat)

  /** The `while True` loop of `download_video`, `parsed` holding what
      `from_bytes` makes of each event: it raises when no event arrives or
      one does not decode, ends at the first end-of-stream event, and writes
      every chunk whose checksum is valid, whatever its sequence number. */
  function ReceiveFile(inbox: seq<StreamEvent>, parsed: seq<Result<Fields>>, written: seq<byte>, md5: Hasher): (r: FileLoop)
    requires |parsed| == |inbox|
    ensures r.consumed <= |inbox|
    decreases |inbox|
  {
    if inbox == [] then FileLoop(Raised(TransportClosed), written, 0)
    else if inbox[0].endStream then FileLoop(Done, written, 1)
    else match parsed[0]
      case Err(e) => FileLoop(Raised(e), written, 1)
      case Ok(dm) =>
        var r := ReceiveFile(inbox[1..], parsed[1..], if dm.ChecksumValid(md5) then written + dm.data else written, md5);
        FileLoop(r.outcome, r.written, r.consumed + 1)
  }

  /** The loop's result after `used` more events were taken. */
  function ResumeFile(r: FileLoop, used: nat): FileLoop
  {
    FileLoop(r.outcome, r.written, r.consumed + used)
  }

  /** `download_video`, with `sid` the id `new_stream` hands out. Nothing
      guards the receives, so a missing reply or one that does not decode
      raises; the output file is created only after a RESPONSE. */
  function Download(filename: string, files: FileStore, inbox: seq<StreamEvent>, sid: int, md5: Hasher): (r: ClientRun)
    ensures r.consumed <= |inbox|
  {
    match Encode(RequestRecord(filename, 0))
    case Err(e) => ClientRun(Raised(e), [], 0, 1, files)
    case Ok(request) =>
      var first := StreamEvent(sid, request, false);
      if inbox == [] then ClientRun(Raised(TransportClosed), [first], 0, 1, files)
      else match Decode(inbox[0].data)
        case Err(e) => ClientRun(Raised(e), [first], 1, 1, files)
        case Ok(reply) =>
          if reply.mtype != MsgTypeResponse then ClientRun(Done, [first], 1, 1, files)
          else
            var rest := inbox[1..];
            var loop := ReceiveFile(rest, Parsed(rest), [], md5);
            ClientRun(loop.outcome, [first], 1 + loop.consumed, 1, files[filename := loop.written])
  }

  /** `echo_client_proto` and `launch_qvtp`: the flag picks the transfer. */
  function Launch(videoPath: string, download: bool, files: FileStore, inbox: seq<StreamEvent>, sid: int,
                  md5: Hasher): ClientRun
  {
    if download then Download(videoPath, files, inbox, sid, md5) else Upload(videoPath, files, inbox, sid, md5)
  }

  /** `upload_video`, step by step. */
  method UploadVideo(conn: Connection, disk: Disk, filepath: string, md5: Hasher) returns (outcome: Outcome)
    modifies conn
    ensures var u := Upload(filepath, disk.files, old(conn.inbox), old(conn.streams), md5);
      && outcome == u.outcome && conn.sent == old(conn.sent) + u.sent
      && conn.inbox == old(conn.inbox)[u.consumed..] && conn.streams == old(conn.streams) + u.newStreams
  {
    ghost var u := Upload(filepath, disk.files, conn.inbox, conn.streams, md5);
    var read := disk.ReadAll(filepath);
    assert old(conn.inbox)[0..] == old(conn.inbox) && old(conn.sent) + [] == old(conn.sent);
    if read.Err? {
      assert u == ClientRun(Raised(FileNotFoundError), [], 0, 0, disk.files);
      return Raised(read.error);
    }
    var videoData := read.value;
    var filesize := |videoData|;
    var newStreamId := conn.NewStream();
    var request := PackRequest(Basename(filepath), filesize);
    if request.Err? {
      assert u == ClientRun(Raised(request.error), [], 0, 1, disk.files);
      return Raised(request.error);
    }
    var first := StreamEvent(newStreamId, request.value, false);
    ghost var a := UploadReply(videoData, old(conn.inbox), newStreamId, md5);
    UploadOnceSent(filepath, disk.files, old(conn.inbox), newStreamId, md5, request.value);
    assert u == ClientRun(a.outcome, [first] + a.sent, a.consumed, 1, disk.files);
    conn.Send(first);
    outcome := AwaitResponse(conn, newStreamId, videoData, md5);
    ConcatAssoc(old(conn.sent), [first], a.sent);
  }

  /** Builds the REQUEST datagram and packs it. */
  method PackRequest(filename: string, filesize: int) returns (r: Result<seq<byte>>)
    ensures r == Encode(RequestRecord(filename, filesize))
  {
    var requestMsg := new Datagram(MsgTypeRequest, "", filename := filename, filesize := filesize);
    assert requestMsg.Value() == RequestRecord(filename, filesize);
    r := requestMsg.ToBytes();
  }

  /** `Upload` once the REQUEST has packed. */
  lemma UploadOnceSent(filepath: string, files: FileStore, inbox: seq<StreamEvent>, sid: int, md5: Hasher, request: seq<byte>)
    requires filepath in files && Encode(RequestRecord(Basename(filepath), |files[filepath]|)) == Ok(request)
    ensures var a := UploadReply(files[filepath], inbox, sid, md5);
      Upload(filepath, files, inbox, sid, md5) == ClientRun(a.outcome, [StreamEvent(sid, request, false)] + a.sent, a.consumed, 1, files)
  {
  }

  /** The part of `upload_video` after the REQUEST is sent, step by step. */
  method AwaitResponse(conn: Connection, sid: int, videoData: seq<byte>, md5: Hasher) returns (outcome: Outcome)
    modifies conn
    ensures var a := UploadReply(videoData, old(conn.inbox), sid, md5);
      && outcome == a.outcome && conn.sent == old(conn.sent) + a.sent
      && conn.inbox == old(conn.inbox)[a.consumed..] && conn.streams == old(conn.streams)
  {
    ghost var before := conn.inbox;
    var response := conn.Receive();
    if response.Err? {
      assert conn.sent == old(conn.sent) + [];
      return Done;
    }
    var responseMsg := Datagram.FromBytes(response.value.data);
    assert before[1..] == conn.inbox;
    if responseMsg.Err? {
      assert conn.sent == old(conn.sent) + [];
      return Raised(responseMsg.error);
    }
    if responseMsg.value.mtype == MsgTypeResponse {
      outcome := SendChunks(conn, sid, videoData, md5);
    } else {
      assert conn.sent == old(conn.sent) + [];
      outcome := Done;
    }
  }

  /** `download_video`, step by step. */
  method DownloadVideo(conn: Connection, disk: Disk, filename: string, md5: Hasher) returns (outcome: Outcome)
    modifies conn, disk
    ensures var d := Download(filename, old(disk.files), old(conn.inbox), old(conn.streams), md5);
      && outcome == d.outcome && conn.sent == old(conn.sent) + d.sent
      && conn.inbox == old(conn.inbox)[d.consumed..] && conn.streams == old(conn.streams) + d.newStreams
      && disk.files == d.files
  {
    var newStreamId := conn.NewStream();
    var request := PackRequest(filename, 0);
    if request.Err? {
      return Raised(request.error);
    }
    conn.Send(StreamEvent(newStreamId, request.value, false));
    ghost var before := conn.inbox;
    var response := conn.Receive();
    if response.Err? {
      return Raised(response.error);
    }
    var responseMsg := Datagram.FromBytes(response.value.data);
    if responseMsg.Err? {
      return Raised(responseMsg.error);
    }
    assert before[1..] == conn.inbox;
    if responseMsg.value.mtype == MsgTypeResponse {
      ghost var loop := ReceiveFile(before[1..], Parsed(before[1..]), [], md5);
      disk.Create(filename);
      outcome := ReceiveFileInto(conn, disk, filename, md5);
      UpdateTwice(old(disk.files), filename, [], loop.written);
      assert old(conn.inbox)[1..][loop.consumed..] == old(conn.inbox)[1 + loop.consumed..];
    } else {
      outcome := Done;
    }
  }

  /** The receive loop of `download_video`, writing to the file at `path`,
      which has just been created. */
  method ReceiveFileInto(conn: Connection, disk: Disk, path: string, md5: Hasher) returns (outcome: Outcome)
    requires path in disk.files && disk.files[path] == []
    modifies conn, disk
    ensures var r := ReceiveFile(old(conn.inbox), Parsed(old(conn.inbox)), [], md5);
      && outcome == r.outcome
      && conn.inbox == old(conn.inbox)[r.consumed..] && disk.files == old(disk.files)[path := r.written]
      && conn.sent == old(conn.sent) && conn.streams == old(conn.streams)
  {
    ghost var inbox0 := conn.inbox;
    ghost var parsed0 := Parsed(inbox0);
    ghost var files1 := disk.files;
    ghost var used: nat := 0;
    ghost var written: seq<byte> := [];
    assert files1 == files1[path := written];
    while true
      invariant used <= |inbox0| && conn.inbox == inbox0[used..]
      invariant disk.files == files1[path := written]
      invariant ReceiveFile(inbox0, parsed0, [], md5) == ResumeFile(ReceiveFile(conn.inbox, parsed0[used..], written, md5), used)
      invariant conn.sent == old(conn.sent) && conn.streams == old(conn.streams)
      decreases |conn.inbox|
    {
      ghost var before := conn.inbox;
      if used < |inbox0| {
      }
      var stop: bool;
      stop, outcome, written := ReceiveChunk(conn, disk, path, md5, parsed0[used..], files1, written);
      if stop {
        ghost var r := ReceiveFile(inbox0, parsed0, [], md5);
        assert r.consumed == used + (|before| - |conn.inbox|) && r.written == written;
        assert conn.inbox == inbox0[r.consumed..];
        return;
      }
      assert parsed0[used..][1..] == parsed0[used + 1..];
      used := used + 1;
    }
  }

  /** One pass of `download_video`'s loop body: `stop` says it left the
      loop, and `outcome` how. */
  method ReceiveChunk(conn: Connection, disk: Disk, path: string, md5: Hasher, ghost parsed: seq<Result<Fields>>,
                      ghost files1: FileStore, ghost written: seq<byte>)
    returns (stop: bool, outcome: Outcome, ghost written': seq<byte>)
    requires |parsed| == |conn.inbox| && (conn.inbox != [] ==> parsed[0] == Decode(conn.inbox[0].data))
    requires disk.files == files1[path := written]
    modifies conn, disk
    ensures disk.files == files1[path := written']
    ensures conn.sent == old(conn.sent) && conn.streams == old(conn.streams)
    ensures old(conn.inbox) == [] ==> stop && conn.inbox == []
    ensures old(conn.inbox) != [] ==> conn.inbox == old(conn.inbox)[1..]
    ensures stop ==> (written' == written
      && ReceiveFile(old(conn.inbox), parsed, written, md5) == FileLoop(outcome, written, |old(conn.inbox)| - |conn.inbox|))
    ensures !stop ==>
      ReceiveFile(old(conn.inbox), parsed, written, md5) == ResumeFile(ReceiveFile(conn.inbox, parsed[1..], written', md5), 1)
  {
    written' := written;
    ghost var before := conn.inbox;
    var message := conn.Receive();
    if message.Err? {
      return true, Raised(message.error), written';
    }
    var event := message.value;
    assert before == [event] + conn.inbox && before[1..] == conn.inbox;
    if event.endStream {
      return true, Done, written';
    }
    var dataMsg := Datagram.FromBytes(event.data);
    if dataMsg.Err? {
      return true, Raised(dataMsg.error), written';
    }
    var dm := dataMsg.value;
    ghost var f := dm.Value();
    if dm.IsChecksumValid(md5) {
      disk.Append(path, dm.data);
      UpdateTwice(files1, path, written, written + f.data);
      written' := written + f.data;
    }
    stop, outcome := false, Done;
  }

  /** `echo_client_proto`: download when the flag is set, else upload. */
  method EchoClientProto(conn: Connection, disk: Disk, videoPath: string, download: bool, md5: Hasher)
    returns (outcome: Outcome)
    modifies conn, disk
    ensures var c := Launch(videoPath, download, old(disk.files), old(conn.inbox), old(conn.streams), md5);
      && outcome == c.outcome && conn.sent == old(conn.sent) + c.sent
      && conn.inbox == old(conn.inbox)[c.consumed..] && conn.streams == old(conn.streams) + c.newStreams
      && disk.files == c.files
  {
    if download {
      outcome := DownloadVideo(conn, disk, videoPath, md5);
    } else {
      outcome := UploadVideo(conn, disk, videoPath, md5);
    }
  }

  /** `EchoClientRequestHandler`: holds the connection a transfer runs on. */
  class ClientRequestHandler {
    var connection: Connection

    constructor (connection: Connection)
      ensures this.connection == connection
    {
      this.connection := connection;
    }

    /** `launch_qvtp`: the same dispatch on the download flag. */
    method LaunchQvtp(disk: Disk, videoPath: string, download: bool, md5: Hasher) returns (outcome: Outcome)
      modifies connection, disk
      ensures var c := Launch(videoPath, download, old(disk.files), old(connection.inbox), old(connection.streams), md5);
        && outcome == c.outcome && connection.sent == old(connection.sent) + c.sent
        && connection.inbox == old(connection.inbox)[c.consumed..]
        && connection.streams == old(connection.streams) + c.newStreams
        && disk.files == c.files
    {
      outcome := EchoClientProto(connection, disk, videoPath, download, md5);
    }
  }
}
