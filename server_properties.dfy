/** What the server's handlers promise, stated about the specification
    functions of video_server.py. */
module ServerProperties {
  import opened Base
  import opened Struct
  import opened Pdu
  import PduProperties
  import Utf8
  import opened Transport
  import opened Chunking
  import opened VideoServer

  /** `echo_server_proto` ignores a decoded first message that is not a
      REQUEST: nothing is sent, taken or written. */
  lemma HandleIgnores(m: Fields, sid: int, inbox: seq<StreamEvent>, files: FileStore, md5: Hasher)
    requires m.mtype != MsgTypeRequest
    ensures Handle(m, sid, inbox, files, md5) == Handled(Done, [], 0, files)
  {
    assert Classify(m) == OtherMessage;
  }

  /** A REQUEST without a filename gets exactly one ERROR "Invalid request"
      on the stream it came in on, without ending that stream. */
  lemma HandleInvalidRequest(m: Fields, sid: int, inbox: seq<StreamEvent>, files: FileStore, md5: Hasher)
    requires m.mtype == MsgTypeRequest && m.filename == []
    ensures var h := Handle(m, sid, inbox, files, md5);
      && h.outcome == Done && h.consumed == 0 && h.files == files && |h.sent| == 1
      && h.sent[0].streamId == sid && !h.sent[0].endStream
      && Encode(NoticeRecord(MsgTypeError, InvalidRequestText)) == Ok(h.sent[0].data)
  {
    assert Classify(m) == InvalidRequest;
    InvalidRequestWireEncodes();
  }

  /** A REQUEST with a filename goes to the upload handler when its size is
      positive and to the download handler otherwise. */
  lemma HandleRoutes(m: Fields, sid: int, inbox: seq<StreamEvent>, files: FileStore, md5: Hasher)
    requires m.mtype == MsgTypeRequest && m.filename != []
    ensures m.filesize > 0 ==> Handle(m, sid, inbox, files, md5) == Upload(m, inbox, files, md5)
    ensures m.filesize <= 0 ==> Handle(m, sid, inbox, files, md5) == Download(m, files, md5)
  {
    assert Classify(m) == (if m.filesize > 0 then UploadRequest else DownloadRequest);
  }

  /** A first message that decoded always has a RESPONSE that packs: its
      filename came from at most `2**32 - 1` bytes and its size from eight. */
  lemma DecodedRequestPacks(buf: seq<byte>)
    requires Decode(buf).Ok?
    ensures var m := Decode(buf).value;
      Encode(ResponseRecord(m.filename, m.filesize)).Ok?
  {
    var m := Decode(buf).value;
    var msgLen := Unpack32(buf[4..8]);
    var msg := DecodeText(Prefix(buf[8..], msgLen)).value;
    var rest := Skip(buf[8..], msgLen);
    assert DecodeFilename(Unpack32(buf[..4]), msg, rest) == Decode(buf);
    var nameLen := Unpack32(rest[..4]);
    var nameBytes := Prefix(rest[4..], nameLen);
    var tail := Skip(rest[4..], nameLen);
    assert DecodeTail(Unpack32(buf[..4]), msg, m.filename, tail) == Decode(buf);
    Utf8.EncodeDecode(nameBytes);
    Utf8.EncodeLength(m.filename);
  }

  /** `handle_upload` raises before sending or writing anything when its
      RESPONSE cannot be packed. */
  lemma UploadRaises(init: Fields, inbox: seq<StreamEvent>, files: FileStore, md5: Hasher)
    requires !Encodable(ResponseRecord(init.filename, init.filesize))
    ensures Upload(init, inbox, files, md5) == Handled(Raised(StructError), [], 0, files)
  {
  }

  /** `handle_upload` answers with a RESPONSE echoing filename and filesize,
      then, after its receive loop, exactly one ACK "Upload complete" that
      ends the stream, both on the request's transaction id; it stores what
      the loop accepted under `received_<filename>`. */
  lemma UploadReplyShape(init: Fields, inbox: seq<StreamEvent>, files: FileStore, md5: Hasher)
    requires Encodable(ResponseRecord(init.filename, init.filesize))
    ensures var h := Upload(init, inbox, files, md5);
      var record := ResponseRecord(init.filename, init.filesize);
      var loop := ReceiveChunks(inbox, Parsed(inbox), Start, md5);
      && h.outcome == Done && |h.sent| == 2
      && h.sent[0].streamId == init.transactionId && !h.sent[0].endStream
      && Encode(record) == Ok(h.sent[0].data)
      && (Utf8.IsAscii(init.filename) ==> Decode(h.sent[0].data) == Ok(record))
      && h.sent[1] == StreamEvent(init.transactionId, AckWire, true)
      && Encode(NoticeRecord(MsgTypeAck, UploadComplete)) == Ok(AckWire)
      && h.consumed == loop.consumed
      && h.files == files[ReceivedPrefix + init.filename := loop.state.written]
  {
    var record := ResponseRecord(init.filename, init.filesize);
    UploadReplies(init, inbox, files, md5, Encode(record).value);
    AckWireEncodes();
    if Utf8.IsAscii(init.filename) {
      assert PduProperties.AsciiText(record);
      PduProperties.RoundTrip(record);
    }
  }

  /** The acceptance rule of the upload loop: a chunk changes the state
      exactly when its checksum is valid and it is the next in sequence, and
      then its bytes are appended. A chunk without a checksum never counts. */
  lemma AcceptRule(st: UploadState, dm: Fields, md5: Hasher)
    ensures Accept(st, dm, md5) != st <==> dm.ChecksumValid(md5) && dm.sequenceNum == st.lastSeq + 1
    ensures Accept(st, dm, md5) != st ==>
      && Accept(st, dm, md5).written == st.written + dm.data
      && Accept(st, dm, md5).lastSeq == dm.sequenceNum
    ensures dm.checksum == [] ==> Accept(st, dm, md5) == st
  {
  }

  /** An event that is not the end of the stream and carries no data, or
      carries a chunk the rule refuses, is skipped: the loop goes on with the
      state unchanged. */
  lemma ReceiveSkips(inbox: seq<StreamEvent>, parsed: seq<Result<Fields>>, st: UploadState, md5: Hasher)
    requires |parsed| == |inbox| && inbox != [] && !inbox[0].endStream
    requires inbox[0].data == [] || (parsed[0].Ok? && !(parsed[0].value.ChecksumValid(md5)
                                     && parsed[0].value.sequenceNum == st.lastSeq + 1))
    ensures ReceiveChunks(inbox, parsed, st, md5) == Resume(ReceiveChunks(inbox[1..], parsed[1..], st, md5), 1)
  {
  }

  /** The loop keeps its counters in step with the bytes written, only ever
      appends, and never moves the sequence number back. */
  lemma {:induction false} ReceiveLockstep(inbox: seq<StreamEvent>, parsed: seq<Result<Fields>>,
                                           st: UploadState, md5: Hasher)
    requires |parsed| == |inbox| && Lockstep(st)
    ensures var r := ReceiveChunks(inbox, parsed, st, md5);
      && Lockstep(r.state) && st.lastSeq <= r.state.lastSeq
      && st.written <= r.state.written
    decreases |inbox|
  {
    if inbox != [] && !inbox[0].endStream {
      if inbox[0].data == [] {
        ReceiveLockstep(inbox[1..], parsed[1..], st, md5);
      } else if parsed[0].Ok? {
        var next := Accept(st, parsed[0].value, md5);
        ReceiveLockstep(inbox[1..], parsed[1..], next, md5);
      }
    }
  }

  /** The events at which the upload loop leaves: the end of the stream, or
      data that `from_bytes` rejects. */
  predicate Stops(e: StreamEvent, p: Result<Fields>)
  {
    e.endStream || (e.data != [] && p.Err?)
  }

  /** The loop takes events up to and including the first one at which it
      stops, or all of them when there is none. */
  lemma {:induction false} ReceiveStops(inbox: seq<StreamEvent>, parsed: seq<Result<Fields>>,
                                        st: UploadState, md5: Hasher)
    requires |parsed| == |inbox|
    ensures var n := ReceiveChunks(inbox, parsed, st, md5).consumed;
      && (forall k :: 0 <= k < n - 1 ==> !Stops(inbox[k], parsed[k]))
      && (n < |inbox| ==> 0 < n && Stops(inbox[n - 1], parsed[n - 1]))
    decreases |inbox|
  {
    if inbox != [] && !Stops(inbox[0], parsed[0]) {
      var next := if inbox[0].data == [] then st else Accept(st, parsed[0].value, md5);
      ReceiveStops(inbox[1..], parsed[1..], next, md5);
      var n := ReceiveChunks(inbox[1..], parsed[1..], next, md5).consumed;
      assert ReceiveChunks(inbox, parsed, st, md5).consumed == n + 1;
      assert forall k :: 1 <= k < n ==> inbox[k] == inbox[1..][k - 1] && parsed[k] == parsed[1..][k - 1];
    }
  }

  /** The datagrams the upload loop accepts, in order, given the last
      sequence number accepted so far: numbered on from it, one by one, each
      with a valid checksum. */
  function Accepted(inbox: seq<StreamEvent>, parsed: seq<Result<Fields>>, lastSeq: int, md5: Hasher): (r: seq<Fields>)
    requires |parsed| == |inbox|
    ensures forall j :: 0 <= j < |r| ==> r[j].sequenceNum == lastSeq + 1 + j && r[j].ChecksumValid(md5)
    decreases |inbox|
  {
    if inbox == [] || inbox[0].endStream then []
    else if inbox[0].data == [] then Accepted(inbox[1..], parsed[1..], lastSeq, md5)
    else match parsed[0]
      case Err(_) => []
      case Ok(dm) =>
        if dm.ChecksumValid(md5) && dm.sequenceNum == lastSeq + 1 then
          [dm] + Accepted(inbox[1..], parsed[1..], dm.sequenceNum, md5)
        else Accepted(inbox[1..], parsed[1..], lastSeq, md5)
  }

  /** The data fields of a run of datagrams. */
  function Payloads(a: seq<Fields>): seq<seq<byte>>
  {
    seq(|a|, j requires 0 <= j < |a| => a[j].data)
  }

  /** The file the upload loop writes is the in-order concatenation of the
      chunks it accepted, and each counter grows by one per accepted chunk. */
  lemma {:induction false} ReceiveWritesAccepted(inbox: seq<StreamEvent>, parsed: seq<Result<Fields>>,
                                                 st: UploadState, md5: Hasher)
    requires |parsed| == |inbox|
    ensures var r := ReceiveChunks(inbox, parsed, st, md5);
      var a := Accepted(inbox, parsed, st.lastSeq, md5);
      && r.state.written == st.written + Flatten(Payloads(a))
      && r.state.lastSeq == st.lastSeq + |a| && r.state.totalChunks == st.totalChunks + |a|
    decreases |inbox|
  {
    if inbox == [] || inbox[0].endStream {
      assert Accepted(inbox, parsed, st.lastSeq, md5) == [];
    } else if inbox[0].data == [] {
      ReceiveWritesAccepted(inbox[1..], parsed[1..], st, md5);
    } else if parsed[0].Ok? {
      var dm := parsed[0].value;
      var next := Accept(st, dm, md5);
      ReceiveWritesAccepted(inbox[1..], parsed[1..], next, md5);
      if next != st {
        var tail := Accepted(inbox[1..], parsed[1..], dm.sequenceNum, md5);
        var a := [dm] + tail;
        assert Accepted(inbox, parsed, st.lastSeq, md5) == a;
        assert Payloads(a)[1..] == Payloads(tail);
        ConcatAssoc(st.written, dm.data, Flatten(Payloads(tail)));
      }
    } else {
      assert Accepted(inbox, parsed, st.lastSeq, md5) == [];
    }
  }

  /** When the requested file is missing, `handle_download` sends only the
      ERROR "File not found" on the transaction id without ending the stream:
      no RESPONSE and no DATA; and that ERROR is one `from_bytes` cannot read
      back. */
  lemma DownloadMissing(init: Fields, files: FileStore, md5: Hasher)
    requires init.filename !in files
    ensures var h := Download(init, files, md5);
      && h.outcome == Done && |h.sent| == 1
      && h.sent[0].streamId == init.transactionId && !h.sent[0].endStream
      && Encode(NoticeRecord(MsgTypeError, FileNotFound)) == Ok(h.sent[0].data)
      && Decode(h.sent[0].data) == Err(StructError)
  {
    FileNotFoundWireEncodes();
  }

  /** For a file of `S` bytes, `handle_download` sends a RESPONSE carrying
      `filesize = S`, then `ceil(S / 10240)` DATA datagrams numbered 1..n
      holding the pieces of the file, then one empty end-of-stream event, all
      on the transaction id. */
  lemma DownloadServes(init: Fields, files: FileStore, md5: Hasher)
    requires init.filename in files
    requires var video := files[init.filename];
      Encodable(ResponseRecord(init.filename, |video|)) && NumChunks(|video|) < Two32
    ensures var video := files[init.filename];
      var h := Download(init, files, md5);
      var n := NumChunks(|video|);
      var tid := init.transactionId;
      && h.outcome == Done && |h.sent| == n + 2
      && h.sent[0].streamId == tid && !h.sent[0].endStream
      && Encode(ResponseRecord(init.filename, |video|)) == Ok(h.sent[0].data)
      && (Utf8.IsAscii(init.filename) ==> Decode(h.sent[0].data) == Ok(ResponseRecord(init.filename, |video|)))
      && |Chunks(video)| == n
      && (forall k :: 0 <= k < n ==>
            Encode(DataRecord(k + 1, Chunks(video)[k], md5)).Ok?
            && h.sent[k + 1] == DataEvent(tid, k + 1, Chunks(video)[k], md5))
      && h.sent[n + 1] == EndOfStream(tid)
  {
    var video := files[init.filename];
    var record := ResponseRecord(init.filename, |video|);
    SendFileShape(init.transactionId, video, md5);
    if Utf8.IsAscii(init.filename) {
      assert PduProperties.AsciiText(record);
      PduProperties.RoundTrip(record);
    }
  }

  /** The server may write files only under names starting `received_`; no
      file disappears. */
  predicate OnlyUploadsWritten(before: FileStore, after: FileStore)
  {
    && (forall p :: p in before ==> p in after)
    && (forall p :: p in after && (p !in before || after[p] != before[p]) ==>
          |ReceivedPrefix| <= |p| && p[..|ReceivedPrefix|] == ReceivedPrefix)
  }

  lemma OnlyUploadsWrittenChains(a: FileStore, b: FileStore, c: FileStore)
    requires OnlyUploadsWritten(a, b) && OnlyUploadsWritten(b, c)
    ensures OnlyUploadsWritten(a, c)
  {
  }

  /** One handler touches at most the file named after the upload. */
  lemma HandleWritesUploads(m: Fields, sid: int, inbox: seq<StreamEvent>, files: FileStore, md5: Hasher)
    ensures OnlyUploadsWritten(files, Handle(m, sid, inbox, files, md5).files)
  {
    var path := ReceivedPrefix + m.filename;
    assert path[..|ReceivedPrefix|] == ReceivedPrefix;
  }

  /** Over a whole connection the server never alters or removes a file it
      serves for download: everything it writes is named `received_...`. */
  lemma {:induction false} ServeWritesUploads(inbox: seq<StreamEvent>, files: FileStore, md5: Hasher)
    ensures OnlyUploadsWritten(files, Serve(inbox, files, md5).files)
    decreases |inbox|, 0
  {
    if inbox != [] && Decode(inbox[0].data).Ok? {
      ServeFromWritesUploads(Decode(inbox[0].data).value, inbox[0].streamId, inbox[1..], files, md5);
    }
  }

  lemma {:induction false} ServeFromWritesUploads(m: Fields, sid: int, inbox: seq<StreamEvent>,
                                                  files: FileStore, md5: Hasher)
    ensures OnlyUploadsWritten(files, ServeFrom(m, sid, inbox, files, md5).files)
    decreases |inbox|, 1
  {
    var h := Handle(m, sid, inbox, files, md5);
    HandleWritesUploads(m, sid, inbox, files, md5);
    if !h.outcome.Raised? {
      ServeWritesUploads(inbox[h.consumed..], h.files, md5);
      OnlyUploadsWrittenChains(files, h.files, Serve(inbox[h.consumed..], h.files, md5).files);
    }
  }
}
