/** What the client's drivers promise, stated about the specification
    functions of video_client.py. */
module ClientProperties {
  import opened Base
  import opened Struct
  import opened Pdu
  import PduProperties
  import Utf8
  import opened Transport
  import opened Chunking
  import opened VideoClient

  /** `upload_video` of a path that does not exist raises before it opens a
      stream or sends anything. */
  lemma UploadMissingFile(filepath: string, files: FileStore, inbox: seq<StreamEvent>, sid: int, md5: Hasher)
    requires filepath !in files
    ensures Upload(filepath, files, inbox, sid, md5) == ClientRun(Raised(FileNotFoundError), [], 0, 0, files)
  {
  }

  /** A REQUEST that cannot be packed raises once the stream is open, with
      nothing sent. */
  lemma UploadRequestRaises(filepath: string, files: FileStore, inbox: seq<StreamEvent>, sid: int, md5: Hasher)
    requires filepath in files && !Encodable(RequestRecord(Basename(filepath), |files[filepath]|))
    ensures Upload(filepath, files, inbox, sid, md5) == ClientRun(Raised(StructError), [], 0, 1, files)
  {
  }

  /** Whatever the reply, the first event an upload sends is its REQUEST, on
      the new stream. */
  lemma UploadFirstEvent(filepath: string, files: FileStore, inbox: seq<StreamEvent>, sid: int, md5: Hasher)
    requires filepath in files && Encodable(RequestRecord(Basename(filepath), |files[filepath]|))
    ensures var u := Upload(filepath, files, inbox, sid, md5);
      && u.newStreams == 1 && 1 <= |u.sent|
      && u.sent[0] == StreamEvent(sid, Encode(RequestRecord(Basename(filepath), |files[filepath]|)).value, false)
  {
    var video := files[filepath];
    var first := StreamEvent(sid, Encode(RequestRecord(Basename(filepath), |video|)).value, false);
    var u := Upload(filepath, files, inbox, sid, md5);
    if inbox != [] && Decode(inbox[0].data).Ok? && Decode(inbox[0].data).value.mtype == MsgTypeResponse {
      var events := SendFile(sid, video, md5).events;
      assert u.sent == [first] + events;
      assert ([first] + events)[0] == first;
    }
  }

  /** The upload REQUEST names the file by its basename and carries its
      length; `from_bytes` reads it back when the basename is ASCII. */
  lemma UploadRequest(filepath: string, files: FileStore, inbox: seq<StreamEvent>, sid: int, md5: Hasher)
    requires filepath in files && Encodable(RequestRecord(Basename(filepath), |files[filepath]|))
    requires Utf8.IsAscii(Basename(filepath))
    ensures var u := Upload(filepath, files, inbox, sid, md5);
      1 <= |u.sent| && Decode(u.sent[0].data) == Ok(RequestRecord(Basename(filepath), |files[filepath]|))
  {
    var record := RequestRecord(Basename(filepath), |files[filepath]|);
    UploadFirstEvent(filepath, files, inbox, sid, md5);
    assert PduProperties.AsciiText(record);
    PduProperties.RoundTrip(record);
  }

  /** DATA and the end-of-stream event go out only after a first reply that
      decodes to a RESPONSE; when no reply arrives the call returns quietly
      after the REQUEST. */
  lemma UploadGate(filepath: string, files: FileStore, inbox: seq<StreamEvent>, sid: int, md5: Hasher)
    ensures var u := Upload(filepath, files, inbox, sid, md5);
      && (|u.sent| > 1 ==> inbox != [] && Decode(inbox[0].data).Ok? && Decode(inbox[0].data).value.mtype == MsgTypeResponse)
      && (filepath in files && inbox == [] ==> |u.sent| <= 1 && u.consumed == 0 && u.outcome.Done? == Encodable(RequestRecord(Basename(filepath), |files[filepath]|)))
  {
  }

  /** After a RESPONSE the client sends the file through the same loop as
      the server's download handler (`SendFile`, whose shape `SendFileShape`
      states), behind the REQUEST and on the new stream; that loop completes
      for every file with fewer than `2**32` pieces. */
  lemma UploadSendsFile(filepath: string, files: FileStore, inbox: seq<StreamEvent>, sid: int, md5: Hasher)
    requires filepath in files
    requires var video := files[filepath];
      Encodable(RequestRecord(Basename(filepath), |video|)) && NumChunks(|video|) < Two32
    requires inbox != [] && Decode(inbox[0].data).Ok? && Decode(inbox[0].data).value.mtype == MsgTypeResponse
    ensures var video := files[filepath];
      var request := Encode(RequestRecord(Basename(filepath), |video|)).value;
      Upload(filepath, files, inbox, sid, md5)
        == ClientRun(Done, [StreamEvent(sid, request, false)] + SendFile(sid, video, md5).events, 1, 1, files)
  {
    SendFileShape(sid, files[filepath], md5);
  }

  /** The download REQUEST names the file and leaves `filesize` at 0. */
  lemma DownloadRequest(filename: string, files: FileStore, inbox: seq<StreamEvent>, sid: int, md5: Hasher)
    requires Encodable(RequestRecord(filename, 0))
    ensures var d := Download(filename, files, inbox, sid, md5);
      && d.newStreams == 1 && 1 <= |d.sent|
      && d.sent[0] == StreamEvent(sid, Encode(RequestRecord(filename, 0)).value, false)
      && (Utf8.IsAscii(filename) ==> Decode(d.sent[0].data) == Ok(RequestRecord(filename, 0)))
  {
    if Utf8.IsAscii(filename) {
      assert PduProperties.AsciiText(RequestRecord(filename, 0));
      PduProperties.RoundTrip(RequestRecord(filename, 0));
    }
  }

  /** No output file is created unless the first reply decodes to a RESPONSE. */
  lemma DownloadNeedsResponse(filename: string, files: FileStore, inbox: seq<StreamEvent>, sid: int, md5: Hasher)
    requires inbox == [] || Decode(inbox[0].data).Err? || Decode(inbox[0].data).value.mtype != MsgTypeResponse
    ensures Download(filename, files, inbox, sid, md5).files == files
    ensures |Download(filename, files, inbox, sid, md5).sent| <= 1
  {
  }

  /** The data of the checksum-valid datagrams among `parsed`, in order. */
  function ValidChunks(parsed: seq<Result<Fields>>, md5: Hasher): seq<seq<byte>>
  {
    if parsed == [] then []
    else if parsed[0].Ok? && parsed[0].value.ChecksumValid(md5) then [parsed[0].value.data] + ValidChunks(parsed[1..], md5)
    else ValidChunks(parsed[1..], md5)
  }

  /** The download loop ends normally exactly at the first end-of-stream
      event; it raises `TransportClosed` when the events run out first, and
      the decode error of the first event that does not decode; every event
      before the last one it takes decoded. */
  lemma {:induction false} ReceiveFileEnds(inbox: seq<StreamEvent>, parsed: seq<Result<Fields>>,
                                           written: seq<byte>, md5: Hasher)
    requires |parsed| == |inbox|
    ensures var r := ReceiveFile(inbox, parsed, written, md5);
      && (r.outcome.Done? ==> 0 < r.consumed && inbox[r.consumed - 1].endStream)
      && (forall k :: 0 <= k < r.consumed - 1 ==> !inbox[k].endStream && parsed[k].Ok?)
      && (r.outcome.Raised? ==>
            (r.consumed == |inbox| && r.outcome.error == TransportClosed && (r.consumed == 0 || !inbox[r.consumed - 1].endStream))
            || (0 < r.consumed && !inbox[r.consumed - 1].endStream && parsed[r.consumed - 1] == Err(r.outcome.error)))
    decreases |inbox|
  {
    if inbox != [] && !inbox[0].endStream && parsed[0].Ok? {
      var dm := parsed[0].value;
      var next := if dm.ChecksumValid(md5) then written + dm.data else written;
      ReceiveFileEnds(inbox[1..], parsed[1..], next, md5);
      var r' := ReceiveFile(inbox[1..], parsed[1..], next, md5);
      assert forall k :: 1 <= k < r'.consumed + 1 ==> inbox[k] == inbox[1..][k - 1] && parsed[k] == parsed[1..][k - 1];
    }
  }

  /** The download loop writes the arrival-order concatenation of the data of
      the checksum-valid chunks among the events before the one it ends at
      (all of them when it runs out of events), whatever their sequence
      numbers. */
  lemma {:induction false} ReceiveFileWrites(inbox: seq<StreamEvent>, parsed: seq<Result<Fields>>,
                                             written: seq<byte>, md5: Hasher)
    requires |parsed| == |inbox|
    ensures var r := ReceiveFile(inbox, parsed, written, md5);
      var m := if r.outcome == Raised(TransportClosed) then r.consumed else r.consumed - 1;
      0 <= m && r.written == written + Flatten(ValidChunks(parsed[..m], md5))
    decreases |inbox|
  {
    if inbox == [] {
      assert parsed[..0] == [];
    } else if inbox[0].endStream {
      assert parsed[..0] == [];
    } else if parsed[0].Err? {
      ReceiveFileEnds(inbox, parsed, written, md5);
      assert parsed[..0] == [];
    } else {
      var dm := parsed[0].value;
      var next := if dm.ChecksumValid(md5) then written + dm.data else written;
      ReceiveFileWrites(inbox[1..], parsed[1..], next, md5);
      var r' := ReceiveFile(inbox[1..], parsed[1..], next, md5);
      var m' := if r'.outcome == Raised(TransportClosed) then r'.consumed else r'.consumed - 1;
      assert parsed[..m' + 1] == [parsed[0]] + parsed[1..][..m'];
      assert parsed[..m' + 1][1..] == parsed[1..][..m'];
      var rest := ValidChunks(parsed[1..][..m'], md5);
      if dm.ChecksumValid(md5) {
        assert ValidChunks(parsed[..m' + 1], md5) == [dm.data] + rest;
        assert ([dm.data] + rest)[1..] == rest;
        ConcatAssoc(written, dm.data, Flatten(rest));
      } else {
        assert ValidChunks(parsed[..m' + 1], md5) == rest;
      }
    }
  }
}
