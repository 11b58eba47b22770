/** How a whole file is sent as DATA datagrams: the server when it serves a
    download and the client when it uploads use the same rule. */
module Chunking {
  import opened Base
  import opened Struct
  import Utf8
  import opened Pdu
  import PduProperties
  import opened Transport

  /** `chunk_size = 10 * 1024`. */
  const ChunkSize: nat := 10 * 1024

  /** `num_chunks = (filesize + chunk_size - 1) // chunk_size`. */
  function NumChunks(size: nat): nat
  {
    (size + ChunkSize - 1) / ChunkSize
  }

  /** The file cut into consecutive pieces of `ChunkSize` bytes, the last one
      possibly shorter. */
  function Chunks(video: seq<byte>): seq<seq<byte>>
    decreases |video|
  {
    if video == [] then [] else [Prefix(video, ChunkSize)] + Chunks(Skip(video, ChunkSize))
  }

  /** There are `num_chunks` pieces. */
  lemma {:induction false} ChunksCount(video: seq<byte>)
    ensures |Chunks(video)| == NumChunks(|video|)
    decreases |video|
  {
    if video != [] {
      ChunksCount(Skip(video, ChunkSize));
      if |video| > ChunkSize {
        assert NumChunks(|video|) == NumChunks(|video| - ChunkSize) + 1;
      }
    }
  }

  /** Every piece but the last is full, and the last is not empty. */
  lemma {:induction false} ChunkSizes(video: seq<byte>)
    ensures forall k :: 0 <= k < |Chunks(video)| - 1 ==> |Chunks(video)[k]| == ChunkSize
    ensures video != [] ==> 0 < |Chunks(video)[|Chunks(video)| - 1]| <= ChunkSize
    decreases |video|
  {
    if video != [] {
      var rest := Skip(video, ChunkSize);
      ChunkSizes(rest);
      if rest == [] {
        assert Chunks(video) == [Prefix(video, ChunkSize)];
      } else {
        assert |video| > ChunkSize;
        assert forall k :: 1 <= k < |Chunks(video)| ==> Chunks(video)[k] == Chunks(rest)[k - 1];
      }
    }
  }

  /** No piece is longer than `ChunkSize`. */
  lemma ChunksBounded(video: seq<byte>)
    ensures forall k :: 0 <= k < |Chunks(video)| ==> |Chunks(video)[k]| <= ChunkSize
  {
    ChunkSizes(video);
    forall k | 0 <= k < |Chunks(video)| ensures |Chunks(video)[k]| <= ChunkSize {
      if k < |Chunks(video)| - 1 { } else { assert video != []; }
    }
  }

  /** The pieces put back together in order are the file. */
  lemma {:induction false} FlattenChunks(video: seq<byte>)
    ensures Flatten(Chunks(video)) == video
    decreases |video|
  {
    if video != [] {
      var rest := Skip(video, ChunkSize);
      FlattenChunks(rest);
      assert Chunks(video)[1..] == Chunks(rest);
    }
  }

  /** The pieces after the first `k` are the pieces of the bytes after `k`
      full chunks. */
  lemma {:induction false} ChunksFrom(video: seq<byte>, k: nat)
    requires k <= |Chunks(video)|
    ensures Chunks(video)[k..] == Chunks(Skip(video, k * ChunkSize))
    decreases k
  {
    if k > 0 {
      var rest := Skip(video, ChunkSize);
      assert video != [];
      assert Chunks(video)[k..] == Chunks(rest)[k - 1..];
      ChunksFrom(rest, k - 1);
      SkipSkip(video, ChunkSize, (k - 1) * ChunkSize);
      KthMultiple(k - 1);
    }
  }

  /** Piece `k` is `video_data[i:i + chunk_size]` with `i = k * chunk_size`,
      the slice the sending loops take. */
  lemma ChunkAt(video: seq<byte>, k: nat)
    requires k < |Chunks(video)|
    ensures Chunks(video)[k] == Slice(video, k * ChunkSize, k * ChunkSize + ChunkSize)
  {
    ChunksFrom(video, k);
    assert Chunks(video)[k] == Chunks(video)[k..][0];
  }

  lemma KthMultiple(k: nat)
    ensures (k * ChunkSize) / ChunkSize == k
    ensures (k + 1) * ChunkSize == k * ChunkSize + ChunkSize
  {
  }

  /** The DATA datagram carrying piece `sequenceNum` after `calculate_checksum`. */
  function DataRecord(sequenceNum: int, chunk: seq<byte>, md5: Hasher): Fields
  {
    Fields(MsgTypeData, "", "", 0, 0, sequenceNum, chunk, md5(chunk))
  }

  /** `to_bytes` of each piece's DATA datagram, numbered from `first`. */
  function DataPackets(chunks: seq<seq<byte>>, first: int, md5: Hasher): seq<Result<seq<byte>>>
  {
    seq(|chunks|, k requires 0 <= k < |chunks| => Encode(DataRecord(first + k, chunks[k], md5)))
  }

  /** A DATA datagram can be packed exactly when its sequence number fits in
      32 bits (a piece is never longer than `ChunkSize`). */
  lemma DataPacketOk(sequenceNum: int, chunk: seq<byte>, md5: Hasher)
    requires |chunk| <= ChunkSize
    ensures Encode(DataRecord(sequenceNum, chunk, md5)).Ok? <==> FitsU32(sequenceNum)
    ensures Encode(DataRecord(sequenceNum, chunk, md5)).Err? ==>
              Encode(DataRecord(sequenceNum, chunk, md5)).error == StructError
  {
  }

  /** What a sending loop sent, and how it ended. */
  datatype Sending = Sending(events: seq<StreamEvent>, outcome: Outcome)

  /** Sends the packed datagrams in order on stream `sid`; the first one that
      could not be packed raised `struct.error` and ended the loop. */
  function Transmit(sid: int, packets: seq<Result<seq<byte>>>): Sending
    decreases |packets|
  {
    if packets == [] then Sending([], Done)
    else match packets[0]
      case Err(e) => Sending([], Raised(e))
      case Ok(b) =>
        var tail := Transmit(sid, packets[1..]);
        Sending([StreamEvent(sid, b, false)] + tail.events, tail.outcome)
  }

  /** The end-of-stream event that closes a transfer. */
  function EndOfStream(sid: int): StreamEvent
  {
    StreamEvent(sid, [], true)
  }

  /** The whole file as DATA events numbered from 1, then the empty
      end-of-stream event. */
  function SendFile(sid: int, video: seq<byte>, md5: Hasher): Sending
  {
    var s := Transmit(sid, DataPackets(Chunks(video), 1, md5));
    if s.outcome.Done? then Sending(s.events + [EndOfStream(sid)], Done) else s
  }

  /** The event that carries the DATA datagram of one piece. */
  function DataEvent(sid: int, sequenceNum: int, chunk: seq<byte>, md5: Hasher): StreamEvent
    requires Encode(DataRecord(sequenceNum, chunk, md5)).Ok?
  {
    StreamEvent(sid, Encode(DataRecord(sequenceNum, chunk, md5)).value, false)
  }

  /** When every datagram could be packed, all of them are sent, in order. */
  lemma {:induction false} TransmitAll(sid: int, packets: seq<Result<seq<byte>>>)
    requires forall k :: 0 <= k < |packets| ==> packets[k].Ok?
    ensures Transmit(sid, packets).outcome == Done
    ensures |Transmit(sid, packets).events| == |packets|
    ensures forall k :: 0 <= k < |packets| ==>
              Transmit(sid, packets).events[k] == StreamEvent(sid, packets[k].value, false)
    decreases |packets|
  {
    if packets != [] {
      var tail := packets[1..];
      TransmitAll(sid, tail);
      assert forall k :: 1 <= k < |packets| ==> packets[k] == tail[k - 1];
    }
  }

  /** When datagram `j` is the first that could not be packed, the ones
      before it are sent and the loop raises its error. */
  lemma {:induction false} TransmitUntil(sid: int, packets: seq<Result<seq<byte>>>, j: nat)
    requires j < |packets| && packets[j].Err?
    requires forall k :: 0 <= k < j ==> packets[k].Ok?
    ensures Transmit(sid, packets).outcome == Raised(packets[j].error)
    ensures |Transmit(sid, packets).events| == j
    decreases j
  {
    if j > 0 {
      var tail := packets[1..];
      assert forall k :: 0 <= k < j - 1 ==> tail[k] == packets[k + 1];
      TransmitUntil(sid, tail, j - 1);
    }
  }

  /** For every file with fewer than `2**32` pieces, `SendFile` sends
      `ceil(S / 10240)` DATA events numbered 1..n in order, whose payloads
      are the pieces of the file, and then one empty end-of-stream event. */
  lemma SendFileShape(sid: int, video: seq<byte>, md5: Hasher)
    requires NumChunks(|video|) < Two32
    ensures |Chunks(video)| == NumChunks(|video|)
    ensures var s := SendFile(sid, video, md5);
      var n := NumChunks(|video|);
      && s.outcome == Done && |s.events| == n + 1
      && s.events[n] == EndOfStream(sid)
      && forall k :: 0 <= k < n ==>
           Encode(DataRecord(k + 1, Chunks(video)[k], md5)).Ok?
           && s.events[k] == DataEvent(sid, k + 1, Chunks(video)[k], md5)
  {
    ChunksCount(video);
    ChunksBounded(video);
    var chunks := Chunks(video);
    var packets := DataPackets(chunks, 1, md5);
    forall k | 0 <= k < |chunks| ensures packets[k].Ok? {
      DataPacketOk(k + 1, chunks[k], md5);
    }
    TransmitAll(sid, packets);
  }

  /** The same shape behind one leading event (the RESPONSE or REQUEST that
      precedes a file's DATA events). */
  lemma SendFileAfter(first: StreamEvent, sid: int, video: seq<byte>, md5: Hasher)
    requires NumChunks(|video|) < Two32
    ensures |Chunks(video)| == NumChunks(|video|)
    ensures var s := SendFile(sid, video, md5);
      var sent := [first] + s.events;
      var n := NumChunks(|video|);
      && s.outcome == Done && |sent| == n + 2 && sent[0] == first
      && sent[n + 1] == EndOfStream(sid)
      && forall k :: 0 <= k < n ==>
           Encode(DataRecord(k + 1, Chunks(video)[k], md5)).Ok?
           && sent[k + 1] == DataEvent(sid, k + 1, Chunks(video)[k], md5)
  {
    SendFileShape(sid, video, md5);
    var s := SendFile(sid, video, md5);
    var sent := [first] + s.events;
    forall k | 0 <= k < NumChunks(|video|)
      ensures sent[k + 1] == s.events[k]
    {
    }
  }

  /** Numbering reaches `2**32` only for a file of more than `(2**32 - 1) *
      10240` bytes; then the loop sends the pieces numbered up to `2**32 - 1`
      and raises `struct.error` packing the next sequence number, before the
      end-of-stream event. */
  lemma SendFileOverflow(sid: int, video: seq<byte>, md5: Hasher)
    requires NumChunks(|video|) >= Two32
    ensures SendFile(sid, video, md5).outcome == Raised(StructError)
    ensures |SendFile(sid, video, md5).events| == Two32 - 1
  {
    ChunksCount(video);
    ChunksBounded(video);
    var chunks := Chunks(video);
    var packets := DataPackets(chunks, 1, md5);
    forall k | 0 <= k < Two32 - 1 ensures packets[k].Ok? {
      DataPacketOk(k + 1, chunks[k], md5);
    }
    DataPacketOk(Two32, chunks[Two32 - 1], md5);
    TransmitUntil(sid, packets, Two32 - 1);
  }

  /** Each DATA event decodes back to its datagram, and that datagram passes
      `is_checksum_valid` whenever the digest is an MD5-style hex string. */
  lemma DataRecordDecodes(sequenceNum: int, chunk: seq<byte>, md5: Hasher)
    requires 0 <= sequenceNum < Two32 && |chunk| <= ChunkSize
    ensures Encode(DataRecord(sequenceNum, chunk, md5)).Ok?
    ensures Decode(Encode(DataRecord(sequenceNum, chunk, md5)).value) == Ok(DataRecord(sequenceNum, chunk, md5))
    ensures |Encode(DataRecord(sequenceNum, chunk, md5)).value| > 0
    ensures IsMd5Like(md5) ==> DataRecord(sequenceNum, chunk, md5).ChecksumValid(md5)
  {
    var f := DataRecord(sequenceNum, chunk, md5);
    assert PduProperties.AsciiText(f);
    PduProperties.RoundTrip(f);
    PduProperties.EncodeLayout(f);
    if IsMd5Like(md5) {
      assert IsHexDigest(md5(chunk));
    }
  }

  /** `for i in range(0, filesize, chunk_size)` and then the empty
      end-of-stream event. The reply stream of a download and the upload
      stream of the client both go through this loop. */
  method SendChunks(conn: Connection, sid: int, video: seq<byte>, md5: Hasher) returns (outcome: Outcome)
    modifies conn
    ensures var s := SendFile(sid, video, md5);
      && outcome == s.outcome && conn.sent == old(conn.sent) + s.events
      && conn.inbox == old(conn.inbox) && conn.streams == old(conn.streams)
  {
    outcome := SendPieces(conn, sid, video, md5);
    if outcome.Raised? {
      return;
    }
    conn.Send(EndOfStream(sid));
  }

  /** The loop proper: each piece is built as a DATA datagram, given its
      checksum, packed and sent on `sid`, until one cannot be packed. */
  method SendPieces(conn: Connection, sid: int, video: seq<byte>, md5: Hasher) returns (outcome: Outcome)
    modifies conn
    ensures var s := Transmit(sid, DataPackets(Chunks(video), 1, md5));
      && outcome == s.outcome && conn.sent == old(conn.sent) + s.events
      && conn.inbox == old(conn.inbox) && conn.streams == old(conn.streams)
  {
    var filesize := |video|;
    ghost var chunks := Chunks(video);
    ghost var packets := DataPackets(chunks, 1, md5);
    ghost var all := Transmit(sid, packets);
    ghost var sent0 := conn.sent;
    ghost var done: seq<StreamEvent> := [];
    ghost var k: nat := 0;
    var i := 0;
    while i < filesize
      invariant i == k * ChunkSize && k <= |chunks|
      invariant chunks[k..] == Chunks(Skip(video, i))
      invariant var rest := Transmit(sid, packets[k..]);
        all.events == done + rest.events && all.outcome == rest.outcome
      invariant conn.sent == sent0 + done
      invariant conn.inbox == old(conn.inbox) && conn.streams == old(conn.streams)
      decreases filesize - i
    {
      var chunkData := Slice(video, i, i + ChunkSize);
      SendStep(video, chunks, k, i);
      TransmitStep(sid, packets, k, done, all);
      var bytes := SendData(conn, sid, i / ChunkSize + 1, chunkData, md5);
      assert bytes == packets[k];
      if bytes.Err? {
        return Raised(bytes.error);
      }
      ConcatAssoc(sent0, done, [StreamEvent(sid, bytes.value, false)]);
      done := done + [StreamEvent(sid, bytes.value, false)];
      i := i + ChunkSize;
      k := k + 1;
    }
    assert packets[k..] == [];
    assert all.events == done + [];
    return Done;
  }

  /** One turn of `Transmit`, seen from the events already sent. */
  lemma TransmitStep(sid: int, packets: seq<Result<seq<byte>>>, k: nat, done: seq<StreamEvent>, all: Sending)
    requires k < |packets|
    requires all.events == done + Transmit(sid, packets[k..]).events
    requires all.outcome == Transmit(sid, packets[k..]).outcome
    ensures packets[k].Err? ==> all.events == done && all.outcome == Raised(packets[k].error)
    ensures packets[k].Ok? ==>
      && all.events == (done + [StreamEvent(sid, packets[k].value, false)]) + Transmit(sid, packets[k + 1..]).events
      && all.outcome == Transmit(sid, packets[k + 1..]).outcome
  {
    assert packets[k..][0] == packets[k] && packets[k..][1..] == packets[k + 1..];
  }

  /** The body of the sending loop: the DATA datagram for one piece is
      built, given its checksum, packed and, if packing succeeded, sent. */
  method SendData(conn: Connection, sid: int, sequenceNum: int, chunk: seq<byte>, md5: Hasher)
    returns (bytes: Result<seq<byte>>)
    modifies conn
    ensures bytes == Encode(DataRecord(sequenceNum, chunk, md5))
    ensures conn.sent == old(conn.sent) + (if bytes.Ok? then [StreamEvent(sid, bytes.value, false)] else [])
    ensures conn.inbox == old(conn.inbox) && conn.streams == old(conn.streams)
  {
    var dataMsg := new Datagram(MsgTypeData, "", sequenceNum := sequenceNum, data := chunk);
    dataMsg.CalculateChecksum(md5);
    bytes := dataMsg.ToBytes();
    if bytes.Ok? {
      conn.Send(StreamEvent(sid, bytes.value, false));
    }
  }

  /** One turn of the sending loop at piece `k`: the slice it takes is that
      piece, and the remaining pieces after it are those of the bytes after
      it. */
  lemma SendStep(video: seq<byte>, chunks: seq<seq<byte>>, k: nat, i: int)
    requires chunks == Chunks(video) && k <= |chunks| && i == k * ChunkSize
    requires chunks[k..] == Chunks(Skip(video, i))
    requires i < |video|
    ensures k < |chunks| && i / ChunkSize + 1 == k + 1 && i + ChunkSize == (k + 1) * ChunkSize
    ensures chunks[k] == Slice(video, i, i + ChunkSize)
    ensures chunks[k + 1..] == Chunks(Skip(video, i + ChunkSize))
  {
    KthMultiple(k);
    var suffix := Skip(video, i);
    assert suffix != [];
    assert Chunks(suffix) == [Prefix(suffix, ChunkSize)] + Chunks(Skip(suffix, ChunkSize));
    assert chunks[k..][0] == chunks[k] && chunks[k..][1..] == chunks[k + 1..];
    SkipSkip(video, i, ChunkSize);
  }
}
