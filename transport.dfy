/** The two things the transfer handlers talk to: the QUIC connection, seen
    as a queue of incoming stream events and a log of sent ones, and the
    local file system. */
module Transport {
  import opened Base
  import opened Pdu

  /** A `QuicStreamEvent`: a stream id, a payload and the end-of-stream flag. */
  datatype StreamEvent = StreamEvent(streamId: int, data: seq<byte>, endStream: bool)

  /** A connection: `receive` takes the next event of `inbox` (and raises once
      no further event will arrive), `send` appends to `sent`, `new_stream`
      hands out consecutive stream ids. */
  class Connection {
    var inbox: seq<StreamEvent>
    var sent: seq<StreamEvent>
    var streams: nat

    constructor (inbox: seq<StreamEvent>)
      ensures this.inbox == inbox && sent == [] && streams == 0
    {
      this.inbox := inbox;
      sent := [];
      streams := 0;
    }

    /** `await conn.receive()`. */
    method Receive() returns (r: Result<StreamEvent>)
      modifies this
      ensures old(inbox) == [] ==> r == Err(TransportClosed) && inbox == old(inbox)
      ensures old(inbox) != [] ==> r == Ok(old(inbox)[0]) && inbox == old(inbox)[1..]
      ensures sent == old(sent) && streams == old(streams)
    {
      if inbox == [] {
        return Err(TransportClosed);
      }
      r := Ok(inbox[0]);
      inbox := inbox[1..];
    }

    /** `await conn.send(event)`. */
    method Send(event: StreamEvent)
      modifies this
      ensures sent == old(sent) + [event]
      ensures inbox == old(inbox) && streams == old(streams)
    {
      sent := sent + [event];
    }

    /** `conn.new_stream()`: the number of streams opened so far. */
    method NewStream() returns (id: nat)
      modifies this
      ensures id == old(streams) && streams == old(streams) + 1
      ensures inbox == old(inbox) && sent == old(sent)
    {
      id := streams;
      streams := streams + 1;
    }
  }

  /** The files one side of the transfer can open, by path. */
  class Disk {
    var files: FileStore

    constructor (files: FileStore)
      ensures this.files == files
    {
      this.files := files;
    }

    /** `open(path, 'rb').read()`. */
    method ReadAll(path: string) returns (r: Result<seq<byte>>)
      ensures path in files ==> r == Ok(files[path])
      ensures path !in files ==> r == Err(FileNotFoundError)
    {
      if path in files {
        r := Ok(files[path]);
      } else {
        r := Err(FileNotFoundError);
      }
    }

    /** `open(path, 'wb')`: creates the file, or truncates it. */
    method Create(path: string)
      modifies this
      ensures files == old(files)[path := []]
    {
      files := files[path := []];
    }

    /** `f.write(bytes)` on a file opened for writing. */
    method Append(path: string, bytes: seq<byte>)
      requires path in files
      modifies this
      ensures files == old(files)[path := old(files)[path] + bytes]
    {
      files := files[path := files[path] + bytes];
    }
  }

  /** What `from_bytes` makes of the data of each event. */
  function Parsed(inbox: seq<StreamEvent>): (r: seq<Result<Fields>>)
    ensures |r| == |inbox|
    ensures forall k :: 0 <= k < |inbox| ==> r[k] == Decode(inbox[k].data)
    decreases |inbox|
  {
    if inbox == [] then [] else [Decode(inbox[0].data)] + Parsed(inbox[1..])
  }

  lemma {:induction false} ParsedSuffix(inbox: seq<StreamEvent>, j: nat)
    requires j <= |inbox|
    ensures Parsed(inbox)[j..] == Parsed(inbox[j..])
    decreases j
  {
    if j > 0 {
      ParsedSuffix(inbox[1..], j - 1);
      assert inbox[1..][j - 1..] == inbox[j..];
      assert Parsed(inbox)[j..] == Parsed(inbox)[1..][j - 1..];
    }
  }
}
