/** The QVTP datagram and its wire codec (pdu.py). */
module Pdu {
  import opened Base
  import opened Struct
  import Utf8

  const MsgTypeRequest: int := 1
  const MsgTypeResponse: int := 2
  const MsgTypeData: int := 3
  const MsgTypeAck: int := 4
  const MsgTypeError: int := 5

  /** `hashlib.md5(b).hexdigest()`, left abstract: the model is given the
      digest as a parameter and assumes only its output format where needed. */
  type Hasher = seq<byte> -> string

  predicate IsHexDigest(s: string)
  {
    |s| == 32 && forall i :: 0 <= i < |s| ==> s[i] in "0123456789abcdef"
  }

  /** Every digest the function returns looks like an MD5 hex digest. */
  ghost predicate IsMd5Like(md5: Hasher)
  {
    forall b :: IsHexDigest(md5(b))
  }

  /** The field values of one Datagram object. Integers are Python ints
      (unbounded); text fields are Python str. */
  datatype Fields = Fields(
    mtype: int,
    msg: string,
    filename: string,
    filesize: int,
    transactionId: int,
    sequenceNum: int,
    data: seq<byte>,
    checksum: string)
  {
    /** `is_checksum_valid`: an empty checksum never validates. */
    predicate ChecksumValid(md5: Hasher)
    {
      checksum != [] && checksum == md5(data)
    }
  }

  /** Only REQUEST, RESPONSE and DATA carry the extended section on the wire. */
  predicate HasExtension(mtype: int)
  {
    mtype == MsgTypeRequest || mtype == MsgTypeResponse || mtype == MsgTypeData
  }

  /** Every integer `to_bytes` packs is within its struct format's range. */
  predicate Encodable(f: Fields)
  {
    && FitsU32(f.mtype) && FitsU32(|f.msg|)
    && (HasExtension(f.mtype) ==>
          FitsU32(|f.filename|) && FitsU64(f.filesize) && FitsU32(f.transactionId)
          && FitsU32(f.sequenceNum) && FitsU32(|f.data|))
  }

  /** The header that every datagram starts with: type, text length, text. */
  function Header(f: Fields): seq<byte>
    requires FitsU32(f.mtype) && FitsU32(|f.msg|)
  {
    BE32(f.mtype) + (BE32(|f.msg|) + Utf8.Encode(f.msg))
  }

  /** The extended section of REQUEST, RESPONSE and DATA datagrams. */
  function Extension(f: Fields): seq<byte>
    requires FitsU32(|f.filename|) && FitsU64(f.filesize) && FitsU32(f.transactionId)
    requires FitsU32(f.sequenceNum) && FitsU32(|f.data|)
  {
    BE32(|f.filename|) + (Utf8.Encode(f.filename) + Trailer(f))
  }

  /** The part of the extended section after the filename. */
  function Trailer(f: Fields): seq<byte>
    requires FitsU64(f.filesize) && FitsU32(f.transactionId)
    requires FitsU32(f.sequenceNum) && FitsU32(|f.data|)
  {
    BE64(f.filesize) + (BE32(f.transactionId) + (BE32(f.sequenceNum) + (BE32(|f.data|)
    + (f.data + Utf8.Encode(f.checksum)))))
  }

  /** `to_bytes`: fails with `struct.error` exactly when a packed integer is
      out of range; otherwise the header, then the extended section for the
      types that carry one. */
  function Encode(f: Fields): (r: Result<seq<byte>>)
    ensures r.Ok? <==> Encodable(f)
    ensures r.Err? ==> r.error == StructError
  {
    if !(FitsU32(f.mtype) && FitsU32(|f.msg|)) then Err(StructError)
    else if !HasExtension(f.mtype) then Ok(Header(f))
    else if !(FitsU32(|f.filename|) && FitsU64(f.filesize) && FitsU32(f.transactionId)
              && FitsU32(f.sequenceNum) && FitsU32(|f.data|)) then Err(StructError)
    else Ok(Header(f) + Extension(f))
  }

  lemma AppendChain(h: seq<byte>, a1: seq<byte>, a2: seq<byte>, a3: seq<byte>, a4: seq<byte>,
                    a5: seq<byte>, a6: seq<byte>, a7: seq<byte>, a8: seq<byte>)
    ensures h + a1 + a2 + a3 + a4 + a5 + a6 + a7 + a8
         == h + (a1 + (a2 + (a3 + (a4 + (a5 + (a6 + (a7 + a8)))))))
  {
  }

  /** `b.decode('utf-8')` as a result. */
  function DecodeText(b: seq<byte>): (r: Result<string>)
    ensures r.Err? ==> r.error == UnicodeDecodeError
  {
    match Utf8.Decode(b)
    case None => Err(UnicodeDecodeError)
    case Some(s) => Ok(s)
  }

  /** `from_bytes`, read front to back. Every fixed-width field must be fully
      present (else `struct.error`); a text field that is not UTF-8 raises
      `UnicodeDecodeError`. A payload whose declared length runs past the end
      is truncated, not rejected, and then the checksum is empty. */
  function Decode(buf: seq<byte>): (r: Result<Fields>)
  {
    if |buf| < 8 then Err(StructError) else
    var msgLen := Unpack32(buf[4..8]);
    var msg :- DecodeText(Prefix(buf[8..], msgLen));
    DecodeFilename(Unpack32(buf[..4]), msg, Skip(buf[8..], msgLen))
  }

  /** The rest of `from_bytes` once the type and the message are read. */
  function DecodeFilename(mtype: int, msg: string, rest: seq<byte>): (r: Result<Fields>)
  {
    if |rest| < 4 then Err(StructError) else
    var filenameLen := Unpack32(rest[..4]);
    var filename :- DecodeText(Prefix(rest[4..], filenameLen));
    DecodeTail(mtype, msg, filename, Skip(rest[4..], filenameLen))
  }

  /** The rest of `from_bytes` once the filename is read: four fixed-width
      integers, the payload and the checksum text. */
  function DecodeTail(mtype: int, msg: string, filename: string, rest: seq<byte>): (r: Result<Fields>)
  {
    if |rest| < 20 then Err(StructError) else
    var dataLen := Unpack32(rest[16..20]);
    var checksum :- DecodeText(Skip(rest[20..], dataLen));
    Ok(Fields(mtype, msg, filename, Unpack64(rest[..8]), Unpack32(rest[8..12]),
              Unpack32(rest[12..16]), Prefix(rest[20..], dataLen), checksum))
  }

  /** `struct.unpack('!I', buf[index:index+4])[0]`. */
  function UnpackAt32(buf: seq<byte>, index: nat): (r: Result<int>)
    ensures r.Ok? <==> index + 4 <= |buf|
    ensures r.Ok? ==> r.value == Unpack32(buf[index..index + 4])
    ensures r.Err? ==> r.error == StructError
  {
    var field := Slice(buf, index, index + 4);
    if |field| == 4 then Ok(Unpack32(field)) else Err(StructError)
  }

  /** `struct.unpack('!Q', buf[index:index+8])[0]`. */
  function UnpackAt64(buf: seq<byte>, index: nat): (r: Result<int>)
    ensures r.Ok? <==> index + 8 <= |buf|
    ensures r.Ok? ==> r.value == Unpack64(buf[index..index + 8])
    ensures r.Err? ==> r.error == StructError
  {
    var field := Slice(buf, index, index + 8);
    if |field| == 8 then Ok(Unpack64(field)) else Err(StructError)
  }

  /** The four fixed-width fields after the filename, read at absolute
      offsets, are those `DecodeTail` reads from the suffix. */
  lemma TailFields(buf: seq<byte>, index: nat)
    requires index + 20 <= |buf|
    ensures var rest := Skip(buf, index);
      && buf[index..index + 8] == rest[..8]
      && buf[index + 8..index + 12] == rest[8..12]
      && buf[index + 12..index + 16] == rest[12..16]
      && buf[index + 16..index + 20] == rest[16..20]
      && Skip(buf, index + 20) == rest[20..]
  {
  }

  /** A Datagram object, whose checksum field `calculate_checksum` updates in place. */
  class Datagram {
    var mtype: int
    var msg: string
    var filename: string
    var filesize: int
    var transactionId: int
    var sequenceNum: int
    var data: seq<byte>
    var checksum: string

    function Value(): Fields
      reads this
    {
      Fields(mtype, msg, filename, filesize, transactionId, sequenceNum, data, checksum)
    }

    constructor (mtype: int, msg: string, filename: string := "", filesize: int := 0,
                 transactionId: int := 0, sequenceNum: int := 0, data: seq<byte> := [],
                 checksum: string := "")
      ensures Value() == Fields(mtype, msg, filename, filesize, transactionId, sequenceNum, data, checksum)
    {
      this.mtype := mtype;
      this.msg := msg;
      this.filename := filename;
      this.filesize := filesize;
      this.transactionId := transactionId;
      this.sequenceNum := sequenceNum;
      this.data := data;
      this.checksum := checksum;
    }

    /** `to_bytes`: the header by concatenation, then the extended section. */
    method ToBytes() returns (r: Result<seq<byte>>)
      ensures r == Encode(Value())
    {
      var t :- Pack32(mtype);
      var ml :- Pack32(|msg|);
      var header := t + ml + Utf8.Encode(msg);
      assert header == Header(Value());
      if mtype in [MsgTypeRequest, MsgTypeResponse, MsgTypeData] {
        var fl :- Pack32(|filename|);
        header := header + fl + Utf8.Encode(filename);
        var fs :- Pack64(filesize);
        header := header + fs;
        var tid :- Pack32(transactionId);
        header := header + tid;
        var sn :- Pack32(sequenceNum);
        header := header + sn;
        var dl :- Pack32(|data|);
        header := header + dl + data;
        header := header + Utf8.Encode(checksum);
        AppendChain(t + ml + Utf8.Encode(msg), fl, Utf8.Encode(filename), fs, tid, sn, dl, data,
                    Utf8.Encode(checksum));
      }
      return Ok(header);
    }

    /** `from_bytes`: reads the fields with an advancing index into `buf`. */
    static method FromBytes(buf: seq<byte>) returns (r: Result<Datagram>)
      ensures r.Ok? <==> Decode(buf).Ok?
      ensures r.Ok? ==> fresh(r.value) && r.value.Value() == Decode(buf).value
      ensures r.Err? ==> r.error == Decode(buf).error
    {
      var mtype :- UnpackAt32(buf, 0);
      var msgLen :- UnpackAt32(buf, 4);
      assert Skip(buf, 8) == buf[8..] && buf[0..4] == buf[..4];
      var msg :- DecodeText(Slice(buf, 8, 8 + msgLen));
      var index := 8 + msgLen;
      SkipSkip(buf, 8, msgLen);
      assert Decode(buf) == DecodeFilename(mtype, msg, Skip(buf, index)) by {
        assert Slice(buf, 8, index) == Prefix(buf[8..], msgLen);
        assert DecodeText(Prefix(buf[8..], msgLen)) == Ok(msg);
        assert Skip(buf, index) == Skip(buf[8..], msgLen);
      }
      r := FromBytesFilename(buf, index, mtype, msg);
    }

    /** `from_bytes` from the filename length at `index` on. */
    static method FromBytesFilename(buf: seq<byte>, index: nat, mtype: int, msg: string)
      returns (r: Result<Datagram>)
      ensures var spec := DecodeFilename(mtype, msg, Skip(buf, index));
        && (r.Ok? <==> spec.Ok?)
        && (r.Ok? ==> fresh(r.value) && r.value.Value() == spec.value)
        && (r.Err? ==> r.error == spec.error)
    {
      ghost var rest := Skip(buf, index);
      var filenameLen :- UnpackAt32(buf, index);
      assert filenameLen == Unpack32(rest[..4]) by { assert buf[index..index + 4] == rest[..4]; }
      var index := index + 4;
      SkipSkip(buf, index - 4, 4);
      assert Skip(buf, index) == rest[4..];
      var filename :- DecodeText(Slice(buf, index, index + filenameLen));
      index := index + filenameLen;
      SkipSkip(buf, index - filenameLen, filenameLen);
      assert DecodeFilename(mtype, msg, rest) == DecodeTail(mtype, msg, filename, Skip(buf, index)) by {
        assert Slice(buf, index - filenameLen, index) == Prefix(rest[4..], filenameLen);
        assert Skip(buf, index) == Skip(rest[4..], filenameLen);
      }
      r := FromBytesTail(buf, index, mtype, msg, filename);
    }

    /** `from_bytes` from the filesize at `index` on. */
    static method FromBytesTail(buf: seq<byte>, index: nat, mtype: int, msg: string, filename: string)
      returns (r: Result<Datagram>)
      ensures var spec := DecodeTail(mtype, msg, filename, Skip(buf, index));
        && (r.Ok? <==> spec.Ok?)
        && (r.Ok? ==> fresh(r.value) && r.value.Value() == spec.value)
        && (r.Err? ==> r.error == spec.error)
    {
      ghost var start := index;
      var filesize :- UnpackAt64(buf, index);
      var index := index + 8;
      var transactionId :- UnpackAt32(buf, index);
      index := index + 4;
      var sequenceNum :- UnpackAt32(buf, index);
      index := index + 4;
      var dataLen :- UnpackAt32(buf, index);
      index := index + 4;
      TailFields(buf, start);
      var payload := Slice(buf, index, index + dataLen);
      index := index + dataLen;
      SkipSkip(buf, index - dataLen, dataLen);
      var checksum :- DecodeText(Skip(buf, index));
      var d := new Datagram(mtype, msg, filename, filesize, transactionId, sequenceNum, payload, checksum);
      return Ok(d);
    }

    /** `calculate_checksum`: stores the digest of the payload; nothing else changes. */
    method CalculateChecksum(md5: Hasher)
      modifies this
      ensures Value() == old(Value()).(checksum := md5(old(data)))
      ensures IsMd5Like(md5) ==> IsChecksumValid(md5)
    {
      checksum := md5(data);
    }

    /** `is_checksum_valid`. */
    predicate IsChecksumValid(md5: Hasher)
      reads this
    {
      Value().ChecksumValid(md5)
    }
  }
}
