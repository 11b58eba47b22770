/** What the wire codec of pdu.py guarantees, and where it is lopsided. */
module PduProperties {
  import opened Base
  import opened Struct
  import Utf8
  import opened Pdu

  /** The ASCII restriction under which text lengths (counted in characters)
      agree with the UTF-8 bytes written for them. */
  predicate AsciiText(f: Fields)
  {
    Utf8.IsAscii(f.msg) && Utf8.IsAscii(f.filename)
  }

  /** Slicing the header apart, on sequences whose contents are left abstract. */
  lemma HeaderSplit(a: seq<byte>, c: seq<byte>, m: seq<byte>, rest: seq<byte>)
    requires |a| == 4 && |c| == 4
    ensures var b := a + (c + (m + rest));
      b[..4] == a && b[4..8] == c && b[8..] == m + rest && b[8..8 + |m|] == m
  {
    assert (a + (c + (m + rest)))[8..8 + |m|] == (m + rest)[..|m|];
  }

  lemma FieldSplit(a: seq<byte>, rest: seq<byte>)
    requires |a| == 4
    ensures (a + rest)[..4] == a && (a + rest)[4..] == rest
  {
  }

  lemma TrailerSplit(a: seq<byte>, c: seq<byte>, d: seq<byte>, e: seq<byte>, rest: seq<byte>)
    requires |a| == 8 && |c| == 4 && |d| == 4 && |e| == 4
    ensures var t := a + (c + (d + (e + rest)));
      && t[..8] == a && t[8..12] == c && t[12..16] == d && t[16..20] == e && t[20..] == rest
  {
  }

  /** Every encoding starts with the type and the message length as 4-byte
      big-endian integers, followed by the message's UTF-8 bytes. */
  lemma EncodeLayout(f: Fields)
    requires Encode(f).Ok?
    ensures var b := Encode(f).value;
      && |b| >= 8 + |Utf8.Encode(f.msg)|
      && b[..4] == BE32(f.mtype) && Unpack32(b[..4]) == f.mtype
      && b[4..8] == BE32(|f.msg|) && Unpack32(b[4..8]) == |f.msg|
      && b[8..8 + |Utf8.Encode(f.msg)|] == Utf8.Encode(f.msg)
  {
    var m := Utf8.Encode(f.msg);
    if HasExtension(f.mtype) {
      assert Encode(f).value == BE32(f.mtype) + (BE32(|f.msg|) + (m + Extension(f)));
      HeaderSplit(BE32(f.mtype), BE32(|f.msg|), m, Extension(f));
    } else {
      assert Encode(f).value == BE32(f.mtype) + (BE32(|f.msg|) + (m + []));
      HeaderSplit(BE32(f.mtype), BE32(|f.msg|), m, []);
    }
    Unpack32BE32(f.mtype);
    Unpack32BE32(|f.msg|);
  }

  /** ACK, ERROR and every other type without an extended section encode to
      the header alone: `8 + len(msg)` bytes for ASCII text. */
  lemma EncodeShortLength(f: Fields)
    requires Encode(f).Ok? && !HasExtension(f.mtype)
    ensures Encode(f).value == Header(f)
    ensures |Encode(f).value| == 8 + |Utf8.Encode(f.msg)|
    ensures Utf8.IsAscii(f.msg) ==> |Encode(f).value| == 8 + |f.msg|
  {
    Utf8.EncodeLength(f.msg);
  }

  /** Where the payload and the checksum sit in an extended encoding, on
      sequences whose contents are left abstract. */
  lemma ExtendedSplit(h: seq<byte>, a: seq<byte>, fname: seq<byte>, a8: seq<byte>, c: seq<byte>,
                      d: seq<byte>, e: seq<byte>, data: seq<byte>, cs: seq<byte>)
    requires |a| == 4 && |a8| == 8 && |c| == 4 && |d| == 4 && |e| == 4
    ensures var b := h + (a + (fname + (a8 + (c + (d + (e + (data + cs)))))));
      && |b| == |h| + 4 + |fname| + 20 + |data| + |cs|
      && b[|b| - |cs|..] == cs
      && b[|b| - |cs| - |data|..|b| - |cs|] == data
  {
    var b := h + (a + (fname + (a8 + (c + (d + (e + (data + cs)))))));
    var k := |h| + 4 + |fname| + 20;
    assert b[k..] == data + cs;
    assert b[|b| - |cs|..] == (data + cs)[|data|..];
    assert b[|b| - |cs| - |data|..|b| - |cs|] == (data + cs)[..|data|];
  }

  /** REQUEST, RESPONSE and DATA encode to fixed-width fields plus the three
      texts and the payload; the checksum fills the remaining bytes with no
      length prefix of its own. */
  lemma EncodeExtendedLength(f: Fields)
    requires Encode(f).Ok? && HasExtension(f.mtype)
    ensures var b := Encode(f).value;
      var cs := Utf8.Encode(f.checksum);
      && |b| == 8 + |Utf8.Encode(f.msg)| + 4 + |Utf8.Encode(f.filename)| + 8 + 4 + 4 + 4 + |f.data| + |cs|
      && b[|b| - |cs|..] == cs
      && b[|b| - |cs| - |f.data|..|b| - |cs|] == f.data
    ensures AsciiText(f) && Utf8.IsAscii(f.checksum) ==>
      |Encode(f).value| == 8 + |f.msg| + 4 + |f.filename| + 8 + 4 + 4 + 4 + |f.data| + |f.checksum|
  {
    ExtendedSplit(Header(f), BE32(|f.filename|), Utf8.Encode(f.filename), BE64(f.filesize),
                  BE32(f.transactionId), BE32(f.sequenceNum), BE32(|f.data|), f.data,
                  Utf8.Encode(f.checksum));
    Utf8.EncodeLength(f.msg);
    Utf8.EncodeLength(f.filename);
    Utf8.EncodeLength(f.checksum);
  }

  /** After the header of an ASCII message the decoder goes on with the bytes
      that follow it. */
  lemma DecodeHeader(mtype: int, msg: string, rest: seq<byte>)
    requires FitsU32(mtype) && FitsU32(|msg|) && Utf8.IsAscii(msg)
    ensures Decode(BE32(mtype) + (BE32(|msg|) + (Utf8.Encode(msg) + rest)))
         == DecodeFilename(mtype, msg, rest)
  {
    var m := Utf8.Encode(msg);
    var b := BE32(mtype) + (BE32(|msg|) + (m + rest));
    HeaderSplit(BE32(mtype), BE32(|msg|), m, rest);
    Unpack32BE32(mtype);
    Unpack32BE32(|msg|);
    Utf8.EncodeLength(msg);
    Utf8.DecodeEncode(msg);
    assert Prefix(m + rest, |msg|) == m;
    assert Skip(m + rest, |msg|) == rest;
  }

  /** After a length-prefixed ASCII filename the decoder goes on with the
      bytes that follow it. */
  lemma DecodeFilenameField(mtype: int, msg: string, filename: string, rest: seq<byte>)
    requires FitsU32(|filename|) && Utf8.IsAscii(filename)
    ensures DecodeFilename(mtype, msg, BE32(|filename|) + (Utf8.Encode(filename) + rest))
         == DecodeTail(mtype, msg, filename, rest)
  {
    var fname := Utf8.Encode(filename);
    var y := BE32(|filename|) + (fname + rest);
    FieldSplit(BE32(|filename|), fname + rest);
    Unpack32BE32(|filename|);
    Utf8.EncodeLength(filename);
    Utf8.DecodeEncode(filename);
    assert Prefix(fname + rest, |filename|) == fname;
    assert Skip(fname + rest, |filename|) == rest;
  }

  /** The four fixed-width fields after the filename, with `n` as the data
      length: the payload is the first `n` remaining bytes (fewer if the
      buffer ends first) and the checksum is whatever follows. */
  lemma DecodeTrailer(mtype: int, msg: string, filename: string, filesize: int,
                      transactionId: int, sequenceNum: int, n: int, payload: seq<byte>)
    requires FitsU64(filesize) && FitsU32(transactionId) && FitsU32(sequenceNum) && FitsU32(n)
    ensures DecodeTail(mtype, msg, filename,
                       BE64(filesize) + (BE32(transactionId) + (BE32(sequenceNum) + (BE32(n) + payload))))
         == match DecodeText(Skip(payload, n))
            case Err(e) => Err(e)
            case Ok(checksum) =>
              Ok(Fields(mtype, msg, filename, filesize, transactionId, sequenceNum, Prefix(payload, n), checksum))
  {
    var t := BE64(filesize) + (BE32(transactionId) + (BE32(sequenceNum) + (BE32(n) + payload)));
    TrailerSplit(BE64(filesize), BE32(transactionId), BE32(sequenceNum), BE32(n), payload);
    Unpack64BE64(filesize);
    Unpack32BE32(transactionId);
    Unpack32BE32(sequenceNum);
    Unpack32BE32(n);
  }

  /** The payload and checksum of a well-formed trailer come back intact. */
  lemma DecodeOwnTrailer(f: Fields)
    requires FitsU64(f.filesize) && FitsU32(f.transactionId)
    requires FitsU32(f.sequenceNum) && FitsU32(|f.data|)
    ensures DecodeTail(f.mtype, f.msg, f.filename, Trailer(f)) == Ok(f)
  {
    var cs := Utf8.Encode(f.checksum);
    DecodeTrailer(f.mtype, f.msg, f.filename, f.filesize, f.transactionId, f.sequenceNum,
                  |f.data|, f.data + cs);
    Utf8.DecodeEncode(f.checksum);
    assert Prefix(f.data + cs, |f.data|) == f.data;
    assert Skip(f.data + cs, |f.data|) == cs;
  }

  /** `from_bytes(to_bytes(d))` gives back `d`, field for field, for every
      REQUEST, RESPONSE and DATA datagram whose integers fit their widths and
      whose message and filename are ASCII. */
  lemma RoundTrip(f: Fields)
    requires Encodable(f) && HasExtension(f.mtype) && AsciiText(f)
    ensures Decode(Encode(f).value) == Ok(f)
  {
    var y := Extension(f);
    assert Encode(f).value == BE32(f.mtype) + (BE32(|f.msg|) + (Utf8.Encode(f.msg) + y));
    DecodeHeader(f.mtype, f.msg, y);
    DecodeFilenameField(f.mtype, f.msg, f.filename, Trailer(f));
    DecodeOwnTrailer(f);
  }

  /** The message's byte length differs from its character count when it is
      not ASCII, so the decoder stops inside it and cannot reproduce it. */
  lemma NonAsciiMessageBreaksRoundTrip(f: Fields)
    requires Encodable(f) && !Utf8.IsAscii(f.msg)
    ensures Decode(Encode(f).value) != Ok(f)
  {
    var m := Utf8.Encode(f.msg);
    if HasExtension(f.mtype) {
      assert Encode(f).value == BE32(f.mtype) + (BE32(|f.msg|) + (m + Extension(f)));
      NonAsciiMessageMisread(f.mtype, f.msg, Extension(f));
    } else {
      assert Encode(f).value == BE32(f.mtype) + (BE32(|f.msg|) + (m + []));
      NonAsciiMessageMisread(f.mtype, f.msg, []);
    }
  }

  /** The message the decoder reads after a non-ASCII message was written is
      not that message. */
  lemma NonAsciiMessageMisread(mtype: int, msg: string, rest: seq<byte>)
    requires FitsU32(mtype) && FitsU32(|msg|) && !Utf8.IsAscii(msg)
    ensures var r := Decode(BE32(mtype) + (BE32(|msg|) + (Utf8.Encode(msg) + rest)));
      r.Ok? ==> r.value.msg != msg
  {
    var m := Utf8.Encode(msg);
    var b := BE32(mtype) + (BE32(|msg|) + (m + rest));
    HeaderSplit(BE32(mtype), BE32(|msg|), m, rest);
    Unpack32BE32(|msg|);
    ShortPrefixMisread(msg, rest);
    MessageMisread(b, msg);
  }

  /** A decoded message is not `msg` when the bytes its length announces do
      not decode to `msg`. */
  lemma MessageMisread(b: seq<byte>, msg: string)
    requires |b| >= 8 && Unpack32(b[4..8]) == |msg|
    requires Utf8.Decode(Prefix(b[8..], |msg|)) != Some(msg)
    ensures Decode(b).Ok? ==> Decode(b).value.msg != msg
  {
    if Decode(b).Ok? {
      DecodedMessage(b);
    }
  }

  /** The first `|s|` bytes of the UTF-8 form of a non-ASCII `s` do not decode
      to `s`: they are too few. */
  lemma ShortPrefixMisread(s: string, rest: seq<byte>)
    requires !Utf8.IsAscii(s)
    ensures Utf8.Decode(Prefix(Utf8.Encode(s) + rest, |s|)) != Some(s)
  {
    var m := Utf8.Encode(s);
    Utf8.EncodeLength(s);
    var head := Prefix(m + rest, |s|);
    assert head == m[..|s|];
    if Utf8.Decode(head) == Some(s) {
      Utf8.EncodeDecode(head);
      assert false;
    }
  }

  /** The message of a decoded datagram is the UTF-8 text of the bytes the
      message length announces. */
  lemma DecodedMessage(buf: seq<byte>)
    requires Decode(buf).Ok?
    ensures |buf| >= 8
    ensures Utf8.Decode(Prefix(buf[8..], Unpack32(buf[4..8]))) == Some(Decode(buf).value.msg)
  {
    var msgLen := Unpack32(buf[4..8]);
    var msg := DecodeText(Prefix(buf[8..], msgLen)).value;
    var rest := Skip(buf[8..], msgLen);
    assert DecodeFilename(Unpack32(buf[..4]), msg, rest) == Decode(buf);
    if |rest| >= 4 {
      var filenameLen := Unpack32(rest[..4]);
      var filename := DecodeText(Prefix(rest[4..], filenameLen)).value;
      assert DecodeTail(Unpack32(buf[..4]), msg, filename, Skip(rest[4..], filenameLen)) == Decode(buf);
    }
  }

  /** A non-ASCII filename declares fewer bytes than it occupies, so the
      filename the decoder reads is not the one that was written. */
  lemma NonAsciiFilenameMisread(mtype: int, msg: string, filename: string, rest: seq<byte>)
    requires FitsU32(|filename|) && !Utf8.IsAscii(filename)
    ensures var r := DecodeFilename(mtype, msg, BE32(|filename|) + (Utf8.Encode(filename) + rest));
      r.Ok? ==> r.value.filename != filename
  {
    var fname := Utf8.Encode(filename);
    var y := BE32(|filename|) + (fname + rest);
    var r := DecodeFilename(mtype, msg, y);
    FieldSplit(BE32(|filename|), fname + rest);
    Unpack32BE32(|filename|);
    Utf8.EncodeLength(filename);
    if r.Ok? && r.value.filename == filename {
      var nameBytes := Prefix(fname + rest, |filename|);
      assert nameBytes == fname[..|filename|];
      assert Utf8.Decode(nameBytes) == Some(filename);
      Utf8.EncodeDecode(nameBytes);
      assert false;
    }
  }

  /** Likewise for a non-ASCII filename after an ASCII message. */
  lemma NonAsciiFilenameBreaksRoundTrip(f: Fields)
    requires Encodable(f) && HasExtension(f.mtype)
    requires Utf8.IsAscii(f.msg) && !Utf8.IsAscii(f.filename)
    ensures Decode(Encode(f).value) != Ok(f)
  {
    var y := Extension(f);
    assert Encode(f).value == BE32(f.mtype) + (BE32(|f.msg|) + (Utf8.Encode(f.msg) + y));
    DecodeHeader(f.mtype, f.msg, y);
    NonAsciiFilenameMisread(f.mtype, f.msg, f.filename, Trailer(f));
  }

  /** For the datagram types whose encoding the decoder can read back at all,
      the round trip holds exactly when both length-prefixed texts are ASCII. */
  lemma RoundTripIff(f: Fields)
    requires Encodable(f) && HasExtension(f.mtype)
    ensures Decode(Encode(f).value) == Ok(f) <==> AsciiText(f)
  {
    if AsciiText(f) {
      RoundTrip(f);
    } else if !Utf8.IsAscii(f.msg) {
      NonAsciiMessageBreaksRoundTrip(f);
    } else {
      NonAsciiFilenameBreaksRoundTrip(f);
    }
  }

  /** `from_bytes` always reads the extended section, which `to_bytes` omits
      for ACK and ERROR, so an encoded ACK or ERROR (ASCII message) cannot be
      decoded: the filename-length read finds no bytes. */
  lemma ShortTypesUndecodable(f: Fields)
    requires Encodable(f) && !HasExtension(f.mtype) && Utf8.IsAscii(f.msg)
    ensures Decode(Encode(f).value) == Err(StructError)
  {
    var m := Utf8.Encode(f.msg);
    assert Encode(f).value == BE32(f.mtype) + (BE32(|f.msg|) + (m + []));
    DecodeHeader(f.mtype, f.msg, []);
  }

  /** A successful decode accounts for every byte: the 32 bytes of fixed-width
      fields, the declared text lengths (which equal the texts' UTF-8 lengths),
      the payload and the checksum text. */
  lemma DecodeLength(buf: seq<byte>)
    requires Decode(buf).Ok?
    ensures var f := Decode(buf).value;
      && f.mtype == Unpack32(buf[..4])
      && |Utf8.Encode(f.msg)| == Unpack32(buf[4..8])
      && |buf| == 32 + |Utf8.Encode(f.msg)| + |Utf8.Encode(f.filename)| + |f.data| + |Utf8.Encode(f.checksum)|
  {
    var f := Decode(buf).value;
    var msgLen := Unpack32(buf[4..8]);
    var msgBytes := Prefix(buf[8..], msgLen);
    Utf8.EncodeDecode(msgBytes);
    var rest := Skip(buf[8..], msgLen);
    assert DecodeFilename(f.mtype, f.msg, rest) == Ok(f);
    var nameLen := Unpack32(rest[..4]);
    var nameBytes := Prefix(rest[4..], nameLen);
    Utf8.EncodeDecode(nameBytes);
    var tail := Skip(rest[4..], nameLen);
    assert DecodeTail(f.mtype, f.msg, f.filename, tail) == Ok(f);
    var dataLen := Unpack32(tail[16..20]);
    Utf8.EncodeDecode(Skip(tail[20..], dataLen));
  }

  /** Any buffer shorter than the 32 bytes of fixed-width fields is rejected. */
  lemma ShortBufferFails(buf: seq<byte>)
    requires |buf| < 32
    ensures Decode(buf).Err?
  {
    if Decode(buf).Ok? {
      DecodeLength(buf);
    }
  }

  /** A REQUEST, RESPONSE or DATA datagram's bytes up to and including the
      data length field, with `declared` written as the data length, followed
      by `payload` and nothing else. */
  function WithDeclaredLength(f: Fields, declared: int, payload: seq<byte>): seq<byte>
    requires Encodable(f) && HasExtension(f.mtype) && FitsU32(declared)
  {
    Header(f) + (BE32(|f.filename|) + (Utf8.Encode(f.filename) + (BE64(f.filesize)
    + (BE32(f.transactionId) + (BE32(f.sequenceNum) + (BE32(declared) + payload))))))
  }

  /** A declared payload length that runs past the end is not rejected: the
      payload is what remains and the checksum comes out empty (and so the
      datagram never passes `is_checksum_valid`). */
  lemma TruncatedPayloadAccepted(f: Fields, declared: int, payload: seq<byte>)
    requires Encodable(f) && HasExtension(f.mtype) && AsciiText(f)
    requires FitsU32(declared) && |payload| < declared
    ensures Decode(WithDeclaredLength(f, declared, payload)) == Ok(f.(data := payload, checksum := ""))
    ensures forall md5: Hasher :: !f.(data := payload, checksum := "").ChecksumValid(md5)
  {
    var tail := BE64(f.filesize) + (BE32(f.transactionId) + (BE32(f.sequenceNum) + (BE32(declared) + payload)));
    var y := BE32(|f.filename|) + (Utf8.Encode(f.filename) + tail);
    assert WithDeclaredLength(f, declared, payload)
        == BE32(f.mtype) + (BE32(|f.msg|) + (Utf8.Encode(f.msg) + y));
    DecodeHeader(f.mtype, f.msg, y);
    DecodeFilenameField(f.mtype, f.msg, f.filename, tail);
    DecodeTrailer(f.mtype, f.msg, f.filename, f.filesize, f.transactionId, f.sequenceNum,
                  declared, payload);
    assert Prefix(payload, declared) == payload;
    assert Skip(payload, declared) == [];
    assert Utf8.Decode([]) == Some([]);
  }
}
