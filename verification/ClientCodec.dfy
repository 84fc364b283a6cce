/** The client's frame codec (wx-client/network/FrameCodec.cpp). */
module ClientCodec {
  import opened Wrappers
  import opened Wire
  import ServerProtocol

  /**
   The JSON library, as the two functions the code uses. `parse` is `fromJson` followed by
   `object()`: None is a parse error. `empty` is the object that stands for no payload at all.
   */
  datatype Json<!J(!new)> = Json(dump: J -> seq<byte>, parse: seq<byte> -> Option<J>, empty: J) {
    /** Parsing what was printed gives it back, and no object prints to nothing. */
    ghost predicate Faithful() {
      forall j :: dump(j) != [] && parse(dump(j)) == Some(j)
    }
  }

  /** A frame as the client holds it: the payload is a JSON object. */
  datatype ClientFrame<J> = ClientFrame(version: uint16, frameType: byte, flags: byte, payload: J)

  datatype DecodeResult<J> = Ok(frame: ClientFrame<J>, consumed: nat) | Incomplete | Malformed

  /** What a complete payload means to the client. */
  function PayloadMeaning<J(!new)>(json: Json<J>, payload: seq<byte>): Option<J> {
    if payload == [] then Some(json.empty) else json.parse(payload)
  }

  /** What the front of the receive buffer means; the order of the tests matters. */
  function Decode<J(!new)>(json: Json<J>, data: seq<byte>): (r: DecodeResult<J>)
    ensures r.Ok? ==> FRAME_HEADER_SIZE <= r.consumed <= |data|
  {
    if |data| < FRAME_HEADER_SIZE then
      Incomplete
    else
      var h := ReadHeader(data[..FRAME_HEADER_SIZE]);
      if h.length > MAX_PAYLOAD_SIZE then
        Malformed
      else if |data| < FRAME_HEADER_SIZE + h.length then
        Incomplete
      else if h.frameType < 1 || h.frameType > 4 then
        Malformed
      else
        match PayloadMeaning(json, data[FRAME_HEADER_SIZE..FRAME_HEADER_SIZE + h.length])
        case None => Malformed
        case Some(p) => Ok(ClientFrame(h.version, h.frameType, h.flags, p), FRAME_HEADER_SIZE + h.length)
  }

  /** The header part of `encode`: shifts and masks, written out as divisions and remainders. */
  method PutHeader(buf: array<byte>, length: uint32, version: uint16, frameType: byte, flags: byte)
    requires buf.Length >= FRAME_HEADER_SIZE
    modifies buf
    ensures buf[..FRAME_HEADER_SIZE] == HeaderBytes(Header(length, version, frameType, flags))
  {
    buf[0] := length / 0x100_0000 % 0x100;
    buf[1] := length / 0x1_0000 % 0x100;
    buf[2] := length / 0x100 % 0x100;
    buf[3] := length % 0x100;
    buf[4] := version / 0x100 % 0x100;
    buf[5] := version % 0x100;
    buf[6] := frameType;
    buf[7] := flags;
    assert buf[..4] == Big32(length);
    assert buf[4..6] == Big16(version);
    assert buf[..FRAME_HEADER_SIZE] == buf[..4] + buf[4..6] + [frameType, flags];
  }

  /** The frame whose serialisation `encode` yields. */
  function Encoded<J(!new)>(json: Json<J>, frame: ClientFrame<J>): Frame {
    Frame(frame.version, frame.frameType, frame.flags, json.dump(frame.payload))
  }

  /** `FrameCodec::encode`: index by index; the empty result is a refusal. */
  method Encode<J(!new)>(json: Json<J>, frame: ClientFrame<J>) returns (result: seq<byte>)
    requires |json.dump(frame.payload)| < 0x8000_0000 // a QByteArray's size is an int
    ensures |json.dump(frame.payload)| > 1024 * 1024 ==> result == []
    ensures |json.dump(frame.payload)| <= 1024 * 1024 ==>
              result == Serialize(Encoded(json, frame))
  {
    var payload := json.dump(frame.payload);
    if |payload| > MAX_PAYLOAD_SIZE {
      return [];
    }
    hide HeaderBytes;
    var length: uint32 := |payload|;
    var n := FRAME_HEADER_SIZE + |payload|;
    var buf := new byte[n](i => 0);
    PutHeader(buf, length, frame.version, frame.frameType, frame.flags);
    CopyInto(buf, FRAME_HEADER_SIZE, payload);
    assert buf[..] == HeaderBytes(FrameHeader(Encoded(json, frame))) + payload;
    result := buf[..];
  }

  datatype Verdict = VerdictOk | VerdictIncomplete | VerdictMalformed

  /** `FrameCodec::decode`: a three-way verdict, with the frame and the byte count as out-parameters. */
  method DecodeFrame<J(!new)>(json: Json<J>, data: seq<byte>)
    returns (verdict: Verdict, frame: ClientFrame<J>, consumed: nat)
    ensures match Decode(json, data)
            case Ok(f, n) => verdict == VerdictOk && frame == f && consumed == n
            case Incomplete => verdict == VerdictIncomplete
            case Malformed => verdict == VerdictMalformed
  {
    frame, consumed := ClientFrame(PROTOCOL_VERSION, REQUEST, 0, json.empty), 0;
    if |data| < FRAME_HEADER_SIZE {
      return VerdictIncomplete, frame, consumed;
    }
    var length: uint32 := data[0] as int * 0x100_0000 + data[1] as int * 0x1_0000 + data[2] as int * 0x100 + data[3];
    if length > MAX_PAYLOAD_SIZE {
      return VerdictMalformed, frame, consumed;
    }
    if |data| < FRAME_HEADER_SIZE + length {
      return VerdictIncomplete, frame, consumed;
    }
    frame := frame.(version := data[4] as int * 0x100 + data[5], frameType := data[6], flags := data[7]);
    var ft := data[6];
    if ft < 1 || ft > 4 {
      return VerdictMalformed, frame, consumed;
    }
    if length > 0 {
      var doc := json.parse(data[FRAME_HEADER_SIZE..FRAME_HEADER_SIZE + length]);
      if doc.None? {
        return VerdictMalformed, frame, consumed;
      }
      frame := frame.(payload := doc.value);
    } else {
      frame := frame.(payload := json.empty);
    }
    return VerdictOk, frame, FRAME_HEADER_SIZE + length;
  }

  /** Once the verdict is final, more bytes do not change it. */
  lemma DecodeStable<J(!new)>(json: Json<J>, data: seq<byte>, more: seq<byte>)
    requires !Decode(json, data).Incomplete?
    ensures Decode(json, data + more) == Decode(json, data)
  {
    var h := ReadHeader(data[..FRAME_HEADER_SIZE]);
    assert (data + more)[..FRAME_HEADER_SIZE] == data[..FRAME_HEADER_SIZE];
    if h.length <= MAX_PAYLOAD_SIZE {
      assert (data + more)[FRAME_HEADER_SIZE..FRAME_HEADER_SIZE + h.length] == data[FRAME_HEADER_SIZE..FRAME_HEADER_SIZE + h.length];
    }
  }

  /** The frames the client takes: the size, the type and the payload must all be in order. */
  predicate Deliverable<J(!new)>(json: Json<J>, f: Frame) {
    |f.payload| <= MAX_PAYLOAD_SIZE && 1 <= f.frameType <= 4 && PayloadMeaning(json, f.payload).Some?
  }

  function Received<J(!new)>(json: Json<J>, f: Frame): ClientFrame<J>
    requires Deliverable(json, f)
  {
    ClientFrame(f.version, f.frameType, f.flags, PayloadMeaning(json, f.payload).value)
  }

  /**
   Decoding undoes serialising whatever follows on the wire; and a frame that is not deliverable
   is always detected, however the source came to serialise it.
   */
  lemma DecodeSerialized<J(!new)>(json: Json<J>, f: Frame, rest: seq<byte>)
    requires |f.payload| < 0x1_0000_0000
    ensures Deliverable(json, f) ==>
              Decode(json, Serialize(f) + rest) == Ok(Received(json, f), FRAME_HEADER_SIZE + |f.payload|)
    ensures !Deliverable(json, f) ==> Decode(json, Serialize(f) + rest) == Malformed
  {
    var data := Serialize(f) + rest;
    assert data[..FRAME_HEADER_SIZE] == HeaderBytes(FrameHeader(f));
    HeaderRoundTrip(FrameHeader(f));
    assert data[FRAME_HEADER_SIZE..FRAME_HEADER_SIZE + |f.payload|] == f.payload;
  }

  /**
   Decoding undoes encoding, whatever follows, if the JSON library parses what it prints: a frame
   of a known type that `encode` does not refuse for its size comes back as it was, and consumes
   exactly its own bytes.
   */
  lemma EncodeDecode<J(!new)>(json: Json<J>, frame: ClientFrame<J>, rest: seq<byte>)
    requires json.Faithful() && |json.dump(frame.payload)| <= 1024 * 1024
    ensures Deliverable(json, Encoded(json, frame)) <==> 1 <= frame.frameType <= 4
    ensures Decode(json, Serialize(Encoded(json, frame)) + rest)
            == if 1 <= frame.frameType <= 4 then Ok(frame, |Serialize(Encoded(json, frame))|) else Malformed
  {
    DecodeSerialized(json, Encoded(json, frame), rest);
  }

  /** A deliverable frame is not recognised before its last byte is there. */
  lemma DecodePartial<J(!new)>(json: Json<J>, f: Frame, n: nat)
    requires Deliverable(json, f) && n < |Serialize(f)|
    ensures Decode(json, Serialize(f)[..n]) == Incomplete
  {
    if n >= FRAME_HEADER_SIZE {
      assert Serialize(f)[..n][..FRAME_HEADER_SIZE] == HeaderBytes(FrameHeader(f));
      HeaderRoundTrip(FrameHeader(f));
    }
  }

  /**
   The two ends' header checks compared: the server accepts exactly the headers of version 1
   that the client, given the payload, does not reject for their size or type.
   */
  lemma HeaderAcceptance<J(!new)>(json: Json<J>, data: seq<byte>)
    requires |data| >= FRAME_HEADER_SIZE
    requires var h := ReadHeader(data[..FRAME_HEADER_SIZE]);
             |data| >= FRAME_HEADER_SIZE + h.length && (h.length <= MAX_PAYLOAD_SIZE ==>
               PayloadMeaning(json, data[FRAME_HEADER_SIZE..FRAME_HEADER_SIZE + h.length]).Some?)
    ensures var h := ReadHeader(data[..FRAME_HEADER_SIZE]);
            && (ServerProtocol.Acceptable(h) <==> Decode(json, data).Ok? && h.version == PROTOCOL_VERSION)
            && (ServerProtocol.Acceptable(h) ==> Decode(json, data).consumed == FRAME_HEADER_SIZE + h.length)
  {
  }
}
