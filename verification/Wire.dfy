/**
 The wire format both ends agree on (protocol/common.h, docs/protocol.md section 1.1):
 an 8-byte header, most significant byte first, followed by the payload.
 `HeaderBytes` and `Serialize` are the layout; the server and client modules prove that
 their own byte shuffling produces and reads exactly this layout.
 */
module Wire {
  type byte = b: int | 0 <= b < 0x100
  type uint16 = n: int | 0 <= n < 0x1_0000
  type uint32 = n: int | 0 <= n < 0x1_0000_0000

  const PROTOCOL_VERSION: uint16 := 1
  const FRAME_HEADER_SIZE: nat := 8
  const MAX_PAYLOAD_SIZE: nat := 1024 * 1024

  const REQUEST: byte := 1
  const RESPONSE: byte := 2
  const NOTIFICATION: byte := 3
  const PINGPONG: byte := 4

  datatype Header = Header(length: uint32, version: uint16, frameType: byte, flags: byte)

  /** A frame as the server holds it: the payload is the text of a JSON value. */
  datatype Frame = Frame(version: uint16, frameType: byte, flags: byte, payload: seq<byte>)

  function Big16(n: uint16): seq<byte> {
    [n / 0x100, n % 0x100]
  }

  function Big32(n: uint32): seq<byte> {
    [n / 0x100_0000, n / 0x1_0000 % 0x100, n / 0x100 % 0x100, n % 0x100]
  }

  function FromBig16(b: seq<byte>): uint16
    requires |b| == 2
  {
    b[0] as int * 0x100 + b[1]
  }

  function FromBig32(b: seq<byte>): uint32
    requires |b| == 4
  {
    b[0] as int * 0x100_0000 + b[1] as int * 0x1_0000 + b[2] as int * 0x100 + b[3]
  }

  lemma Big32RoundTrip(n: uint32)
    ensures FromBig32(Big32(n)) == n
  {
    var m := n / 0x100;
    var k := m / 0x100;
    assert n / 0x1_0000 == k && n / 0x100_0000 == k / 0x100;
  }

  lemma FromBig32RoundTrip(b: seq<byte>)
    requires |b| == 4
    ensures Big32(FromBig32(b)) == b
  {
    var n := FromBig32(b);
    assert n / 0x100 == b[0] as int * 0x1_0000 + b[1] as int * 0x100 + b[2];
    assert n / 0x1_0000 == b[0] as int * 0x100 + b[1];
    assert n / 0x100_0000 == b[0];
  }

  function HeaderBytes(h: Header): (r: seq<byte>)
    ensures |r| == FRAME_HEADER_SIZE
  {
    Big32(h.length) + Big16(h.version) + [h.frameType, h.flags]
  }

  /** The header that eight bytes spell, whether or not it is acceptable. */
  function ReadHeader(b: seq<byte>): Header
    requires |b| == FRAME_HEADER_SIZE
  {
    Header(FromBig32(b[..4]), FromBig16(b[4..6]), b[6], b[7])
  }

  lemma HeaderRoundTrip(h: Header)
    ensures ReadHeader(HeaderBytes(h)) == h
  {
    var b := HeaderBytes(h);
    assert b[..4] == Big32(h.length);
    assert b[4..6] == Big16(h.version);
    Big32RoundTrip(h.length);
  }

  lemma ReadHeaderRoundTrip(b: seq<byte>)
    requires |b| == FRAME_HEADER_SIZE
    ensures HeaderBytes(ReadHeader(b)) == b
  {
    FromBig32RoundTrip(b[..4]);
    assert Big16(FromBig16(b[4..6])) == b[4..6];
    assert b == b[..4] + b[4..6] + [b[6], b[7]];
  }

  /** The frame on the wire; the length field holds the payload size modulo 2^32. */
  function Serialize(f: Frame): (r: seq<byte>)
    ensures |r| == FRAME_HEADER_SIZE + |f.payload|
  {
    HeaderBytes(FrameHeader(f)) + f.payload
  }

  function FrameHeader(f: Frame): Header {
    Header(|f.payload| % 0x1_0000_0000, f.version, f.frameType, f.flags)
  }

  function SerializeAll(fs: seq<Frame>): seq<byte> {
    if fs == [] then [] else Serialize(fs[0]) + SerializeAll(fs[1..])
  }

  lemma {:induction false} SerializeAllAppend(fs: seq<Frame>, gs: seq<Frame>)
    ensures SerializeAll(fs + gs) == SerializeAll(fs) + SerializeAll(gs)
  {
    if fs == [] {
      assert fs + gs == gs;
    } else {
      assert (fs + gs)[1..] == fs[1..] + gs;
      SerializeAllAppend(fs[1..], gs);
    }
  }

  lemma SerializeOne(f: Frame)
    ensures SerializeAll([f]) == Serialize(f)
  {
    assert SerializeAll([f]) == Serialize(f) + SerializeAll([]);
  }

  /** `memcpy` into a buffer. */
  method CopyInto(buf: array<byte>, start: nat, data: seq<byte>)
    requires start + |data| <= buf.Length
    modifies buf
    ensures buf[..] == old(buf[..start]) + data + old(buf[start + |data|..])
  {
    for i := 0 to |data|
      invariant buf[..start] == old(buf[..start]) && buf[start + |data|..] == old(buf[start + |data|..])
      invariant buf[start..start + i] == data[..i]
    {
      buf[start + i] := data[i];
    }
    assert buf[..] == buf[..start] + buf[start..start + |data|] + buf[start + |data|..];
  }

  /** Where the fields are: the length in the first four bytes and the version in the next two, most significant byte first. */
  lemma HeaderLayout(h: Header)
    ensures var b := HeaderBytes(h);
            && ((b[0] as int * 256 + b[1]) * 256 + b[2]) * 256 + b[3] == h.length
            && b[4] as int * 256 + b[5] == h.version && b[6] == h.frameType && b[7] == h.flags
  {
    Big32RoundTrip(h.length);
  }
}
