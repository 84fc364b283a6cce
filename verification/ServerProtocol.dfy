/** The server's header and frame serialisation (wx-server/src/protocol.cpp). */
module ServerProtocol {
  import opened Wire

  /** The byte order of the machine the server runs on: `memcpy` exposes it, `htonl` undoes it. */
  datatype ByteOrder = LittleEndian | BigEndian

  /** What `memcpy` sees when it copies a 32-bit integer. */
  function Memory32(host: ByteOrder, n: uint32): seq<byte> {
    var b0, b1, b2, b3 := n % 0x100, n / 0x100 % 0x100, n / 0x1_0000 % 0x100, n / 0x100_0000;
    if host.LittleEndian? then [b0, b1, b2, b3] else [b3, b2, b1, b0]
  }

  function Load32(host: ByteOrder, m: seq<byte>): uint32
    requires |m| == 4
  {
    if host.LittleEndian? then
      m[0] as int + m[1] as int * 0x100 + m[2] as int * 0x1_0000 + m[3] as int * 0x100_0000
    else
      m[3] as int + m[2] as int * 0x100 + m[1] as int * 0x1_0000 + m[0] as int * 0x100_0000
  }

  function Memory16(host: ByteOrder, n: uint16): seq<byte> {
    if host.LittleEndian? then [n % 0x100, n / 0x100] else [n / 0x100, n % 0x100]
  }

  function Load16(host: ByteOrder, m: seq<byte>): uint16
    requires |m| == 2
  {
    if host.LittleEndian? then m[0] as int + m[1] as int * 0x100 else m[1] as int + m[0] as int * 0x100
  }

  /** `htonl` and `ntohl`: swap the bytes on a little-endian machine only. */
  function NetworkOrder32(host: ByteOrder, n: uint32): uint32 {
    if host.BigEndian? then n
    else n % 0x100 * 0x100_0000 + n / 0x100 % 0x100 * 0x1_0000 + n / 0x1_0000 % 0x100 * 0x100 + n / 0x100_0000
  }

  /** `htons` and `ntohs`. */
  function NetworkOrder16(host: ByteOrder, n: uint16): uint16 {
    if host.BigEndian? then n else n % 0x100 * 0x100 + n / 0x100
  }

  lemma NetworkOrderStoresBigEndian(host: ByteOrder, n: uint32, v: uint16)
    ensures Memory32(host, NetworkOrder32(host, n)) == Big32(n)
    ensures Memory16(host, NetworkOrder16(host, v)) == Big16(v)
  {
    FromBig32RoundTrip([n % 0x100, n / 0x100 % 0x100, n / 0x1_0000 % 0x100, n / 0x100_0000]);
  }

  lemma NetworkOrderLoadsBigEndian(host: ByteOrder, m: seq<byte>, w: seq<byte>)
    requires |m| == 4 && |w| == 2
    ensures NetworkOrder32(host, Load32(host, m)) == FromBig32(m)
    ensures NetworkOrder16(host, Load16(host, w)) == FromBig16(w)
  {
    Loads32(host, m);
    Loads16(host, w);
    hide NetworkOrder32;
    hide NetworkOrder16;
    hide Load32;
    hide Load16;
  }

  lemma Loads32(host: ByteOrder, m: seq<byte>)
    requires |m| == 4
    ensures NetworkOrder32(host, Load32(host, m)) == FromBig32(m)
  {
    if host.LittleEndian? {
      var n := Load32(host, m);
      FromBig32RoundTrip([m[3], m[2], m[1], m[0]]);
      assert n % 0x100 == m[0] && n / 0x100 % 0x100 == m[1] && n / 0x1_0000 % 0x100 == m[2] && n / 0x100_0000 == m[3];
    }
  }

  lemma Loads16(host: ByteOrder, w: seq<byte>)
    requires |w| == 2
    ensures NetworkOrder16(host, Load16(host, w)) == FromBig16(w)
  {
  }

  method BuildHeader(host: ByteOrder, buf: array<byte>, length: uint32, frameType: byte, flags: byte, version: uint16)
    requires buf.Length >= FRAME_HEADER_SIZE
    modifies buf
    ensures buf[..FRAME_HEADER_SIZE] == HeaderBytes(Header(length, version, frameType, flags))
    ensures buf[FRAME_HEADER_SIZE..] == old(buf[FRAME_HEADER_SIZE..])
  {
    var netLen := Memory32(host, NetworkOrder32(host, length));
    var netVer := Memory16(host, NetworkOrder16(host, version));
    buf[0], buf[1], buf[2], buf[3] := netLen[0], netLen[1], netLen[2], netLen[3];
    buf[4], buf[5] := netVer[0], netVer[1];
    buf[6] := frameType;
    buf[7] := flags;
    NetworkOrderStoresBigEndian(host, length, version);
  }

  /** The headers the server goes on with. */
  predicate Acceptable(h: Header) {
    h.version == PROTOCOL_VERSION && h.length <= MAX_PAYLOAD_SIZE && 1 <= h.frameType <= 4
  }

  method ParseHeader(host: ByteOrder, buf: seq<byte>) returns (ok: bool, out: Header)
    requires |buf| == FRAME_HEADER_SIZE
    ensures out == ReadHeader(buf)
    ensures ok <==> Acceptable(out)
    ensures ok <==> out.version == 1 && out.length <= 1024 * 1024 && out.frameType in {1, 2, 3, 4}
  {
    NetworkOrderLoadsBigEndian(host, buf[..4], buf[4..6]);
    out := Header(NetworkOrder32(host, Load32(host, buf[..4])), NetworkOrder16(host, Load16(host, buf[4..6])), buf[6], buf[7]);
    if out.version != PROTOCOL_VERSION {
      return false, out;
    }
    if out.length > MAX_PAYLOAD_SIZE {
      return false, out;
    }
    var ft := buf[6];
    if ft < 1 || ft > 4 {
      return false, out;
    }
    return true, out;
  }

  method SerializeFrame(host: ByteOrder, frame: Frame) returns (bytes: seq<byte>)
    ensures bytes == Serialize(frame)
  {
    var n := FRAME_HEADER_SIZE + |frame.payload|;
    var buf := new byte[n](i => 0);
    BuildHeader(host, buf, |frame.payload| % 0x1_0000_0000, frame.frameType, frame.flags, frame.version);
    CopyInto(buf, FRAME_HEADER_SIZE, frame.payload);
    assert buf[..] == HeaderBytes(FrameHeader(frame)) + frame.payload;
    bytes := buf[..];
  }

  /** Every header the server builds for a legal frame it also accepts, unchanged, and only those eight bytes spell it. */
  lemma BuildParseInverse(b: seq<byte>, h: Header)
    requires |b| == FRAME_HEADER_SIZE
    ensures b == HeaderBytes(h) <==> ReadHeader(b) == h
  {
    HeaderRoundTrip(h);
    ReadHeaderRoundTrip(b);
  }
}
