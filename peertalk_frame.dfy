/**
 * The PeerTalk frame codec of the temperature sender: a 16-byte header of four
 * unsigned 32-bit fields in network byte order (version, type, tag, payloadSize)
 * followed by the payload bytes, and the sender that hands one frame to the socket.
 */
module PeerTalkFrame {
  import opened Wrappers

  type uint8 = x: int | 0 <= x < 256

  const PTPROTOCOL_VERSION: int := 1
  const FRAME_TYPE_TEMPERATURE: int := 100
  const UNTAGGED: int := 0
  const HEADER_SIZE: nat := 16
  const UINT32_LIMIT: int := 0x1_0000_0000

  /** 256 to the power n: the number of values that n bytes can hold. */
  function Pow256(n: nat): (p: nat)
    ensures p > 0
  {
    if n == 0 then 1 else 256 * Pow256(n - 1)
  }

  lemma Pow256Four()
    ensures Pow256(4) == UINT32_LIMIT
  {
    assert Pow256(2) == 65536;
  }

  /** The low `width` bytes of x, most significant byte first. */
  function ToBigEndian(x: nat, width: nat): (bytes: seq<uint8>)
    ensures |bytes| == width
  {
    if width == 0 then [] else ToBigEndian(x / 256, width - 1) + [x % 256]
  }

  /** The unsigned number whose big-endian bytes are `bytes`. */
  function FromBigEndian(bytes: seq<uint8>): (x: nat)
    ensures x < Pow256(|bytes|)
  {
    if bytes == [] then 0
    else FromBigEndian(bytes[..|bytes| - 1]) * 256 + bytes[|bytes| - 1]
  }

  /** Reading back the big-endian bytes of a value that fits gives the value. */
  lemma {:induction false} FromToBigEndian(x: nat, width: nat)
    requires x < Pow256(width)
    ensures FromBigEndian(ToBigEndian(x, width)) == x
  {
    if width > 0 {
      assert x / 256 < Pow256(width - 1);
      FromToBigEndian(x / 256, width - 1);
      var bytes := ToBigEndian(x, width);
      assert bytes[..width - 1] == ToBigEndian(x / 256, width - 1);
    }
  }

  /** Every byte string is the big-endian encoding of the number it denotes. */
  lemma {:induction false} ToFromBigEndian(bytes: seq<uint8>)
    ensures ToBigEndian(FromBigEndian(bytes), |bytes|) == bytes
  {
    if bytes != [] {
      var init, last := bytes[..|bytes| - 1], bytes[|bytes| - 1];
      var x := FromBigEndian(bytes);
      assert x / 256 == FromBigEndian(init) && x % 256 == last;
      ToFromBigEndian(init);
      assert bytes == init + [last];
    }
  }

  /** The four bytes of a 32-bit field, written out digit by digit (most significant first). */
  lemma BigEndian32Digits(x: nat)
    ensures ToBigEndian(x, 4) == [(x / 0x100_0000) % 256, (x / 0x1_0000) % 256, (x / 0x100) % 256, x % 256]
  {
    var a, b, c := x / 256, x / 256 / 256, x / 256 / 256 / 256;
    assert b == x / 0x1_0000 && c == x / 0x100_0000;
    assert ToBigEndian(c, 1) == [c % 256];
    assert ToBigEndian(b, 2) == [c % 256, b % 256];
    assert ToBigEndian(a, 3) == [c % 256, b % 256, a % 256];
  }

  /** `struct.pack('>I', x)`: four big-endian bytes, or None where the module raises struct.error. */
  function PackUInt32(x: int): (r: Option<seq<uint8>>)
    ensures r.Some? <==> 0 <= x < UINT32_LIMIT
    ensures r.Some? ==> |r.value| == 4 && FromBigEndian(r.value) == x
  {
    if 0 <= x < UINT32_LIMIT then
      Pow256Four();
      FromToBigEndian(x, 4);
      Some(ToBigEndian(x, 4))
    else None
  }

  /** The header fields as the sender fills them in. */
  datatype Header = Header(version: int, frameType: int, tag: int, payloadSize: int)

  predicate FitsUInt32(x: int) {
    0 <= x < UINT32_LIMIT
  }

  predicate Packable(h: Header) {
    FitsUInt32(h.version) && FitsUInt32(h.frameType) && FitsUInt32(h.tag) && FitsUInt32(h.payloadSize)
  }

  /** `struct.pack('>IIII', version, type, tag, payloadSize)`. */
  function PackHeader(h: Header): (r: Option<seq<uint8>>)
    ensures r.Some? <==> Packable(h)
    ensures r.Some? ==> |r.value| == HEADER_SIZE
  {
    match (PackUInt32(h.version), PackUInt32(h.frameType), PackUInt32(h.tag), PackUInt32(h.payloadSize))
    case (Some(v), Some(t), Some(g), Some(n)) => Some(v + t + g + n)
    case _ => None
  }

  /** `struct.unpack('>IIII', bytes[:16])`: the partner of PackHeader; None on fewer than 16 bytes. */
  function UnpackHeader(bytes: seq<uint8>): (r: Option<Header>)
    ensures r.Some? <==> |bytes| >= HEADER_SIZE
    ensures r.Some? ==> Packable(r.value)
  {
    if |bytes| < HEADER_SIZE then None
    else
      Pow256Four();
      Some(Header(FromBigEndian(bytes[0..4]), FromBigEndian(bytes[4..8]),
                  FromBigEndian(bytes[8..12]), FromBigEndian(bytes[12..16])))
  }

  /** Unpacking a packed header gives back every field. */
  lemma UnpackPackHeader(h: Header)
    requires Packable(h)
    ensures UnpackHeader(PackHeader(h).value) == Some(h)
  {
    var bytes := PackHeader(h).value;
    assert bytes[0..4] == PackUInt32(h.version).value;
    assert bytes[4..8] == PackUInt32(h.frameType).value;
    assert bytes[8..12] == PackUInt32(h.tag).value;
    assert bytes[12..16] == PackUInt32(h.payloadSize).value;
  }

  /** Packing the fields read from 16 bytes gives back those 16 bytes. */
  lemma PackUnpackHeader(bytes: seq<uint8>)
    requires |bytes| >= HEADER_SIZE
    ensures PackHeader(UnpackHeader(bytes).value) == Some(bytes[..HEADER_SIZE])
  {
    var h := UnpackHeader(bytes).value;
    ToFromBigEndian(bytes[0..4]);
    ToFromBigEndian(bytes[4..8]);
    ToFromBigEndian(bytes[8..12]);
    ToFromBigEndian(bytes[12..16]);
    Pow256Four();
    assert bytes[..HEADER_SIZE] == bytes[0..4] + bytes[4..8] + bytes[8..12] + bytes[12..16];
  }

  /**
   * The frame send_peertalk_frame writes: header (version 1, the given type, tag 0,
   * the payload length) then the payload; None where struct.pack raises.
   */
  function EncodeFrame(frameType: int, payload: seq<uint8>): (r: Option<seq<uint8>>)
    ensures r.Some? <==> FitsUInt32(frameType) && |payload| < UINT32_LIMIT
    ensures r.Some? ==> |r.value| == HEADER_SIZE + |payload| && r.value[HEADER_SIZE..] == payload
  {
    match PackHeader(Header(PTPROTOCOL_VERSION, frameType, UNTAGGED, |payload|))
    case None => None
    case Some(header) => Some(header + payload)
  }

  /** Reading a frame back: the header, and the payload it announces, which must be all the remaining bytes. */
  function DecodeFrame(bytes: seq<uint8>): (r: Option<(Header, seq<uint8>)>)
    ensures r.Some? ==> r.value.0.payloadSize == |bytes| - HEADER_SIZE == |r.value.1|
    ensures r.Some? ==> Packable(r.value.0) && bytes == PackHeader(r.value.0).value + r.value.1
  {
    match UnpackHeader(bytes)
    case None => None
    case Some(h) =>
      if h.payloadSize == |bytes| - HEADER_SIZE then
        PackUnpackHeader(bytes);
        assert bytes == bytes[..HEADER_SIZE] + bytes[HEADER_SIZE..];
        Some((h, bytes[HEADER_SIZE..]))
      else None
  }

  /** Every encoded frame decodes to header (1, frameType, 0, |payload|) and the payload unchanged. */
  lemma DecodeEncodeFrame(frameType: int, payload: seq<uint8>)
    requires EncodeFrame(frameType, payload).Some?
    ensures DecodeFrame(EncodeFrame(frameType, payload).value)
            == Some((Header(PTPROTOCOL_VERSION, frameType, UNTAGGED, |payload|), payload))
  {
    var h := Header(PTPROTOCOL_VERSION, frameType, UNTAGGED, |payload|);
    var frame := EncodeFrame(frameType, payload).value;
    assert frame[..HEADER_SIZE] == PackHeader(h).value;
    UnpackPackHeader(h);
    var header := frame[..HEADER_SIZE];
    assert frame[0..4] == header[0..4] && frame[4..8] == header[4..8];
    assert frame[8..12] == header[8..12] && frame[12..16] == header[12..16];
  }

  /** A decodable frame with version 1 and tag 0 is exactly what the sender would write for its type and payload. */
  lemma EncodeDecodeFrame(bytes: seq<uint8>)
    requires DecodeFrame(bytes).Some?
    requires DecodeFrame(bytes).value.0.version == PTPROTOCOL_VERSION
    requires DecodeFrame(bytes).value.0.tag == UNTAGGED
    ensures EncodeFrame(DecodeFrame(bytes).value.0.frameType, DecodeFrame(bytes).value.1) == Some(bytes)
  {
    var (h, payload) := DecodeFrame(bytes).value;
    assert h == Header(PTPROTOCOL_VERSION, h.frameType, UNTAGGED, |payload|);
  }

  /** Distinct (type, payload) pairs never produce the same bytes. */
  lemma EncodeFrameInjective(t1: int, p1: seq<uint8>, t2: int, p2: seq<uint8>)
    requires EncodeFrame(t1, p1).Some? && EncodeFrame(t1, p1) == EncodeFrame(t2, p2)
    ensures t1 == t2 && p1 == p2
  {
    DecodeEncodeFrame(t1, p1);
    DecodeEncodeFrame(t2, p2);
  }

  /** The header bytes on the wire: version 1 as 00 00 00 01, the type big-endian, tag 0, then the length big-endian. */
  lemma EncodeFrameBytes(frameType: int, payload: seq<uint8>)
    requires EncodeFrame(frameType, payload).Some?
    ensures var frame := EncodeFrame(frameType, payload).value;
            && frame[0..4] == [0, 0, 0, 1]
            && frame[4..8] == [(frameType / 0x100_0000) % 256, (frameType / 0x1_0000) % 256, (frameType / 0x100) % 256, frameType % 256]
            && frame[8..12] == [0, 0, 0, 0]
            && frame[12..16] == [(|payload| / 0x100_0000) % 256, (|payload| / 0x1_0000) % 256, (|payload| / 0x100) % 256, |payload| % 256]
  {
    var frame := EncodeFrame(frameType, payload).value;
    var h := Header(PTPROTOCOL_VERSION, frameType, UNTAGGED, |payload|);
    var header := PackHeader(h).value;
    assert frame[..HEADER_SIZE] == header;
    assert header[0..4] == ToBigEndian(PTPROTOCOL_VERSION, 4);
    assert header[4..8] == ToBigEndian(frameType, 4);
    assert header[8..12] == ToBigEndian(UNTAGGED, 4);
    assert header[12..16] == ToBigEndian(|payload|, 4);
    BigEndian32Digits(PTPROTOCOL_VERSION);
    BigEndian32Digits(frameType);
    BigEndian32Digits(UNTAGGED);
    BigEndian32Digits(|payload|);
  }

  /** What one call of send_peertalk_frame does: the bytes given to sock.sendall (None: nothing was sent) and its return value. */
  datatype SendResult = SendResult(handedToSendall: Option<seq<uint8>>, ok: bool)

  /**
   * send_peertalk_frame on a payload already serialised to bytes; `sendallOk` says
   * whether sock.sendall completed or raised.
   */
  function SendPeerTalkFrame(frameType: int, payload: seq<uint8>, sendallOk: bool): (r: SendResult)
    ensures r.handedToSendall.Some? <==> FitsUInt32(frameType) && |payload| < UINT32_LIMIT
    ensures r.ok <==> r.handedToSendall.Some? && sendallOk
    ensures r.handedToSendall.Some? ==>
              DecodeFrame(r.handedToSendall.value) == Some((Header(PTPROTOCOL_VERSION, frameType, UNTAGGED, |payload|), payload))
  {
    match EncodeFrame(frameType, payload)
    case None => SendResult(None, false)
    case Some(frame) =>
      DecodeEncodeFrame(frameType, payload);
      SendResult(Some(frame), sendallOk)
  }
}
