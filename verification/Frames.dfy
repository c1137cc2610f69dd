/** Binary frames of the data channel: one tag byte, then a tag-specific body. */
module Frames {
  import opened Prelude
  import opened Endian

  const TAG_FILE_HEADER: Byte := 0x01
  const TAG_CHUNK: Byte := 0x02
  const TAG_CHUNK_ACK: Byte := 0x03
  const TAG_TRANSFER_DONE: Byte := 0x04
  const TAG_TRANSFER_ERROR: Byte := 0x06
  const TAG_RESUME_FROM: Byte := 0x07
  const TAG_CANCELLED: Byte := 0x08
  const TAG_RELAYED_MESSAGE: Byte := 0x11

  type SeqNo = x: int | 0 <= x < U64

  function GetU64(b: Bytes): (v: SeqNo)
    requires |b| == 8
  {
    BigEndianOnto(b);
    PowersOf256();
    FromBigEndian(b)
  }

  function BuildChunk(seqNo: SeqNo, payload: Bytes): Bytes {
    [TAG_CHUNK] + BigEndian(seqNo, 8) + payload
  }

  function BuildAck(seqNo: SeqNo): Bytes {
    [TAG_CHUNK_ACK] + BigEndian(seqNo, 8)
  }

  function ParseAck(frame: Bytes): Option<SeqNo> {
    if |frame| < 9 || frame[0] != TAG_CHUNK_ACK then None else Some(GetU64(frame[1..9]))
  }

  function BuildResume(seqNo: SeqNo): Bytes {
    [TAG_RESUME_FROM] + BigEndian(seqNo, 8)
  }

  function ParseResume(frame: Bytes): Option<SeqNo> {
    if |frame| < 9 || frame[0] != TAG_RESUME_FROM then None else Some(GetU64(frame[1..9]))
  }

  function BuildRelayed(senderId: Bytes, text: Bytes): Bytes {
    var sid := if |senderId| > 255 then senderId[..255] else senderId;
    [TAG_RELAYED_MESSAGE, |sid|] + sid + text
  }

  function ParseRelayed(frame: Bytes): (Bytes, Bytes) {
    if |frame| < 2 || frame[0] != TAG_RELAYED_MESSAGE then ([], [])
    else
      var n: int := frame[1];
      if |frame| < 2 + n then ([], []) else (frame[2..2 + n], frame[2 + n..])
  }

  lemma U64RoundTrip(b: Bytes, v: SeqNo)
    requires |b| == 8
    ensures GetU64(b) == v <==> b == BigEndian(v, 8)
  {
    BigEndianKeeps(v, 8);
    PowersOf256();
    BigEndianOnto(b);
    assert v % U64 == v by { DivUnique(v, U64, 0, v); }
  }

  /** A frame parses as an ack of q exactly when it starts with the frame built for q. */
  lemma ParseAckIff(frame: Bytes, q: SeqNo)
    ensures ParseAck(frame) == Some(q) <==> BuildAck(q) <= frame
  {
    if |frame| >= 9 {
      U64RoundTrip(frame[1..9], q);
      assert BuildAck(q)[1..] == BigEndian(q, 8);
      assert frame[..9] == [frame[0]] + frame[1..9];
      assert BuildAck(q) <= frame <==> BuildAck(q) == frame[..9];
    }
  }

  lemma ParseResumeIff(frame: Bytes, q: SeqNo)
    ensures ParseResume(frame) == Some(q) <==> BuildResume(q) <= frame
  {
    if |frame| >= 9 {
      U64RoundTrip(frame[1..9], q);
      assert BuildResume(q)[1..] == BigEndian(q, 8);
      assert frame[..9] == [frame[0]] + frame[1..9];
      assert BuildResume(q) <= frame <==> BuildResume(q) == frame[..9];
    }
  }

  /** The text always survives; the sender's identity survives exactly when it fits its length byte. */
  lemma RelayedRoundTrip(senderId: Bytes, text: Bytes)
    ensures ParseRelayed(BuildRelayed(senderId, text)).1 == text
    ensures ParseRelayed(BuildRelayed(senderId, text)).0 == senderId <==> |senderId| <= 255
  {
    var sid := if |senderId| > 255 then senderId[..255] else senderId;
    var f := BuildRelayed(senderId, text);
    assert f[2..2 + |sid|] == sid;
    assert f[2 + |sid|..] == text;
  }

  lemma ChunkBody(seqNo: SeqNo, payload: Bytes)
    ensures var body := BuildChunk(seqNo, payload)[1..];
            |body| >= 8 && GetU64(body[..8]) == seqNo && body[8..] == payload
  {
    var body := BuildChunk(seqNo, payload)[1..];
    assert body == BigEndian(seqNo, 8) + payload;
    assert body[..8] == BigEndian(seqNo, 8);
    U64RoundTrip(body[..8], seqNo);
  }
}
