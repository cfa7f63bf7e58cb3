/** The frame codec of src/protocol.c. */
module Protocol {
  import opened Bytes

  const MAGIC: u16 := 0xCAFE
  const HEADER_SIZE := 5
  const MAX_PAYLOAD := 0x10_0000
  const MAX_FRAME := HEADER_SIZE + 0xFFFF

  const MSG_CHAT: byte := 0x02
  const MSG_PRIV: byte := 0x03
  const MSG_GCREATE: byte := 0x04
  const MSG_GJOIN: byte := 0x05
  const MSG_GLEAVE: byte := 0x06
  const MSG_GMSG: byte := 0x07
  const MSG_USERS: byte := 0x08
  const MSG_FILE_INIT: byte := 0x09
  const MSG_FILE_ACCEPT: byte := 0x0A
  const MSG_FILE_REJECT: byte := 0x0B
  const MSG_FILE_CHUNK: byte := 0x0C
  const MSG_FILE_COMPLETE: byte := 0x0D
  const MSG_FILE_CANCEL: byte := 0x0E

  datatype Frame = Frame(msgType: byte, payload: Bytes)

  /** The frames a 16-bit length field can describe. */
  predicate Fits(f: Frame) {
    |f.payload| <= 0xFFFF
  }

  function Header(msgType: byte, length: u16): (h: Bytes)
    ensures |h| == HEADER_SIZE
  {
    BigEndian(MAGIC, 2) + [msgType] + BigEndian(length, 2)
  }

  /** The wire form of a frame. */
  function Encode(f: Frame): (d: Bytes)
    requires Fits(f)
    ensures |d| == HEADER_SIZE + |f.payload|
  {
    Header(f.msgType, |f.payload|) + f.payload
  }

  /** Magic 0xCAFE, type, 16-bit length, each with its high byte first, then the payload. */
  lemma EncodeLayout(f: Frame)
    requires Fits(f)
    ensures var n := |f.payload|;
            Encode(f) == [0xCA, 0xFE, f.msgType, n / 0x100, n % 0x100] + f.payload
  {
    TwoBytesOf(MAGIC);
    TwoBytesOf(|f.payload|);
  }

  lemma TwoBytesOf(v: u16)
    ensures BigEndian(v, 2) == [v / 0x100, v % 0x100]
  {
    BigEndianStep(v / 256, 0);
    BigEndianStep(v, 1);
  }

  // ---- protocol_parse ----

  datatype Parsed =
    | NeedMore
    | Bad
    | Got(frame: Frame, consumed: nat)

  /** protocol_parse; its forward scan after a wrong magic answers -1 either way and is not modelled. */
  function Parse(d: Bytes): Parsed {
    if |d| < HEADER_SIZE then NeedMore
    else if ReadU16(d) != MAGIC then Bad
    else
      var total := HEADER_SIZE + ReadU16(d[3..]);
      if |d| < total then NeedMore else Got(Frame(d[2], d[HEADER_SIZE..total]), total)
  }

  lemma HeaderFields(msgType: byte, length: u16, rest: Bytes)
    ensures var d := Header(msgType, length) + rest;
            ReadU16(d) == MAGIC && d[2] == msgType && ReadU16(d[3..]) == length && d[HEADER_SIZE..] == rest
  {
    var d := Header(msgType, length) + rest;
    ReadAfterWrite([msgType] + BigEndian(length, 2) + rest);
    assert d == BigEndian(MAGIC, 2) + ([msgType] + BigEndian(length, 2) + rest);
    ReadAfterWrite(rest);
    assert d[3..] == BigEndian(length, 2) + rest;
  }

  /** Decoding inverts encoding, whatever follows in the stream. */
  lemma ParseEncoded(f: Frame, rest: Bytes)
    requires Fits(f)
    ensures Parse(Encode(f) + rest) == Got(f, |Encode(f)|)
  {
    var d := Encode(f) + rest;
    assert d == Header(f.msgType, |f.payload|) + (f.payload + rest);
    HeaderFields(f.msgType, |f.payload|, f.payload + rest);
    assert d[HEADER_SIZE..HEADER_SIZE + |f.payload|] == f.payload;
  }

  /** Encoding inverts decoding: what was consumed is the encoding of what was returned. */
  lemma ParseInverse(d: Bytes)
    requires Parse(d).Got?
    ensures var p := Parse(d);
            Fits(p.frame) && HEADER_SIZE <= p.consumed <= |d| && d[..p.consumed] == Encode(p.frame)
  {
    var p := Parse(d);
    TwoBytes(d);
    TwoBytes(d[3..]);
    assert Encode(p.frame) == d[..p.consumed];
  }

  lemma TwoBytes(d: Bytes)
    requires |d| >= 2
    ensures BigEndian(ReadU16(d), 2) == d[..2]
  {
  }

  /** A verdict, once reached, is not changed by bytes that arrive later. */
  lemma ParseStable(d: Bytes, more: Bytes)
    requires Parse(d) != NeedMore
    ensures Parse(d + more) == Parse(d)
  {
  }

  /** No proper prefix of a frame is taken for a frame or an error. */
  lemma ParsePrefix(f: Frame, k: nat)
    requires Fits(f) && k < |Encode(f)|
    ensures Parse(Encode(f)[..k]) == NeedMore
  {
    var d := Encode(f)[..k];
    if Parse(d) != NeedMore {
      ParseStable(d, Encode(f)[k..]);
      assert d + Encode(f)[k..] == Encode(f) + [];
      ParseEncoded(f, []);
      assert false;
    }
  }

  /** Unique decodability: one stream, one first frame, one remainder. */
  lemma UniqueDecoding(f: Frame, r: Bytes, f': Frame, r': Bytes)
    requires Fits(f) && Fits(f')
    requires Encode(f) + r == Encode(f') + r'
    ensures f == f' && r == r'
  {
    ParseEncoded(f, r);
    ParseEncoded(f', r');
    assert r == (Encode(f) + r)[|Encode(f)|..];
    assert r' == (Encode(f') + r')[|Encode(f')|..];
  }

  // ---- payload layouts ----

  /** part\0 */
  function CString(s: Bytes): Bytes {
    s + [0]
  }

  function Text2Payload(part1: Bytes, part2: Bytes): Bytes {
    CString(part1) + CString(part2)
  }

  function Text3Payload(part1: Bytes, part2: Bytes, part3: Bytes): Bytes {
    CString(part1) + CString(part2) + CString(part3)
  }

  function TidPayload(tid: u32): Bytes {
    BigEndian(tid, 4)
  }

  function ChunkPayload(tid: u32, offset: nat, data: Bytes): Bytes {
    BigEndian(tid, 4) + BigEndian(offset, 8) + data
  }

  /** A handwritten header: the length is cast to 16 bits, the payload is copied whole. */
  function CastFrame(msgType: byte, payload: Bytes): (d: Bytes)
    ensures |d| == HEADER_SIZE + |payload|
  {
    Header(msgType, |payload| % 0x1_0000) + payload
  }

  /** protocol_build_text1 casts before it delegates, so an over-long payload is cut to match. */
  function CutFrame(msgType: byte, payload: Bytes): Bytes {
    var n := |payload| % 0x1_0000;
    Header(msgType, n) + payload[..n]
  }

  /** The builders that write their own header are exact for the payloads 16 bits can count, and only for those. */
  lemma CastFrameExact(msgType: byte, payload: Bytes)
    ensures |payload| <= 0xFFFF <==>
            Parse(CastFrame(msgType, payload)) == Got(Frame(msgType, payload), HEADER_SIZE + |payload|)
  {
    if |payload| <= 0xFFFF {
      ParseEncoded(Frame(msgType, payload), []);
      assert Encode(Frame(msgType, payload)) + [] == CastFrame(msgType, payload);
    } else {
      HeaderFields(msgType, |payload| % 0x1_0000, payload);
    }
  }

  /** The same limit for protocol_build_text1, though it emits a well-formed frame beyond it. */
  lemma CutFrameExact(msgType: byte, payload: Bytes)
    ensures |payload| <= 0xFFFF <==>
            Parse(CutFrame(msgType, payload)) == Got(Frame(msgType, payload), HEADER_SIZE + |payload|)
    ensures Parse(CutFrame(msgType, payload)).Got?
  {
    var n := |payload| % 0x1_0000;
    ParseEncoded(Frame(msgType, payload[..n]), []);
    assert Encode(Frame(msgType, payload[..n])) + [] == CutFrame(msgType, payload);
    if |payload| <= 0xFFFF {
      assert payload[..n] == payload;
    }
  }

  lemma CutIsEncoding(msgType: byte, payload: Bytes)
    requires |payload| <= 0xFFFF
    ensures CutFrame(msgType, payload) == Encode(Frame(msgType, payload))
  {
  }

  lemma CastIsEncoding(msgType: byte, payload: Bytes)
    requires |payload| <= 0xFFFF
    ensures CastFrame(msgType, payload) == Encode(Frame(msgType, payload))
  {
  }

  lemma PrefixOf(all: Bytes, d: Bytes)
    requires |d| <= |all| && forall i :: 0 <= i < |d| ==> all[i] == d[i]
    ensures all[..|d|] == d
  {
  }

  // ---- the builders ----

  /** Stores s at a position: memcpy. */
  method Store(out: array<byte>, at: nat, s: Bytes)
    requires at + |s| <= out.Length
    modifies out
    ensures Stored(out, at, s)
  {
    forall i | 0 <= i < |s| {
      out[at + i] := s[i];
    }
  }

  method WriteHeader(msgType: byte, length: u16, out: array<byte>)
    requires HEADER_SIZE <= out.Length
    modifies out
    ensures Stored(out, 0, Header(msgType, length))
  {
    WriteU16(out, 0, MAGIC);
    out[2] := msgType;
    WriteU16(out, 3, length);
  }

  /** A builder's success: n bytes of frame at the front of out, the bytes behind them untouched. */
  twostate predicate Placed(out: array<byte>, n: int, frame: Bytes)
    reads out
  {
    n == |frame| && Stored(out, 0, frame)
  }

  method BuildFrame(msgType: byte, payload: Bytes, length: u16, out: array<byte>) returns (n: int)
    requires length <= |payload|
    modifies out
    ensures n == -1 <==> HEADER_SIZE + length > out.Length
    ensures n == -1 ==> out[..] == old(out[..])
    ensures n != -1 ==> Placed(out, n, Encode(Frame(msgType, payload[..length])))
  {
    if HEADER_SIZE + length > out.Length {
      return -1;
    }
    WriteHeader(msgType, length, out);
    Store(out, HEADER_SIZE, payload[..length]);
    return HEADER_SIZE + length;
  }

  method BuildText1(msgType: byte, text: Bytes, out: array<byte>) returns (n: int)
    modifies out
    ensures n == -1 <==> |text| > MAX_PAYLOAD || |CutFrame(msgType, CString(text))| > out.Length
    ensures n == -1 ==> out[..] == old(out[..])
    ensures n != -1 ==> Placed(out, n, CutFrame(msgType, CString(text)))
  {
    if |text| > MAX_PAYLOAD {
      return -1;
    }
    n := BuildFrame(msgType, CString(text), (|text| + 1) % 0x1_0000, out);
  }

  method BuildText2(msgType: byte, part1: Bytes, part2: Bytes, out: array<byte>) returns (n: int)
    modifies out
    ensures var payload := Text2Payload(part1, part2);
            (n == -1 <==> |payload| > MAX_PAYLOAD || HEADER_SIZE + |payload| > out.Length)
            && (n == -1 ==> out[..] == old(out[..]))
            && (n != -1 ==> Placed(out, n, CastFrame(msgType, payload)))
  {
    var total := |part1| + 1 + |part2| + 1;
    if total > MAX_PAYLOAD || total + HEADER_SIZE > out.Length {
      return -1;
    }
    WriteHeader(msgType, total % 0x1_0000, out);
    Store(out, HEADER_SIZE, CString(part1));
    Store(out, HEADER_SIZE + |part1| + 1, CString(part2));
    return total + HEADER_SIZE;
  }

  method BuildText3(msgType: byte, part1: Bytes, part2: Bytes, part3: Bytes, out: array<byte>) returns (n: int)
    modifies out
    ensures var payload := Text3Payload(part1, part2, part3);
            (n == -1 <==> |payload| > MAX_PAYLOAD || HEADER_SIZE + |payload| > out.Length)
            && (n == -1 ==> out[..] == old(out[..]))
            && (n != -1 ==> Placed(out, n, CastFrame(msgType, payload)))
  {
    var total := |part1| + 1 + |part2| + 1 + |part3| + 1;
    if total > MAX_PAYLOAD || total + HEADER_SIZE > out.Length {
      return -1;
    }
    WriteHeader(msgType, total % 0x1_0000, out);
    Store(out, HEADER_SIZE, CString(part1));
    Store(out, HEADER_SIZE + |part1| + 1, CString(part2));
    Store(out, HEADER_SIZE + |part1| + 1 + |part2| + 1, CString(part3));
    return total + HEADER_SIZE;
  }

  method BuildTid(msgType: byte, tid: u32, out: array<byte>) returns (n: int)
    modifies out
    ensures n == -1 <==> HEADER_SIZE + 4 > out.Length
    ensures n == -1 ==> out[..] == old(out[..])
    ensures n != -1 ==> Placed(out, n, Encode(Frame(msgType, TidPayload(tid))))
  {
    var payload := new byte[4];
    WriteU32(payload, 0, tid);
    assert payload[..] == BigEndian(tid, 4);
    n := BuildFrame(msgType, payload[..], 4, out);
  }

  method BuildChunk(tid: u32, offset: u64, data: Bytes, out: array<byte>) returns (n: int)
    requires |data| <= 0xFFFF
    modifies out
    ensures var payload := ChunkPayload(tid, offset, data);
            (n == -1 <==> HEADER_SIZE + |payload| > out.Length)
            && (n == -1 ==> out[..] == old(out[..]))
            && (n != -1 ==> Placed(out, n, CastFrame(MSG_FILE_CHUNK, payload)))
  {
    var total := 12 + |data|;
    if total > MAX_PAYLOAD || total + HEADER_SIZE > out.Length {
      return -1;
    }
    WriteHeader(MSG_FILE_CHUNK, total % 0x1_0000, out);
    WriteU32(out, HEADER_SIZE, tid);
    WriteU64(out, HEADER_SIZE + 4, offset);
    Store(out, HEADER_SIZE + 12, data);
    return total + HEADER_SIZE;
  }
}
