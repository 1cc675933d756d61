/** The frame codec: a 1- to 4-byte little-endian header whose low two bits give its own length. */
module WireFormat {
  import opened Prelude

  const MAX_FRAME_SIZE: nat := 0x100_0000

  type Bytes = seq<Byte>

  datatype WireError = FrameTooLarge | LengthOverflow

  function LittleEndian(head: Bytes): nat {
    if head == [] then 0 else head[0] + 256 * LittleEndian(head[1..])
  }

  /** The low `width` bytes of `n`, least significant first. */
  function ToBytes(n: nat, width: nat): (r: Bytes)
    ensures |r| == width
  {
    if width == 0 then [] else [n % 256] + ToBytes(n / 256, width - 1)
  }

  /** write_len: the length shifted by two, with the header length minus one in the low bits. */
  function EncodeHeader(len: nat): Result<Bytes, WireError> {
    if len <= 0x3F then Ok(ToBytes(4 * len, 1))
    else if len <= 0x3FFF then Ok(ToBytes(4 * len + 1, 2))
    else if len <= 0x3F_FFFF then Ok(ToBytes(4 * len + 2, 3))
    else if len <= 0x3FFF_FFFF then Ok(ToBytes(4 * len + 3, 4))
    else Err(LengthOverflow)
  }

  function HeaderLength(first: Byte): nat {
    first % 4 + 1
  }

  /** decode_frame_length */
  function DecodeLength(head: Bytes): nat {
    LittleEndian(head) / 4
  }

  function WriteFrame(payload: Bytes): Result<Bytes, WireError> {
    if |payload| > MAX_FRAME_SIZE then Err(FrameTooLarge)
    else
      match EncodeHeader(|payload|)
      case Err(e) => Err(e)
      case Ok(head) => Ok(head + payload)
  }

  /** What the front of a byte stream holds. */
  datatype Parsed = Incomplete | TooLarge | Frame(payload: Bytes, rest: Bytes)

  function ParseFrame(stream: Bytes): Parsed {
    if stream == [] then Incomplete
    else
      var head := HeaderLength(stream[0]);
      if |stream| < head then Incomplete
      else
        var len := DecodeLength(stream[..head]);
        if len > MAX_FRAME_SIZE then TooLarge
        else if |stream| < head + len then Incomplete
        else Frame(stream[head..head + len], stream[head + len..])
  }

  // ---------------------------------------------------------------- one frame

  lemma {:induction false} LittleEndianToBytes(n: nat, width: nat)
    requires n < Pow256(width)
    ensures LittleEndian(ToBytes(n, width)) == n
  {
    if width > 0 {
      LittleEndianToBytes(n / 256, width - 1);
      assert ToBytes(n, width)[1..] == ToBytes(n / 256, width - 1);
    }
  }

  function Pow256(n: nat): nat {
    if n == 0 then 1 else 256 * Pow256(n - 1)
  }

  lemma {:induction false} LowBits(len: nat, tag: nat)
    requires tag < 4
    ensures ((4 * len + tag) % 256) % 4 == tag
  {
    assert (4 * len + tag) % 4 == tag;
  }

  /** A header decodes to the length it was written for, and announces its own size. */
  lemma {:induction false} HeaderRoundTrip(len: nat)
    requires len <= 0x3FFF_FFFF
    ensures var head := EncodeHeader(len).value;
            1 <= |head| <= 4 && HeaderLength(head[0]) == |head| && DecodeLength(head) == len
    ensures EncodeHeader(len).Ok?
  {
    var head := EncodeHeader(len).value;
    var tag := |head| - 1;
    assert head == ToBytes(4 * len + tag, |head|);
    assert Pow256(1) == 256;
    assert Pow256(2) == 65536;
    assert Pow256(3) == 0x100_0000;
    assert Pow256(4) == 0x1_0000_0000;
    LittleEndianToBytes(4 * len + tag, |head|);
    assert head[0] == (4 * len + tag) % 256;
    LowBits(len, tag);
  }

  /** A header is written for every length below 2^30, and in as few bytes as hold the length and its two low bits. */
  lemma {:induction false} HeaderIsShortest(len: nat)
    ensures EncodeHeader(len).Ok? <==> 4 * len < Pow256(4)
    ensures EncodeHeader(len).Ok? ==>
              var n := |EncodeHeader(len).value|;
              n >= 1 && 4 * len < Pow256(n) && (n > 1 ==> Pow256(n - 1) <= 4 * len)
  {
    assert Pow256(1) == 256;
    assert Pow256(2) == 65536;
    assert Pow256(3) == 0x100_0000;
    assert Pow256(4) == 0x1_0000_0000;
  }

  // ---------------------------------------------------------------- every header

  /** The header of that many bytes for a length, shortest or not. */
  function Header(width: nat, len: nat): Bytes
    requires width > 0
  {
    ToBytes(4 * len + width - 1, width)
  }

  /** The width is one of the four, and the length and its two low bits fit it. */
  predicate FitsHeader(width: nat, len: nat) {
    1 <= width <= 4 && 4 * len + width - 1 < Pow256(width)
  }

  lemma {:induction false} HeaderReads(width: nat, len: nat)
    requires FitsHeader(width, len)
    ensures var head := Header(width, len);
            |head| == width && HeaderLength(head[0]) == width && DecodeLength(head) == len
  {
    LittleEndianToBytes(4 * len + width - 1, width);
    assert Header(width, len)[0] == (4 * len + width - 1) % 256;
    LowBits(len, width - 1);
  }

  lemma {:induction false} LowByte(n: nat, first: Byte, more: nat)
    requires n == first + 256 * more
    ensures n % 256 == first && n / 256 == more
  {
  }

  lemma {:induction false} ToBytesLittleEndian(head: Bytes)
    ensures ToBytes(LittleEndian(head), |head|) == head && LittleEndian(head) < Pow256(|head|)
  {
    if head != [] {
      var n, rest := LittleEndian(head), LittleEndian(head[1..]);
      ToBytesLittleEndian(head[1..]);
      LowByte(n, head[0], rest);
      assert ToBytes(n, |head|) == [n % 256] + ToBytes(n / 256, |head| - 1);
      assert Pow256(|head|) == 256 * Pow256(|head| - 1);
      assert head == [head[0]] + head[1..];
    }
  }

  lemma {:induction false} LowTwoBits(n: nat, first: Byte, more: nat)
    requires n == first + 256 * more
    ensures n == 4 * (n / 4) + first % 4
  {
    assert n % 4 == first % 4;
  }

  /** Whatever four bytes or fewer announce is the header of some length. */
  lemma {:induction false} EveryHeader(head: Bytes)
    requires head != [] && |head| == HeaderLength(head[0])
    ensures FitsHeader(|head|, DecodeLength(head)) && head == Header(|head|, DecodeLength(head))
  {
    ToBytesLittleEndian(head);
    var n := LittleEndian(head);
    assert n == head[0] + 256 * LittleEndian(head[1..]);
    LowTwoBits(n, head[0], LittleEndian(head[1..]));
  }

  ghost predicate StartsFrame(stream: Bytes, payload: Bytes, rest: Bytes) {
    exists width: nat :: FitsHeader(width, |payload|) && stream == Header(width, |payload|) + payload + rest
  }

  ghost predicate StartsOversize(stream: Bytes) {
    exists width: nat, len: nat :: FitsHeader(width, len) && len > 0x100_0000 && Header(width, len) <= stream
  }

  /** Exactly what is read as a frame: any header of the payload's length, not only the shortest, then the payload. */
  lemma {:induction false} ParsesExactly(stream: Bytes, payload: Bytes, rest: Bytes)
    ensures ParseFrame(stream) == Frame(payload, rest) <==>
            |payload| <= 0x100_0000 && StartsFrame(stream, payload, rest)
  {
    if ParseFrame(stream) == Frame(payload, rest) {
      var head := stream[..HeaderLength(stream[0])];
      EveryHeader(head);
      assert stream == head + payload + rest;
    }
    if |payload| <= 0x100_0000 && StartsFrame(stream, payload, rest) {
      var width: nat :| FitsHeader(width, |payload|) && stream == Header(width, |payload|) + payload + rest;
      HeaderReads(width, |payload|);
      assert stream[..width] == Header(width, |payload|) && stream[0] == Header(width, |payload|)[0];
      assert stream[width..width + |payload|] == payload && stream[width + |payload|..] == rest;
    }
  }

  /** Exactly what is refused: any header of a length beyond the maximum, as soon as it is there. */
  lemma {:induction false} RefusesExactly(stream: Bytes)
    ensures ParseFrame(stream) == TooLarge <==> StartsOversize(stream)
  {
    if ParseFrame(stream) == TooLarge {
      var head := stream[..HeaderLength(stream[0])];
      EveryHeader(head);
      assert head <= stream;
    }
    if StartsOversize(stream) {
      var width: nat, len: nat :| FitsHeader(width, len) && len > 0x100_0000 && Header(width, len) <= stream;
      HeaderReads(width, len);
      assert stream[..width] == Header(width, len) && stream[0] == Header(width, len)[0];
    }
  }

  /** A header that announces more than the maximum is refused as soon as it is there, whatever follows. */
  lemma {:induction false} OversizeRefused(len: nat, rest: Bytes)
    requires 0x100_0000 < len <= 0x3FFF_FFFF
    ensures ParseFrame(EncodeHeader(len).value + rest) == TooLarge
  {
    HeaderRoundTrip(len);
    var head := EncodeHeader(len).value;
    assert (head + rest)[..|head|] == head && (head + rest)[0] == head[0];
  }

  /** A written frame is parsed back whole, whatever follows it. */
  lemma {:induction false} FrameRoundTrip(payload: Bytes, rest: Bytes)
    requires |payload| <= MAX_FRAME_SIZE
    ensures WriteFrame(payload).Ok?
    ensures ParseFrame(WriteFrame(payload).value + rest) == Frame(payload, rest)
  {
    HeaderRoundTrip(|payload|);
    var head := EncodeHeader(|payload|).value;
    var stream := head + payload + rest;
    assert stream[..|head|] == head && stream[0] == head[0];
    assert stream[|head|..|head| + |payload|] == payload;
    assert stream[|head| + |payload|..] == rest;
  }

  /** A proper prefix of a written frame is never mistaken for anything. */
  lemma {:induction false} FramePrefixIncomplete(payload: Bytes, n: nat)
    requires |payload| <= MAX_FRAME_SIZE && WriteFrame(payload).Ok? && n < |WriteFrame(payload).value|
    ensures ParseFrame(WriteFrame(payload).value[..n]) == Incomplete
  {
    HeaderRoundTrip(|payload|);
    var head := EncodeHeader(|payload|).value;
    var prefix := (head + payload)[..n];
    if n > 0 {
      assert prefix[0] == head[0];
      if n >= |head| {
        assert prefix[..|head|] == head;
      }
    }
  }

  /** More bytes never change a verdict that was reached. */
  lemma {:induction false} ParseIsStable(stream: Bytes, more: Bytes)
    ensures ParseFrame(stream) == TooLarge ==> ParseFrame(stream + more) == TooLarge
    ensures ParseFrame(stream).Frame? ==>
              ParseFrame(stream + more) == Frame(ParseFrame(stream).payload, ParseFrame(stream).rest + more)
  {
    if stream != [] {
      var head := HeaderLength(stream[0]);
      if |stream| >= head {
        assert (stream + more)[..head] == stream[..head];
        var len := DecodeLength(stream[..head]);
        if |stream| >= head + len {
          assert (stream + more)[head..head + len] == stream[head..head + len];
          assert (stream + more)[head + len..] == stream[head + len..] + more;
        }
      }
    }
  }

  /** Parsing a stream whose header has been read apart from its body. */
  lemma {:induction false} ParseFromParts(first: Byte, more: Bytes, body: Bytes)
    requires |more| == HeaderLength(first) - 1
    ensures var head := [first] + more;
            var len := DecodeLength(head);
            ParseFrame([first] + (more + body)) ==
              if len > MAX_FRAME_SIZE then TooLarge
              else if |body| < len then Incomplete
              else Frame(body[..len], body[len..])
  {
    var head := [first] + more;
    var stream := [first] + (more + body);
    var len := DecodeLength(head);
    assert stream == head + body;
    assert stream[..|head|] == head;
    if |body| >= len {
      assert stream[|head|..|head| + len] == body[..len];
      assert stream[|head| + len..] == body[len..];
    }
  }

  // ---------------------------------------------------------------- whole streams

  /** All frames at the front of a stream, the bytes left over, and whether those start an oversized frame. */
  datatype Frames = Frames(payloads: seq<Bytes>, left: Bytes, bad: bool)

  function ParseAll(stream: Bytes): Frames
    decreases |stream|
  {
    match ParseFrame(stream)
    case Incomplete => Frames([], stream, false)
    case TooLarge => Frames([], stream, true)
    case Frame(payload, rest) =>
      var more := ParseAll(rest);
      Frames([payload] + more.payloads, more.left, more.bad)
  }

  /** Parsing in two instalments is parsing at once. */
  lemma {:induction false} ParseAllConcat(a: Bytes, b: Bytes)
    ensures var first := ParseAll(a);
            var second := ParseAll(first.left + b);
            ParseAll(a + b) == Frames(first.payloads + second.payloads, second.left, second.bad)
    decreases |a|
  {
    ParseIsStable(a, b);
    match ParseFrame(a)
    case Incomplete =>
    case TooLarge =>
    case Frame(payload, rest) =>
      ParseAllConcat(rest, b);
      var more, second := ParseAll(rest), ParseAll(ParseAll(rest).left + b);
      assert [payload] + (more.payloads + second.payloads) == [payload] + more.payloads + second.payloads;
  }

  function Join(chunks: seq<Bytes>): Bytes {
    if chunks == [] then [] else Join(chunks[..|chunks| - 1]) + chunks[|chunks| - 1]
  }

  /** A buffer fed chunk by chunk, drained after each chunk until no frame is left to take. */
  function FeedAll(chunks: seq<Bytes>): Frames {
    if chunks == [] then Frames([], [], false)
    else
      var before := FeedAll(chunks[..|chunks| - 1]);
      var now := ParseAll(before.left + chunks[|chunks| - 1]);
      Frames(before.payloads + now.payloads, now.left, now.bad)
  }

  /** How a stream is cut into chunks makes no difference, well-formed or not. */
  lemma {:induction false} ChunkingIrrelevant(chunks: seq<Bytes>)
    ensures FeedAll(chunks) == ParseAll(Join(chunks))
  {
    if chunks != [] {
      ChunkingIrrelevant(chunks[..|chunks| - 1]);
      ParseAllConcat(Join(chunks[..|chunks| - 1]), chunks[|chunks| - 1]);
    }
  }

  ghost predicate Sendable(payloads: seq<Bytes>) {
    forall i | 0 <= i < |payloads| :: |payloads[i]| <= MAX_FRAME_SIZE
  }

  function WriteAll(payloads: seq<Bytes>): Bytes
    requires Sendable(payloads)
  {
    if payloads == [] then []
    else
      FrameRoundTrip(payloads[0], []);
      WriteFrame(payloads[0]).value + WriteAll(payloads[1..])
  }

  lemma {:induction false} ParseWritten(payloads: seq<Bytes>, tail: Bytes)
    requires Sendable(payloads)
    requires ParseFrame(tail) == Incomplete
    ensures ParseAll(WriteAll(payloads) + tail) == Frames(payloads, tail, false)
  {
    if payloads == [] {
      assert [] + tail == tail;
    } else {
      var first := WriteFrame(payloads[0]).value;
      FrameRoundTrip(payloads[0], WriteAll(payloads[1..]) + tail);
      assert first + WriteAll(payloads[1..]) + tail == first + (WriteAll(payloads[1..]) + tail);
      ParseWritten(payloads[1..], tail);
      assert [payloads[0]] + payloads[1..] == payloads;
    }
  }

  /**
   * For any payloads up to the maximum, followed by part of one more frame, and any way of cutting the bytes,
   * exactly those payloads come out in order and exactly the unfinished part stays.
   */
  lemma {:induction false} WrittenFramesArrive(payloads: seq<Bytes>, last: Bytes, n: nat, chunks: seq<Bytes>)
    requires Sendable(payloads) && |last| <= MAX_FRAME_SIZE
    requires WriteFrame(last).Ok? && n < |WriteFrame(last).value|
    requires Join(chunks) == WriteAll(payloads) + WriteFrame(last).value[..n]
    ensures FeedAll(chunks) == Frames(payloads, WriteFrame(last).value[..n], false)
  {
    ChunkingIrrelevant(chunks);
    FramePrefixIncomplete(last, n);
    ParseWritten(payloads, WriteFrame(last).value[..n]);
  }
}
