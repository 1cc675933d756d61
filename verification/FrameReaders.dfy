/** The three frame decoders over a socket whose reads may be short, interrupted or late. */
module FrameReaders {
  import opened Prelude
  import opened WireFormat

  /** What one read call on the socket meets. Data is never empty: zero bytes would be end of stream. */
  datatype Read = Data(first: Byte, more: Bytes) | Interrupted | TimedOut | Closed | Broken {
    function Bytes(): Bytes {
      if Data? then [first] + more else []
    }
  }

  datatype ReadError =
    | UnexpectedEof | Cancelled | DeadlineIdle | DeadlinePartial | Timeout | Socket | Oversized | PumpFailed

  /** What a script of reads amounts to: the bytes it delivers, and its timeouts. */
  datatype Outlook = Outlook(bytes: Bytes, size: nat, timeouts: nat)

  function Look(script: seq<Read>): Outlook {
    if script == [] then Outlook([], 0, 0)
    else
      var r, rest := script[0], Look(script[1..]);
      Outlook(if r.Closed? || r.Broken? then [] else r.Bytes() + rest.bytes, |r.Bytes()| + 1 + rest.size,
              (if r.TimedOut? then 1 else 0) + rest.timeouts)
  }

  /** The bytes delivered before the stream ends or breaks. */
  function Available(script: seq<Read>): Bytes {
    Look(script).bytes
  }

  /** The number of reads and of bytes. */
  function Size(script: seq<Read>): nat {
    Look(script).size
  }

  /** How often the reads time out. */
  function Timeouts(script: seq<Read>): nat {
    Look(script).timeouts
  }

  /** What stands in front of a stream that a read found ended or broken. */
  predicate AtEnd(script: seq<Read>) {
    script == [] || script[0].Closed?
  }

  predicate AtFailure(script: seq<Read>) {
    script != [] && script[0].Broken?
  }

  lemma {:induction false} AvailableCons(r: Read, rest: seq<Read>)
    requires !r.Closed? && !r.Broken?
    ensures Available([r] + rest) == r.Bytes() + Available(rest)
    ensures Size([r] + rest) == |r.Bytes()| + 1 + Size(rest)
    ensures Timeouts([r] + rest) == (if r.TimedOut? then 1 else 0) + Timeouts(rest)
  {
    assert ([r] + rest)[1..] == rest;
  }

  /** What stays of a delivery after its first `want` bytes. */
  function Leftover(bytes: Bytes, want: nat): (r: Read)
    requires want < |bytes|
    ensures r.Data? && r.Bytes() == bytes[want..]
  {
    Data(bytes[want], bytes[want + 1..])
  }

  /** Reading the beginning of a delivery and leaving the rest in front changes nothing about the stream. */
  lemma {:induction false} CutRead(r: Read, rest: seq<Read>, want: nat)
    requires r.Data? && 0 < want < |r.Bytes()|
    ensures r.Bytes()[..want] + Available([Leftover(r.Bytes(), want)] + rest) == Available([r] + rest)
    ensures Size([Leftover(r.Bytes(), want)] + rest) < Size([r] + rest)
    ensures Timeouts([Leftover(r.Bytes(), want)] + rest) == Timeouts([r] + rest)
  {
    var bytes, ahead := r.Bytes(), Available(rest);
    AvailableCons(r, rest);
    AvailableCons(Leftover(bytes, want), rest);
    Rejoin(bytes, want, ahead);
  }

  lemma {:induction false} Rejoin(bytes: Bytes, want: nat, ahead: Bytes)
    requires want <= |bytes|
    ensures bytes[..want] + (bytes[want..] + ahead) == bytes + ahead
  {
    Associate(bytes[..want], bytes[want..], ahead);
    assert bytes[..want] + bytes[want..] == bytes;
  }

  /** What one bounded read returns. */
  datatype Got = Some(bytes: Bytes) | Again | Late | End | Failure

  /** A socket as the script of its future reads; an exhausted script reads as end of stream. */
  class Socketlike {
    var script: seq<Read>

    constructor (future: seq<Read>)
      ensures script == future
    {
      script := future;
    }

    /** One read of at most `want` bytes; the rest of a longer delivery stays for the next read. */
    method ReadSome(want: nat) returns (r: Got)
      requires want > 0
      modifies this
      ensures r.Some? ==> 1 <= |r.bytes| <= want && r.bytes + Available(script) == old(Available(script))
      ensures r.Again? || r.Late? ==> Available(script) == old(Available(script))
      ensures r.Some? || r.Again? || r.Late? ==> Size(script) < old(Size(script))
      ensures r.End? || r.Failure? ==> old(Available(script)) == [] && script == old(script)
      ensures (r.End? ==> AtEnd(script)) && (r.Failure? ==> AtFailure(script))
      ensures old(Timeouts(script)) == Timeouts(script) + if r.Late? then 1 else 0
    {
      if script == [] {
        return End;
      }
      match script[0] {
        case Data(first, more) =>
          var bytes := [first] + more;
          if |bytes| <= want {
            r := Got.Some(bytes);
            script := script[1..];
          } else {
            r := Got.Some(bytes[..want]);
            assert script == [script[0]] + script[1..];
            CutRead(script[0], script[1..], want);
            script := [Leftover(bytes, want)] + script[1..];
          }
        case Interrupted =>
          r := Again;
          script := script[1..];
        case TimedOut =>
          r := Late;
          script := script[1..];
        case Closed =>
          r := End;
        case Broken =>
          r := Failure;
      }
    }
  }

  // ---------------------------------------------------------------- read_frame

  /** So far `filled` bytes of the stream are in front of the buffer; the others are still ahead. */
  predicate Progress(stream: Socketlike, buffer: array<Byte>, filled: nat, ahead: Bytes)
    reads stream, buffer
  {
    && filled <= buffer.Length && filled <= |ahead|
    && buffer[..filled] == ahead[..filled] && Available(stream.script) == ahead[filled..]
  }

  lemma {:induction false} Filled(stream: Socketlike, buffer: array<Byte>, ahead: Bytes)
    requires Progress(stream, buffer, buffer.Length, ahead)
    ensures buffer[..] + Available(stream.script) == ahead
  {
    assert buffer[..buffer.Length] == buffer[..];
  }

  lemma {:induction false} MoreProgress(ahead: Bytes, filled: nat, bytes: Bytes, left: Bytes)
    requires filled <= |ahead| && bytes + left == ahead[filled..]
    ensures filled + |bytes| <= |ahead| && left == ahead[filled + |bytes|..]
    ensures ahead[..filled] + bytes == ahead[..filled + |bytes|]
  {
    assert ahead == ahead[..filled] + (bytes + left);
  }

  /** What a failed read is due to: the stream's end, its failure, or one more timeout than before. */
  predicate Caused(error: ReadError, script: seq<Read>, timeouts: nat) {
    match error
    case UnexpectedEof => AtEnd(script)
    case Socket => AtFailure(script)
    case Timeout => Timeouts(script) < timeouts
    case _ => false
  }

  /** One read straight into the unfilled part of the buffer; `n` bytes arrived, possibly none. */
  method ReadInto(stream: Socketlike, buffer: array<Byte>, offset: nat, ghost ahead: Bytes) returns (got: Got, n: nat)
    requires offset < buffer.Length && Progress(stream, buffer, offset, ahead)
    modifies stream, buffer
    ensures Progress(stream, buffer, offset + n, ahead)
    ensures got.Some? || got.Again? || got.Late? ==> Size(stream.script) < old(Size(stream.script))
    ensures !got.Some? ==> n == 0
    ensures got.End? || got.Failure? ==> |ahead| == offset
    ensures (got.End? ==> AtEnd(stream.script)) && (got.Failure? ==> AtFailure(stream.script))
    ensures old(Timeouts(stream.script)) == Timeouts(stream.script) + if got.Late? then 1 else 0
  {
    got := stream.ReadSome(buffer.Length - offset);
    n := 0;
    if got.Some? {
      MoreProgress(ahead, offset, got.bytes, Available(stream.script));
      Copy(buffer, offset, got.bytes);
      n := |got.bytes|;
    }
  }

  /** Fills the buffer from the socket, retrying interrupted reads; any other failure is returned. */
  method ReadExact(stream: Socketlike, buffer: array<Byte>) returns (error: Option<ReadError>)
    modifies stream, buffer
    ensures error.None? ==> buffer[..] + Available(stream.script) == old(Available(stream.script))
    ensures error.Some? ==> Caused(error.value, stream.script, old(Timeouts(stream.script)))
    ensures error.None? ==> Timeouts(stream.script) == old(Timeouts(stream.script))
    ensures error == Option.Some(UnexpectedEof) || error == Option.Some(Socket) ==>
              |old(Available(stream.script))| < buffer.Length
  {
    var offset := 0;
    ghost var ahead := Available(stream.script);
    while offset < buffer.Length
      invariant 0 <= offset <= buffer.Length && Progress(stream, buffer, offset, ahead)
      invariant Timeouts(stream.script) == old(Timeouts(stream.script))
      decreases Size(stream.script)
    {
      var got, n := ReadInto(stream, buffer, offset, ahead);
      offset := offset + n;
      if got.Late? {
        return Option.Some(Timeout);
      } else if got.End? {
        return Option.Some(UnexpectedEof);
      } else if got.Failure? {
        return Option.Some(Socket);
      }
    }
    Filled(stream, buffer, ahead);
    error := None;
  }

  method Copy(buffer: array<Byte>, offset: nat, bytes: Bytes)
    requires offset + |bytes| <= buffer.Length
    modifies buffer
    ensures buffer[..offset + |bytes|] == old(buffer[..offset]) + bytes
  {
    var i := 0;
    while i < |bytes|
      invariant 0 <= i <= |bytes|
      invariant buffer[..offset + i] == old(buffer[..offset]) + bytes[..i]
    {
      buffer[offset + i] := bytes[i];
      i := i + 1;
    }
  }

  /** Reads `n` bytes into a fresh buffer. */
  method ReadBytes(stream: Socketlike, n: nat) returns (error: Option<ReadError>, bytes: Bytes)
    modifies stream
    ensures error.None? ==> |bytes| == n && bytes + Available(stream.script) == old(Available(stream.script))
    ensures error.Some? ==> Caused(error.value, stream.script, old(Timeouts(stream.script)))
    ensures error.None? ==> Timeouts(stream.script) == old(Timeouts(stream.script))
    ensures error == Option.Some(UnexpectedEof) || error == Option.Some(Socket) ==>
              |old(Available(stream.script))| < n
  {
    var buffer := new Byte[n];
    error := ReadExact(stream, buffer);
    bytes := buffer[..];
  }

  /** read_frame: what it returns is what the bytes ahead parse to, and a frame is consumed exactly. */
  method ReadFrame(stream: Socketlike) returns (r: Result<Bytes, ReadError>)
    modifies stream
    ensures r.Ok? ==> ParseFrame(old(Available(stream.script))) == Frame(r.value, Available(stream.script))
    ensures r == Err(Oversized) ==> ParseFrame(old(Available(stream.script))) == TooLarge
    ensures r == Err(UnexpectedEof) || r == Err(Socket) ==> ParseFrame(old(Available(stream.script))) == Incomplete
    ensures r.Err? && r.error != Oversized ==> Caused(r.error, stream.script, old(Timeouts(stream.script)))
  {
    var error, first := ReadBytes(stream, 1);
    if error.Some? {
      return Err(error.value);
    }
    ghost var afterFirst := Available(stream.script);
    assert first == [first[0]];
    var more;
    error, more := ReadBytes(stream, HeaderLength(first[0]) - 1);
    if error.Some? {
      return Err(error.value);
    }
    ghost var body := Available(stream.script);
    ParseFromParts(first[0], more, body);
    var len := DecodeLength([first[0]] + more);
    if len > MAX_FRAME_SIZE {
      return Err(Oversized);
    }
    var payload;
    error, payload := ReadBytes(stream, len);
    if error.Some? {
      return Err(error.value);
    }
    assert body[..len] == payload && body[len..] == Available(stream.script);
    r := Ok(payload);
  }

  // ---------------------------------------------------------------- read_frame_cancellable

  /** How many polls are left before the deadline, and at how few of them left the caller cancels, if ever. */
  datatype Patience = Patience(polls: nat, cancelAt: Option<nat>) {
    predicate IsCancelled() {
      cancelAt.Some? && polls <= cancelAt.value
    }
  }

  /** A deadline is only reported when no poll is left, a cancellation only when the caller asked for it. */
  predicate CausedUntil(error: ReadError, script: seq<Read>, left: Patience) {
    match error
    case UnexpectedEof => AtEnd(script)
    case Socket => AtFailure(script)
    case Cancelled => left.IsCancelled()
    case DeadlineIdle => left.polls == 0
    case DeadlinePartial => left.polls == 0
    case _ => false
  }

  /** Between the two moments the last poll was made before the caller cancelled. */
  predicate Uncancelled(before: Patience, left: Patience) {
    left.cancelAt.Some? && left.polls < before.polls ==> left.cancelAt.value <= left.polls
  }

  /** One round of read_exact_until: the two checks, then one read. */
  method PollOnce(stream: Socketlike, buffer: array<Byte>, offset: nat, ghost ahead: Bytes, before: Patience, started: bool)
    returns (error: Option<ReadError>, n: nat, left: Patience)
    requires offset < buffer.Length && Progress(stream, buffer, offset, ahead)
    modifies stream, buffer
    ensures Progress(stream, buffer, offset + n, ahead)
    ensures error.Some? ==> n == 0 && CausedUntil(error.value, stream.script, left)
    ensures error == Option.Some(UnexpectedEof) || error == Option.Some(Socket) ==> |ahead| == offset
    ensures error == Option.Some(DeadlineIdle) ==> !started && offset == 0
    ensures error == Option.Some(DeadlinePartial) ==> started || offset > 0
    ensures left.cancelAt == before.cancelAt && (error.None? ==> Uncancelled(before, left))
    ensures if error.None? then left.polls + 1 == before.polls && Size(stream.script) < old(Size(stream.script))
            else left.polls <= before.polls
    ensures error.Some? && error.value in {DeadlineIdle, DeadlinePartial} ==>
              left == before && Size(stream.script) == old(Size(stream.script))
  {
    n, left := 0, before;
    if left.IsCancelled() {
      return Option.Some(Cancelled), n, left;
    }
    if left.polls == 0 {
      return Option.Some(if started || offset > 0 then DeadlinePartial else DeadlineIdle), n, left;
    }
    left := Patience(left.polls - 1, left.cancelAt);
    var got;
    got, n := ReadInto(stream, buffer, offset, ahead);
    error := if got.End? then Option.Some(UnexpectedEof) else if got.Failure? then Option.Some(Socket) else None;
  }

  /** read_exact_until: as `ReadExact`, but it rides out timeouts until the deadline or a cancellation. */
  method ReadExactUntil(stream: Socketlike, buffer: array<Byte>, patience: Patience, started: bool)
    returns (error: Option<ReadError>, left: Patience)
    modifies stream, buffer
    ensures error.None? ==> buffer[..] + Available(stream.script) == old(Available(stream.script))
    ensures error.Some? ==> CausedUntil(error.value, stream.script, left)
    ensures error.None? || error.value in {DeadlineIdle, DeadlinePartial} ==>
              patience.polls + Size(stream.script) <= left.polls + old(Size(stream.script))
    ensures error == Option.Some(UnexpectedEof) || error == Option.Some(Socket) ==>
              |old(Available(stream.script))| < buffer.Length
    ensures error == Option.Some(DeadlineIdle) ==>
              !started && Available(stream.script) == old(Available(stream.script))
    ensures error == Option.Some(DeadlinePartial) ==>
              started || |Available(stream.script)| < |old(Available(stream.script))|
    ensures left.polls <= patience.polls && left.cancelAt == patience.cancelAt
    ensures error.None? ==> Uncancelled(patience, left)
    ensures |Available(stream.script)| <= |old(Available(stream.script))|
  {
    var offset := 0;
    left := patience;
    ghost var ahead := Available(stream.script);
    while offset < buffer.Length
      invariant 0 <= offset <= buffer.Length && Progress(stream, buffer, offset, ahead)
      invariant left.polls <= patience.polls && left.cancelAt == patience.cancelAt && Uncancelled(patience, left)
      invariant patience.polls + Size(stream.script) <= left.polls + old(Size(stream.script))
      decreases Size(stream.script)
    {
      var n;
      error, n, left := PollOnce(stream, buffer, offset, ahead, left, started);
      offset := offset + n;
      if error.Some? {
        return;
      }
    }
    Filled(stream, buffer, ahead);
    error := None;
  }

  method ReadBytesUntil(stream: Socketlike, n: nat, patience: Patience, started: bool)
    returns (error: Option<ReadError>, bytes: Bytes, left: Patience)
    modifies stream
    ensures error.None? ==> |bytes| == n && bytes + Available(stream.script) == old(Available(stream.script))
    ensures error.Some? ==> CausedUntil(error.value, stream.script, left)
    ensures error.None? || error.value in {DeadlineIdle, DeadlinePartial} ==>
              patience.polls + Size(stream.script) <= left.polls + old(Size(stream.script))
    ensures error == Option.Some(UnexpectedEof) || error == Option.Some(Socket) ==>
              |old(Available(stream.script))| < n
    ensures error == Option.Some(DeadlineIdle) ==>
              !started && Available(stream.script) == old(Available(stream.script))
    ensures error == Option.Some(DeadlinePartial) ==>
              started || |Available(stream.script)| < |old(Available(stream.script))|
    ensures left.polls <= patience.polls && left.cancelAt == patience.cancelAt
    ensures error.None? ==> Uncancelled(patience, left)
    ensures |Available(stream.script)| <= |old(Available(stream.script))|
  {
    var buffer := new Byte[n];
    error, left := ReadExactUntil(stream, buffer, patience, started);
    bytes := buffer[..];
  }

  /**
   * read_frame_cancellable: decodes the same bytes to the same result as read_frame, whatever timeouts it met,
   * and reports an idle deadline only when no byte of a frame was taken from the stream. With more polls than the
   * stream has reads and bytes, no deadline is reported.
   */
  method ReadFrameCancellable(stream: Socketlike, patience: Patience)
    returns (r: Result<Bytes, ReadError>, ghost left: Patience)
    modifies stream
    ensures r.Ok? || r.error.Oversized? ==> left.cancelAt == patience.cancelAt && Uncancelled(patience, left)
    ensures r.Ok? ==> ParseFrame(old(Available(stream.script))) == Frame(r.value, Available(stream.script))
    ensures r == Err(Oversized) ==> ParseFrame(old(Available(stream.script))) == TooLarge
    ensures r == Err(UnexpectedEof) || r == Err(Socket) ==> ParseFrame(old(Available(stream.script))) == Incomplete
    ensures r == Err(DeadlineIdle) ==> Available(stream.script) == old(Available(stream.script))
    ensures r == Err(DeadlinePartial) ==> |Available(stream.script)| < |old(Available(stream.script))|
    ensures r == Err(DeadlineIdle) || r == Err(DeadlinePartial) ==> patience.polls <= old(Size(stream.script))
    ensures r == Err(Cancelled) ==> patience.cancelAt.Some?
    ensures (r == Err(UnexpectedEof) ==> AtEnd(stream.script)) && (r == Err(Socket) ==> AtFailure(stream.script))
    ensures r.Err? ==> r.error in {UnexpectedEof, Cancelled, DeadlineIdle, DeadlinePartial, Socket, Oversized}
  {
    var error, first, after := ReadBytesUntil(stream, 1, patience, false);
    left := after;
    if error.Some? {
      return Err(error.value), left;
    }
    assert first == [first[0]];
    var more;
    error, more, after := ReadBytesUntil(stream, HeaderLength(first[0]) - 1, after, true);
    left := after;
    if error.Some? {
      return Err(error.value), left;
    }
    ghost var body := Available(stream.script);
    ParseFromParts(first[0], more, body);
    var len := DecodeLength([first[0]] + more);
    if len > MAX_FRAME_SIZE {
      return Err(Oversized), left;
    }
    var payload;
    error, payload, after := ReadBytesUntil(stream, len, after, true);
    left := after;
    if error.Some? {
      return Err(error.value), left;
    }
    assert body[..len] == payload && body[len..] == Available(stream.script);
    r := Ok(payload);
  }

  // ---------------------------------------------------------------- the channel's receive buffer

  const READ_CHUNK: nat := 8192

  /** The channel's buffering reader. It alone owns the buffer, which survives timeouts and failed calls. */
  class FrameBuffer {
    var rxBuffer: Bytes
    ghost var received: Bytes            // every byte read from the socket so far
    ghost var taken: seq<Bytes>          // every frame taken out of the buffer so far

    /** What was taken and what is still buffered is exactly what was received. */
    ghost predicate Valid()
      reads this
    {
      var rest := ParseAll(rxBuffer);
      ParseAll(received) == Frames(taken + rest.payloads, rest.left, rest.bad)
    }

    constructor ()
      ensures Valid() && rxBuffer == [] && received == [] && taken == []
    {
      rxBuffer := [];
      received := [];
      taken := [];
    }

    /** try_take_frame: the frame at the front of the buffer, removed; or nothing, and no change. */
    method TryTakeFrame() returns (r: Result<Option<Bytes>, ReadError>)
      requires Valid()
      modifies this
      ensures Valid() && received == old(received)
      ensures match ParseFrame(old(rxBuffer))
              case Incomplete => r == Ok(None) && rxBuffer == old(rxBuffer) && taken == old(taken)
              case TooLarge => r == Err(Oversized) && rxBuffer == old(rxBuffer) && taken == old(taken)
              case Frame(payload, rest) =>
                r == Ok(Option.Some(payload)) && rxBuffer == rest && taken == old(taken) + [payload]
    {
      if rxBuffer == [] {
        return Ok(None);
      }
      var head := HeaderLength(rxBuffer[0]);
      if |rxBuffer| < head {
        return Ok(None);
      }
      var len := DecodeLength(rxBuffer[..head]);
      if len > MAX_FRAME_SIZE {
        return Err(Oversized);
      }
      if |rxBuffer| < head + len {
        return Ok(None);
      }
      var payload := rxBuffer[head..head + len];
      ghost var before := ParseAll(rxBuffer);
      rxBuffer := rxBuffer[head + len..];
      taken := taken + [payload];
      assert before.payloads == [payload] + ParseAll(rxBuffer).payloads;
      assert old(taken) + ([payload] + ParseAll(rxBuffer).payloads) == taken + ParseAll(rxBuffer).payloads;
      r := Ok(Option.Some(payload));
    }

    /** Appends what a read delivered, once the buffer holds no whole frame. */
    method Receive(bytes: Bytes)
      requires Valid() && ParseFrame(rxBuffer) == Incomplete
      modifies this
      ensures Valid() && received == old(received) + bytes && taken == old(taken)
    {
      ParseAllConcat(received, bytes);
      assert ParseAll(rxBuffer) == Frames([], rxBuffer, false);
      assert taken + [] == taken;
      received := received + bytes;
      rxBuffer := rxBuffer + bytes;
    }

    /**
     * read_plain_frame_with_pump: takes one frame, reading as needed. Every outcome accounts for every byte: on any
     * read error nothing is taken, and only a failing pump drops a frame it had just taken. `pumpFailsAt` is the
     * number of pump calls that succeed before one fails; there is one after each of the reads that delivered
     * something, which are `arrivals`, and one for the frame.
     */
    method ReadFrameWithPump(stream: Socketlike, pumpFailsAt: Option<nat>)
      returns (r: Result<Bytes, ReadError>, ghost arrivals: nat)
      requires Valid()
      modifies this, stream
      ensures Valid()
      ensures received + Available(stream.script) == old(received + Available(stream.script))
      ensures r.Ok? ==> taken == old(taken) + [r.value]
      ensures r.Err? && r.error != PumpFailed ==> taken == old(taken)
      ensures arrivals <= |received| - |old(received)| <= 8192 * arrivals
      ensures r.Ok? && pumpFailsAt.Some? ==> arrivals < pumpFailsAt.value
      ensures r == Err(PumpFailed) ==>
                && pumpFailsAt.Some? && old(taken) <= taken
                && |taken| + arrivals == |old(taken)| + pumpFailsAt.value + 1 && |taken| <= |old(taken)| + 1
      ensures r == Err(Oversized) ==> ParseAll(received).bad
      ensures r.Err? && r.error != PumpFailed && r.error != Oversized ==>
                Caused(r.error, stream.script, old(Timeouts(stream.script)))
    {
      var pumps := 0;
      arrivals := 0;
      while true
        invariant Valid() && taken == old(taken)
        invariant pumps == arrivals && (pumpFailsAt.Some? ==> arrivals <= pumpFailsAt.value)
        invariant arrivals <= |received| - |old(received)| <= 8192 * arrivals
        invariant Timeouts(stream.script) == old(Timeouts(stream.script))
        invariant received + Available(stream.script) == old(received + Available(stream.script))
        decreases Size(stream.script)
      {
        var frame := TryTakeFrame();
        if frame.Err? {
          return Err(frame.error), arrivals;
        }
        if frame.value.Some? {
          if pumpFailsAt == Option.Some(pumps) {
            return Err(PumpFailed), arrivals;
          }
          return Ok(frame.value.value), arrivals;
        }
        var error, arrived := FillOnce(stream);
        if error.Some? {
          return Err(error.value), arrivals;
        }
        if arrived {
          arrivals := arrivals + 1;
          if pumpFailsAt == Option.Some(pumps) {
            return Err(PumpFailed), arrivals;
          }
          pumps := pumps + 1;
        }
      }
    }

    /** One read of up to a chunk into the buffer; an interrupted read delivers nothing and is no error. */
    method FillOnce(stream: Socketlike) returns (error: Option<ReadError>, arrived: bool)
      requires Valid() && ParseFrame(rxBuffer) == Incomplete
      modifies this, stream
      ensures Valid() && taken == old(taken)
      ensures received + Available(stream.script) == old(received + Available(stream.script))
      ensures error.None? ==> Size(stream.script) < old(Size(stream.script))
      ensures error.Some? ==> received == old(received) && !arrived
      ensures if arrived then 1 <= |received| - |old(received)| <= 8192 else received == old(received)
      ensures error.Some? ==> Caused(error.value, stream.script, old(Timeouts(stream.script)))
      ensures error.None? ==> Timeouts(stream.script) == old(Timeouts(stream.script))
    {
      error, arrived := None, false;
      var got := stream.ReadSome(READ_CHUNK);
      if got.Some? {
        Associate(received, got.bytes, Available(stream.script));
        Receive(got.bytes);
        arrived := true;
      } else if got.Late? {
        error := Option.Some(Timeout);
      } else if got.End? {
        error := Option.Some(UnexpectedEof);
      } else if got.Failure? {
        error := Option.Some(Socket);
      }
    }
  }
}
