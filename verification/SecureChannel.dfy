/** Nonces of the secure channel: consecutive on the sending side, searched for on the receiving side. */
module SecureChannel {
  import opened Prelude
  import opened WireFormat

  const WORD: nat := U64_MAX + 1
  const MAX_NONCE_RECOVERY_SKIP: nat := 4096
  const MAX_DECRYPT_RESYNC_FRAMES: nat := 8

  /** An ideal cipher: a sealed frame opens only under its own key and nonce; junk opens under none. */
  datatype Cipher = Sealed(key: nat, nonce: nat, plain: Bytes) | Junk(bytes: Bytes)

  function Open(c: Cipher, key: nat, nonce: nat): Option<Bytes> {
    if c.Sealed? && c.key == key && c.nonce == nonce then Some(c.plain) else None
  }

  /** How far ahead of `from` a nonce lies, on the u64 circle. */
  function Ahead(from: nat, nonce: nat): nat
    requires from < WORD && nonce < WORD
  {
    (nonce + WORD - from) % WORD
  }

  /** Whether a receiver whose last nonce was `rx` opens the frame. */
  predicate Opens(rx: nat, key: nat, c: Cipher)
    requires rx < WORD
  {
    c.Sealed? && c.key == key && c.nonce < WORD && 1 <= Ahead(rx, c.nonce) <= MAX_NONCE_RECOVERY_SKIP
  }

  datatype RecvError = ResyncLimit | ReadFailed

  /** One recv over the frames that will arrive: its result, the new nonce and how many frames it consumed. */
  datatype Received = Received(result: Result<Bytes, RecvError>, rx: nat, consumed: nat)

  function Recv(rx: nat, key: nat, frames: seq<Cipher>, dropped: nat): Received
    requires rx < WORD
    decreases |frames|
  {
    if frames == [] then Received(Err(ReadFailed), rx, 0)
    else if Opens(rx, key, frames[0]) then Received(Ok(frames[0].plain), frames[0].nonce, 1)
    else if dropped >= MAX_DECRYPT_RESYNC_FRAMES then Received(Err(ResyncLimit), rx, 1)
    else
      var more := Recv(rx, key, frames[1..], dropped + 1);
      more.(consumed := more.consumed + 1)
  }

  /** Both ends of the channel. After the hand-over all sends go through the streaming writer's own counter. */
  class CryptoChannel {
    const txKey: nat
    const rxKey: nat
    var txNonce: nat
    var writerNonce: Option<nat>
    var rxNonce: nat
    ghost var written: seq<Cipher>    // frames whose socket write succeeded

    /** Successful frames carry nonces 1, 2, 3, ... whichever owner wrote them. */
    ghost predicate Valid()
      reads this
    {
      && rxNonce < WORD && txNonce < WORD
      && (writerNonce.Some? ==> writerNonce.value < WORD)
      && Consecutive(written, txKey)
      && |written| % WORD == if writerNonce.Some? then writerNonce.value else txNonce
    }

    constructor (tx: nat, rx: nat)
      ensures Valid() && written == [] && rxNonce == 0 && writerNonce == None && txKey == tx && rxKey == rx
    {
      txKey := tx;
      rxKey := rx;
      txNonce := 0;
      rxNonce := 0;
      writerNonce := None;
      written := [];
    }

    /** send_direct; `wrote` says whether encryption and the socket write succeeded. */
    method SendDirect(plain: Bytes, wrote: bool)
      requires Valid() && writerNonce.None?
      modifies this`txNonce, this`written
      ensures Valid()
      ensures written == if wrote then old(written) + [Sealed(txKey, (|old(written)| + 1) % WORD, plain)]
                         else old(written)
      ensures !wrote ==> txNonce == old(txNonce)
    {
      var next := (txNonce + 1) % WORD;
      if wrote {
        NextNonce(|written|);
        txNonce := next;
        written := written + [Sealed(txKey, next, plain)];
      }
    }

    /** start_streaming_writer: the writer continues from the nonce reached so far. Starting twice changes nothing. */
    method StartStreamingWriter()
      requires Valid()
      modifies this`writerNonce
      ensures Valid() && writerNonce.Some? && written == old(written)
      ensures old(writerNonce).Some? ==> writerNonce == old(writerNonce)
    {
      if writerNonce.None? {
        writerNonce := Some(txNonce);
      }
    }

    /** CryptoWriter::send, in the writer thread. */
    method WriterSend(plain: Bytes, wrote: bool)
      requires Valid() && writerNonce.Some?
      modifies this`writerNonce, this`written
      ensures Valid() && writerNonce.Some?
      ensures written == if wrote then old(written) + [Sealed(txKey, (|old(written)| + 1) % WORD, plain)]
                         else old(written)
      ensures !wrote ==> writerNonce == old(writerNonce)
    {
      var next := (writerNonce.value + 1) % WORD;
      if wrote {
        NextNonce(|written|);
        writerNonce := Some(next);
        written := written + [Sealed(txKey, next, plain)];
      }
    }

    /** try_decrypt: searches the next 4096 nonces, nearest first. */
    method TryDecrypt(c: Cipher) returns (plain: Option<Bytes>)
      requires rxNonce < WORD
      modifies this`rxNonce
      ensures rxNonce < WORD
      ensures plain.Some? <==> Opens(old(rxNonce), rxKey, c)
      ensures if plain.Some? then plain.value == c.plain && rxNonce == c.nonce else rxNonce == old(rxNonce)
    {
      var skip := 1;
      while skip <= MAX_NONCE_RECOVERY_SKIP
        invariant 1 <= skip <= MAX_NONCE_RECOVERY_SKIP + 1 && rxNonce == old(rxNonce)
        invariant Opens(rxNonce, rxKey, c) ==> skip <= Ahead(rxNonce, c.nonce)
      {
        var candidate := (rxNonce + skip) % WORD;
        AheadOfSkip(rxNonce, skip);
        var unsealed := Open(c, rxKey, candidate);
        if unsealed.Some? {
          rxNonce := candidate;
          return unsealed;
        }
        if Opens(rxNonce, rxKey, c) && Ahead(rxNonce, c.nonce) == skip {
          SkipOfAhead(rxNonce, c.nonce);
        }
        skip := skip + 1;
      }
      plain := None;
    }

    /** recv: the next frame that opens, past at most eight that do not. The read fails when frames run out. */
    method RecvFrame(frames: seq<Cipher>) returns (result: Result<Bytes, RecvError>, consumed: nat)
      requires rxNonce < WORD
      modifies this`rxNonce
      ensures rxNonce < WORD
      ensures Received(result, rxNonce, consumed) == Recv(old(rxNonce), rxKey, frames, 0)
      ensures consumed <= |frames| && consumed <= MAX_DECRYPT_RESYNC_FRAMES + 1
    {
      var dropped := 0;
      while true
        invariant dropped <= MAX_DECRYPT_RESYNC_FRAMES && dropped <= |frames|
        invariant rxNonce == old(rxNonce)
        invariant var rest := Recv(rxNonce, rxKey, frames[dropped..], dropped);
                  rest.(consumed := rest.consumed + dropped) == Recv(old(rxNonce), rxKey, frames, 0)
        decreases |frames| - dropped
      {
        if dropped == |frames| {
          return Err(ReadFailed), dropped;
        }
        var plain := TryDecrypt(frames[dropped]);
        if plain.Some? {
          return Ok(plain.value), dropped + 1;
        }
        if dropped >= MAX_DECRYPT_RESYNC_FRAMES {
          return Err(ResyncLimit), dropped + 1;
        }
        assert frames[dropped..][1..] == frames[dropped + 1..];
        dropped := dropped + 1;
      }
    }
  }

  ghost predicate Consecutive(frames: seq<Cipher>, key: nat) {
    forall i | 0 <= i < |frames| ::
      frames[i].Sealed? && frames[i].key == key && frames[i].nonce == (i + 1) % WORD
  }

  lemma {:induction false} NextNonce(n: nat)
    ensures (n % WORD + 1) % WORD == (n + 1) % WORD
  {
  }

  lemma {:induction false} AheadOfSkip(rx: nat, skip: nat)
    requires rx < WORD && 1 <= skip <= MAX_NONCE_RECOVERY_SKIP
    ensures Ahead(rx, (rx + skip) % WORD) == skip
  {
  }

  lemma {:induction false} SkipOfAhead(rx: nat, nonce: nat)
    requires rx < WORD && nonce < WORD
    ensures (rx + Ahead(rx, nonce)) % WORD == nonce
  {
  }

  // ---------------------------------------------------------------- the receiver over a whole stream

  /** Away from the end of the nonce space, a frame opens exactly when it is 1 to 4096 ahead. */
  lemma {:induction false} OpensExactly(rx: nat, key: nat, c: Cipher)
    requires rx + 4096 < WORD
    requires c.Sealed? && c.key == key && c.nonce < WORD
    ensures Opens(rx, key, c) <==> rx < c.nonce <= rx + 4096
  {
  }

  lemma {:induction false} RecvConsumes(rx: nat, key: nat, frames: seq<Cipher>, dropped: nat)
    requires rx < WORD && dropped <= MAX_DECRYPT_RESYNC_FRAMES
    ensures var r := Recv(rx, key, frames, dropped);
            && r.rx < WORD && r.consumed <= |frames| && r.consumed + dropped <= MAX_DECRYPT_RESYNC_FRAMES + 1
            && (r.result == Err(ReadFailed) || 0 < r.consumed)
            && (r.result.Ok? ==>
                  0 < r.consumed && Opens(rx, key, frames[r.consumed - 1]) &&
                  frames[r.consumed - 1].plain == r.result.value && frames[r.consumed - 1].nonce == r.rx)
            && (r.result.Err? ==> r.rx == rx)
    decreases |frames|
  {
    if frames != [] && !Opens(rx, key, frames[0]) && dropped < MAX_DECRYPT_RESYNC_FRAMES {
      RecvConsumes(rx, key, frames[1..], dropped + 1);
    }
  }

  /**
   * What the calls of a receiver return until the frames run out, when it is called again after every frame and after
   * every resync limit; the first call starts with `dropped` frames already passed over.
   */
  function RecvAll(rx: nat, key: nat, frames: seq<Cipher>, dropped: nat): seq<Result<Bytes, RecvError>>
    requires rx < WORD && dropped <= MAX_DECRYPT_RESYNC_FRAMES
    decreases |frames|
  {
    RecvConsumes(rx, key, frames, dropped);
    var r := Recv(rx, key, frames, dropped);
    if r.result == Err(ReadFailed) then [] else [r.result] + RecvAll(r.rx, key, frames[r.consumed..], 0)
  }

  /** One frame at a time: what the first frame of a stream does to the calls. */
  lemma {:induction false} RecvAllStep(rx: nat, key: nat, frames: seq<Cipher>, dropped: nat)
    requires rx < WORD && dropped <= MAX_DECRYPT_RESYNC_FRAMES && frames != []
    ensures RecvAll(rx, key, frames, dropped) ==
            if Opens(rx, key, frames[0]) then [Ok(frames[0].plain)] + RecvAll(frames[0].nonce, key, frames[1..], 0)
            else if dropped < MAX_DECRYPT_RESYNC_FRAMES then RecvAll(rx, key, frames[1..], dropped + 1)
            else [Err(ResyncLimit)] + RecvAll(rx, key, frames[1..], 0)
  {
    if !Opens(rx, key, frames[0]) && dropped < MAX_DECRYPT_RESYNC_FRAMES {
      RecvConsumes(rx, key, frames[1..], dropped + 1);
      var more := Recv(rx, key, frames[1..], dropped + 1);
      assert frames[1..][more.consumed..] == frames[more.consumed + 1..];
    }
  }

  /** The frames that open, when each is tried at the nonce the last opened one left. */
  function Delivered(rx: nat, key: nat, frames: seq<Cipher>): (out: seq<Cipher>)
    requires rx < WORD
    ensures forall i | 0 <= i < |out| :: out[i].Sealed?
    decreases |frames|
  {
    if frames == [] then []
    else if Opens(rx, key, frames[0]) then [frames[0]] + Delivered(frames[0].nonce, key, frames[1..])
    else Delivered(rx, key, frames[1..])
  }

  function Plaintexts(frames: seq<Cipher>): seq<Bytes>
    requires forall i | 0 <= i < |frames| :: frames[i].Sealed?
  {
    if frames == [] then [] else [frames[0].plain] + Plaintexts(frames[1..])
  }

  function Values(results: seq<Result<Bytes, RecvError>>): seq<Bytes> {
    if results == [] then []
    else (if results[0].Ok? then [results[0].value] else []) + Values(results[1..])
  }

  /** The limit of eight frames per call only ends a call: it neither loses nor adds a frame that opens. */
  lemma {:induction false} CallsDeliver(rx: nat, key: nat, frames: seq<Cipher>, dropped: nat)
    requires rx < WORD && dropped <= MAX_DECRYPT_RESYNC_FRAMES
    ensures Values(RecvAll(rx, key, frames, dropped)) == Plaintexts(Delivered(rx, key, frames))
    decreases |frames|
  {
    if frames != [] {
      RecvAllStep(rx, key, frames, dropped);
      if Opens(rx, key, frames[0]) {
        CallsDeliver(frames[0].nonce, key, frames[1..], 0);
      } else if dropped < MAX_DECRYPT_RESYNC_FRAMES {
        CallsDeliver(rx, key, frames[1..], dropped + 1);
      } else {
        CallsDeliver(rx, key, frames[1..], 0);
      }
    }
  }

  // ---------------------------------------------------------------- from the sender to the receiver

  /** A frame as it arrives: one written and not yet passed, a repeat of an earlier one, or one of another key. */
  datatype Arrival = Next(at: nat) | Repeat(at: nat) | Foreign(frame: Cipher)

  /**
   * Everything before `start` was received or given up. Fewer than 4096 written frames are missing before each one
   * that arrives, and at most eight frames in a row are repeats or foreign.
   */
  ghost predicate Paced(written: seq<Cipher>, key: nat, start: nat, dropped: nat, arrivals: seq<Arrival>)
    decreases |arrivals|
  {
    arrivals != [] ==>
      match arrivals[0]
      case Next(at) =>
        && start <= at < |written| && at - start < MAX_NONCE_RECOVERY_SKIP
        && Paced(written, key, at + 1, 0, arrivals[1..])
      case Repeat(at) =>
        && at < start && at < |written| && start - at - 1 + MAX_NONCE_RECOVERY_SKIP < WORD
        && dropped < MAX_DECRYPT_RESYNC_FRAMES && Paced(written, key, start, dropped + 1, arrivals[1..])
      case Foreign(c) =>
        && !(c.Sealed? && c.key == key)
        && dropped < MAX_DECRYPT_RESYNC_FRAMES && Paced(written, key, start, dropped + 1, arrivals[1..])
  }

  function Frames(written: seq<Cipher>, arrivals: seq<Arrival>): (frames: seq<Cipher>)
    requires forall a :: a in arrivals && !a.Foreign? ==> a.at < |written|
    ensures |frames| == |arrivals|
  {
    if arrivals == [] then []
    else
      [if arrivals[0].Foreign? then arrivals[0].frame else written[arrivals[0].at]] + Frames(written, arrivals[1..])
  }

  /** What the sender passed in for the frames that arrive and are new. */
  function Sent(written: seq<Cipher>, arrivals: seq<Arrival>): seq<Result<Bytes, RecvError>>
    requires forall i | 0 <= i < |written| :: written[i].Sealed?
    requires forall a :: a in arrivals && !a.Foreign? ==> a.at < |written|
  {
    if arrivals == [] then []
    else (if arrivals[0].Next? then [Ok(written[arrivals[0].at].plain)] else []) + Sent(written, arrivals[1..])
  }

  lemma {:induction false} PacedInRange(written: seq<Cipher>, key: nat, start: nat, dropped: nat,
                                        arrivals: seq<Arrival>)
    requires Paced(written, key, start, dropped, arrivals)
    ensures forall a :: a in arrivals && !a.Foreign? ==> a.at < |written|
    decreases |arrivals|
  {
    if arrivals != [] {
      var next := if arrivals[0].Next? then arrivals[0].at + 1 else start;
      PacedInRange(written, key, next, if arrivals[0].Next? then 0 else dropped + 1, arrivals[1..]);
    }
  }

  lemma {:induction false} AheadOnCircle(start: nat, at: nat)
    requires start <= at && at - start < MAX_NONCE_RECOVERY_SKIP
    ensures Ahead(start % WORD, (at + 1) % WORD) == at + 1 - start
  {
    CircleStep(start, at + 1 - start);
    AheadOfSkip(start % WORD, at + 1 - start);
  }

  lemma {:induction false} CircleStep(start: nat, step: nat)
    ensures (start % WORD + step) % WORD == (start + step) % WORD
  {
  }

  lemma {:induction false} BehindOnCircle(start: nat, at: nat)
    requires at < start && start - at - 1 + MAX_NONCE_RECOVERY_SKIP < WORD
    ensures !(1 <= Ahead(start % WORD, (at + 1) % WORD) <= MAX_NONCE_RECOVERY_SKIP)
  {
    var ahead := Ahead(start % WORD, (at + 1) % WORD);
    if 1 <= ahead <= MAX_NONCE_RECOVERY_SKIP {
      SkipOfAhead(start % WORD, (at + 1) % WORD);
      CircleStep(start, ahead);
      SameOnCircle(at + 1, start + ahead);
    }
  }

  lemma {:induction false} SameOnCircle(a: nat, b: nat)
    requires a < b < a + WORD
    ensures a % WORD != b % WORD
  {
  }

  lemma {:induction false} NextOpens(written: seq<Cipher>, key: nat, start: nat, at: nat)
    requires Consecutive(written, key) && start <= at < |written| && at - start < MAX_NONCE_RECOVERY_SKIP
    ensures Opens(start % WORD, key, written[at]) && written[at].nonce == (at + 1) % WORD
  {
    AheadOnCircle(start, at);
  }

  lemma {:induction false} RepeatStaysShut(written: seq<Cipher>, key: nat, start: nat, at: nat)
    requires Consecutive(written, key) && at < start && at < |written|
    requires start - at - 1 + MAX_NONCE_RECOVERY_SKIP < WORD
    ensures !Opens(start % WORD, key, written[at])
  {
    BehindOnCircle(start, at);
  }

  /** One arrival: the call returns it and starts over behind it, or passes over it. */
  lemma {:induction false} ArrivalStep(written: seq<Cipher>, key: nat, start: nat, dropped: nat,
                                       arrivals: seq<Arrival>)
    requires Consecutive(written, key) && arrivals != [] && Paced(written, key, start, dropped, arrivals)
    requires dropped <= MAX_DECRYPT_RESYNC_FRAMES
    requires forall a :: a in arrivals && !a.Foreign? ==> a.at < |written|
    ensures var calls := RecvAll(start % WORD, key, Frames(written, arrivals), dropped);
            var rest := Frames(written, arrivals[1..]);
            if arrivals[0].Next? then
              calls == [Ok(written[arrivals[0].at].plain)] + RecvAll((arrivals[0].at + 1) % WORD, key, rest, 0)
            else
              dropped < MAX_DECRYPT_RESYNC_FRAMES && calls == RecvAll(start % WORD, key, rest, dropped + 1)
  {
    var frames := Frames(written, arrivals);
    assert frames[1..] == Frames(written, arrivals[1..]);
    RecvAllStep(start % WORD, key, frames, dropped);
    match arrivals[0]
    case Next(at) => NextOpens(written, key, start, at);
    case Repeat(at) => RepeatStaysShut(written, key, start, at);
    case Foreign(c) =>
  }

  /**
   * From the sender to the receiver, for as many frames as are ever written: whatever arrives in order within these
   * limits is returned completely, in order, and no call fails before the frames run out.
   */
  lemma {:induction false} InOrderDelivery(written: seq<Cipher>, key: nat, start: nat, dropped: nat,
                                           arrivals: seq<Arrival>)
    requires Consecutive(written, key) && Paced(written, key, start, dropped, arrivals)
    requires dropped <= MAX_DECRYPT_RESYNC_FRAMES
    ensures forall a :: a in arrivals && !a.Foreign? ==> a.at < |written|
    ensures RecvAll(start % WORD, key, Frames(written, arrivals), dropped) == Sent(written, arrivals)
    decreases |arrivals|
  {
    PacedInRange(written, key, start, dropped, arrivals);
    if arrivals != [] {
      ArrivalStep(written, key, start, dropped, arrivals);
      if arrivals[0].Next? {
        InOrderDelivery(written, key, arrivals[0].at + 1, 0, arrivals[1..]);
      } else {
        InOrderDelivery(written, key, start, dropped + 1, arrivals[1..]);
      }
    }
  }

  // ---------------------------------------------------------------- replays

  /** Whatever is sealed under the key was written by its sender; the rest may be anything. */
  ghost predicate Genuine(frames: seq<Cipher>, key: nat, written: seq<Cipher>) {
    forall c :: c in frames && c.Sealed? && c.key == key ==> c in written
  }

  ghost predicate Distinct(frames: seq<Cipher>) {
    forall i, j | 0 <= i < j < |frames| :: frames[i] != frames[j]
  }

  /** A stream of genuine frames from which a fresh receiver returns some frame twice. */
  ghost predicate Replayed(key: nat, written: seq<Cipher>, frames: seq<Cipher>) {
    Genuine(frames, key, written) && !Distinct(Delivered(0, key, frames))
  }

  /**
   * Whatever the network does with the sender's frames (replays, reorders, drops, junk), each returned frame was
   * sealed after the one returned before it, so none is returned twice.
   */
  lemma {:induction false} NoReplay(rx: nat, key: nat, frames: seq<Cipher>, written: seq<Cipher>)
    requires Consecutive(written, key) && |written| + MAX_NONCE_RECOVERY_SKIP <= WORD
    requires rx <= |written| && Genuine(frames, key, written)
    ensures forall i | 0 <= i < |Delivered(rx, key, frames)| :: rx < Delivered(rx, key, frames)[i].nonce
    ensures forall i, j | 0 <= i < j < |Delivered(rx, key, frames)| ::
              Delivered(rx, key, frames)[i].nonce < Delivered(rx, key, frames)[j].nonce
    ensures forall c :: c in Delivered(rx, key, frames) ==> c in frames && c in written
    decreases |frames|
  {
    if frames != [] {
      var c := frames[0];
      if Opens(rx, key, c) {
        assert c in frames;
        assert c in written && 1 <= c.nonce <= |written|;
        NoReplay(c.nonce, key, frames[1..], written);
      } else {
        NoReplay(rx, key, frames[1..], written);
      }
    }
  }

  /** An unbroken stretch of what was written is delivered, and then the rest of the stream from there. */
  lemma {:induction false} StretchDelivered(key: nat, written: seq<Cipher>, from: nat, to: nat, rest: seq<Cipher>)
    requires Consecutive(written, key) && from <= to <= |written|
    ensures Delivered(from % WORD, key, written[from..to] + rest) ==
            written[from..to] + Delivered(to % WORD, key, rest)
    decreases if from <= to then to - from else 0
  {
    var frames := written[from..to] + rest;
    if from == to {
      assert frames == rest;
    } else {
      AheadOnCircle(from, from);
      assert frames[0] == written[from];
      assert frames[1..] == written[from + 1..to] + rest;
      assert written[from..to] == [written[from]] + written[from + 1..to];
      StretchDelivered(key, written, from + 1, to, rest);
      Associate([written[from]], written[from + 1..to], Delivered(to % WORD, key, rest));
    }
  }

  /** Near the end of the nonce space the search wraps: the very first frame opens again. */
  lemma {:induction false} WrappedSearchReplays(rx: nat, key: nat, plain: Bytes)
    requires rx < WORD
    ensures rx > 1 ==> (Opens(rx, key, Sealed(key, 1, plain)) <==> rx + 4096 > WORD)
  {
  }

  /** Exactly when no frame can be returned twice: for as long as fewer than 2^64 - 4095 frames were written. */
  lemma {:induction false} NoReplayExactly(key: nat, written: seq<Cipher>)
    requires Consecutive(written, key)
    ensures (forall frames :: !Replayed(key, written, frames)) <==> |written| + 4096 <= WORD
  {
    if |written| + MAX_NONCE_RECOVERY_SKIP <= WORD {
      forall frames ensures !Replayed(key, written, frames) {
        if Genuine(frames, key, written) {
          NoReplay(0, key, frames, written);
        }
      }
    } else {
      var last := WORD - MAX_NONCE_RECOVERY_SKIP + 1;
      var again := [written[0]];
      StretchDelivered(key, written, 0, last, again);
      WrappedSearchReplays(last, key, written[0].plain);
      assert Delivered(last, key, again) == again;
      var out := Delivered(0, key, written[0..last] + again);
      assert out[0] == written[0] && out[last] == written[0];
      assert Replayed(key, written, written[0..last] + again);
    }
  }

  // ---------------------------------------------------------------- gaps

  /** Once 4096 or more frames in a row are lost, nothing the sender writes afterwards is ever received. */
  lemma {:induction false} LargeGapIsFinal(rx: nat, key: nat, frames: seq<Cipher>)
    requires rx + 4096 < WORD
    requires forall c :: c in frames && c.Sealed? && c.key == key ==>
               rx + 4096 < c.nonce < WORD
    ensures Delivered(rx, key, frames) == []
  {
    if frames != [] {
      assert frames[0] in frames;
      LargeGapIsFinal(rx, key, frames[1..]);
    }
  }
}
