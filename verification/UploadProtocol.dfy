/** Streaming upload: no block before the peer confirms, every byte exactly once, and what an acknowledgement means. */
module UploadProtocol {
  import opened Prelude
  import opened WireFormat
  import opened UploadLog

  predicate InvalidFileName(name: string) {
    name == "" || name == "." || name == ".."
  }

  /** What a finished upload says about its source: still the same file, with no more blocks than a u32 counts. */
  predicate Whole(content: Bytes, sameSource: bool) {
    sameSource && |content| <= 0x1_0000_0000 * 65536
  }

  predicate AboutSource(e: UploadError) {
    e in {InvalidName, SourceShortened, BlockRange, SourceChanged}
  }

  /** What an error about the source is due to; `sizes` are the sizes its reads return. */
  predicate SourceDueTo(e: UploadError, name: string, content: Bytes, sameSource: bool, sizes: seq<nat>) {
    match e
    case InvalidName => InvalidFileName(name)
    case SourceShortened => 0 in sizes
    case BlockRange => |content| > 0x1_0000_0000 * 65536
    case SourceChanged => !sameSource
    case _ => false
  }

  /** One upload: the job, the file channel and the record of what passed over it. */
  class Upload {
    const id: int
    var events: seq<Event>      // what the peer and the socket will do
    var writable: nat           // sends that will succeed before the socket fails
    var patience: nat           // job checks that will pass before a cancel or a deadline
    var readSizes: seq<nat>     // how many bytes each read of the source returns at most; full reads after that
    var log: seq<Act>
    var remoteWriteStarted: bool
    var repliesPending: bool
    var acknowledged: bool

    constructor (id: int, events: seq<Event>, writable: nat, patience: nat, readSizes: seq<nat>)
      ensures this.id == id && log == [] && !acknowledged && !remoteWriteStarted && !repliesPending
    {
      this.id := id;
      this.events := events;
      this.writable := writable;
      this.patience := patience;
      this.readSizes := readSizes;
      log := [];
      remoteWriteStarted := false;
      repliesPending := false;
      acknowledged := false;
    }

    method CheckJob() returns (error: Option<UploadError>)
      modifies this`patience
      ensures error.None? || (error == Some(Stopped) && patience == 0)
      ensures if error.None? then patience + 1 == old(patience) else patience == old(patience)
    {
      if patience == 0 {
        return Some(Stopped);
      }
      patience := patience - 1;
      error := None;
    }

    method Send(m: Sent) returns (error: Option<UploadError>)
      modifies this`writable, this`log
      ensures error.None? ==> log == old(log) + [Out(m)]
      ensures error.Some? ==> error.value == Socket && writable == 0 && log == old(log)
    {
      if writable == 0 {
        return Some(Socket);
      }
      writable := writable - 1;
      log := log + [Out(m)];
      error := None;
    }

    /** The next event; a script that ran out reads as a clean end of stream. */
    method Receive() returns (e: Event)
      modifies this`events, this`log
      ensures log == old(log) + [In(e)]
      ensures old(events) == [] ==> e == Eof(false) && events == []
      ensures old(events) != [] ==> e == old(events)[0] && events == old(events)[1..]
    {
      if events == [] {
        e := Eof(false);
      } else {
        e := events[0];
        events := events[1..];
      }
      log := log + [In(e)];
    }

    /** Answers a keep-alive probe. */
    method Answer(probe: nat) returns (error: Option<UploadError>)
      modifies this`writable, this`log
      ensures Silently(old(log), log) && Arrivals(log) == Arrivals(old(log))
      ensures error.Some? ==> error.value == Socket && writable == 0 && log == old(log)
      ensures error.None? ==> log == old(log) + [Out(Echo(probe))]
    {
      ghost var before := log;
      error := Send(Echo(probe));
      if error.None? {
        AppendAct(before, Out(Echo(probe)));
      }
    }

    /** What a failed read reports: the job's own error first. */
    method ReadFailed() returns (error: Option<UploadError>)
      modifies this`patience
      ensures error == Some(Socket) || (error == Some(Stopped) && patience == 0)
      ensures patience <= old(patience)
    {
      error := CheckJob();
      if error.None? {
        error := Some(Socket);
      }
    }

    /** What a wait reports that found too much buffered: the job's own error first. */
    method Overflowed() returns (error: Option<UploadError>)
      modifies this`patience
      ensures error == Some(InvalidData) || (error == Some(Stopped) && patience == 0)
      ensures patience <= old(patience)
    {
      error := CheckJob();
      if error.None? {
        error := Some(InvalidData);
      }
    }

    /** Whether an error is one that the record and the resources account for. */
    predicate Accounted(error: Option<UploadError>)
      reads this
    {
      error.Some? ==> DueTo(error.value, log, id, patience, writable)
    }

    /** How a drained control message ends the upload, if it does. */
    function Objection(m: PeerMsg): Option<UploadError> {
      match m
      case Malformed => Some(InvalidData)
      case PermissionOff => Some(PermissionDenied)
      case ErrorFor(e) => if e == id then Some(Rejected) else None
      case CancelFor(c) => if c == id then Some(Cancelled) else None
      case ConfirmFor(c, fileNum, skip, offset) =>
        if c == id && (skip || fileNum != 0 || offset != 0) then Some(ConfirmationChanged) else None
      case CloseReason => Some(PeerClosed)
      case _ => None
    }

    lemma {:induction false} ObjectionIsDue(m: PeerMsg, heard: seq<Act>, patience: nat, writable: nat)
      requires LastHeard(heard) == Some(m) && Objection(m).Some?
      ensures DueTo(Objection(m).value, heard, id, patience, writable)
    {
    }

    /** One drained message: an objection ends the drain, a probe is answered, anything else is passed over. */
    method HearDrained(msg: PeerMsg) returns (error: Option<UploadError>)
      requires LastHeard(log) == Some(msg)
      modifies this`log, this`writable
      ensures error.Some? ==> log == old(log)
      ensures error.None? ==>
                !Objects(msg, id) && log == old(log) + (if msg.TestDelay? then [Out(Echo(msg.probe))] else [])
      ensures Accounted(error)
    {
      error := Objection(msg);
      if error.Some? {
        ObjectionIsDue(msg, log, patience, writable);
      } else {
        NoObjection(msg);
        if msg.TestDelay? {
          error := Answer(msg.probe);
        }
      }
    }

    lemma {:induction false} NoObjection(m: PeerMsg)
      requires Objection(m).None?
      ensures !Objects(m, id)
    {
    }

    /** One frame of the drain, the `count`-th. */
    method DrainFrame(msg: PeerMsg, late: bool, count: nat, ghost before: seq<Act>)
      returns (error: Option<UploadError>)
      requires log == before + [In(Incoming(msg, late))] && Arrivals(before) + 1 >= count
      modifies this`log, this`writable
      ensures Drained(before, log, id, error.Some?) && Arrivals(log) == Arrivals(before) + 1
      ensures error.None? ==> count <= DRAIN_LIMIT
      ensures Accounted(error)
    {
      OneDrained(before, Incoming(msg, late), id, true);
      if late {
        return Some(TimedOut);
      }
      if count > DRAIN_LIMIT {
        return Some(InvalidData);
      }
      error := HearDrained(msg);
      if error.None? {
        PassedOver(before, msg, id);
      }
    }

    /** A drain's wait that brought no frame: `finished` when it found nothing and no part of a frame. */
    method DrainWait(e: Event, ghost before: seq<Act>) returns (error: Option<UploadError>, finished: bool)
      requires log == before + [In(e)] && !e.Incoming?
      modifies this`patience
      ensures Drained(before, log, id, error.Some?)
      ensures finished ==> error.None? && e.Quiet? && !e.partial
      ensures error.None? && !finished ==> e.Quiet?
      ensures patience <= old(patience) && (error.None? && e.Quiet? ==> patience < old(patience))
      ensures Accounted(error)
    {
      OneDrained(before, e, id, true);
      finished := false;
      match e {
        case Quiet(partial, late, _) =>
          error := CheckJob();
          if error.None? {
            if late {
              error := Some(TimedOut);
            } else {
              OneDrained(before, e, id, false);
              finished := !partial;
            }
          }
        case Eof(_) => error := ReadFailed();
        case Broken => error := ReadFailed();
        case Flooded => error := Overflowed();
      }
    }

    /** One round of the drain. */
    method DrainRound(received: nat) returns (error: Option<UploadError>, finished: bool, count: nat)
      requires received <= DRAIN_LIMIT && received <= Arrivals(log)
      modifies this`events, this`log, this`writable, this`patience
      ensures error.None? && !finished ==> |events| < |old(events)|
      ensures Drained(old(log), log, id, error.Some?)
      ensures received <= count <= received + 1 && Arrivals(log) == Arrivals(old(log)) + count - received
      ensures error.None? ==> count <= DRAIN_LIMIT
      ensures finished ==> log != [] && IsQuiet(log[|log| - 1])
      ensures patience <= old(patience) && (finished ==> patience < old(patience))
      ensures Accounted(error)
    {
      finished, count := false, received;
      ghost var before := log;
      var e := Receive();
      if e.Incoming? {
        count := received + 1;
        error := DrainFrame(e.msg, e.late, count, before);
      } else {
        OneArrives(before, e);
        error, finished := DrainWait(e, before);
      }
    }

    /**
     * drain_upload_control before completion: handles what has arrived, at most 256 frames, and answers probes.
     * It sends neither data nor completion, stops at the first objection, deadline or failure, and succeeds only when
     * the buffer holds no part of a frame.
     */
    method DrainControl() returns (error: Option<UploadError>)
      modifies this`events, this`log, this`writable, this`patience
      ensures Drained(old(log), log, id, error.Some?)
      ensures Arrivals(log) <= Arrivals(old(log)) + 257
      ensures error.None? ==> Arrivals(log) <= Arrivals(old(log)) + 256
      ensures error.None? ==> log != [] && IsQuiet(log[|log| - 1])
      ensures Accounted(error)
      ensures patience <= old(patience) && (error.None? ==> patience + 2 <= old(patience))
    {
      ghost var start := log;
      var received := 0;
      error := None;
      var finished := false;
      while !finished
        invariant error.None? && Drained(start, log, id, false)
        invariant received <= DRAIN_LIMIT && Arrivals(log) == Arrivals(start) + received
        invariant patience <= old(patience) && (finished ==> patience + 2 <= old(patience))
        invariant finished ==> log != [] && IsQuiet(log[|log| - 1])
        decreases !finished, |events|
      {
        error := CheckJob();
        if error.Some? {
          return;
        }
        ghost var before := log;
        error, finished, received := DrainRound(received);
        JoinDrained(start, before, log, id, error.Some?);
        if error.Some? {
          return;
        }
      }
    }

    /**
     * The wait for the peer's connection manager. It ends without error only after a message that allows data;
     * an existing target is refused unless overwriting, a skip or a resume offset always.
     */
    method AwaitConfirmation(overwrite: bool) returns (error: Option<UploadError>)
      modifies this`events, this`log, this`writable, this`patience
      ensures Quietly(old(log), log)
      ensures error.None? ==> exists c: nat :: Consented(old(log), log, c, id, overwrite)
      ensures error.Some? ==> Unconfirmed(old(log), log, id, overwrite)
      ensures if error == Some(AlreadyExists) then TargetExists(log, id, overwrite) else Accounted(error)
      ensures Unended(old(log), log, id, false, error.Some?)
      ensures patience <= old(patience)
    {
      ghost var start := log;
      while true
        invariant Silently(start, log) && Unended(start, log, id, false, false) && Undecided(start, log, id)
        invariant patience <= old(patience)
        decreases |events|
      {
        error := CheckJob();
        if error.Some? {
          return;
        }
        var decided;
        ghost var before := log;
        error, decided := ConfirmRound(overwrite, start);
        JoinUnended(start, before, log, id, false, error.Some?);
        if decided {
          return;
        }
      }
    }

    /** One round of that wait. */
    method ConfirmRound(overwrite: bool, ghost start: seq<Act>) returns (error: Option<UploadError>, decided: bool)
      requires Silently(start, log) && Undecided(start, log, id)
      modifies this`events, this`log, this`writable, this`patience
      ensures !decided ==> error.None? && |events| < |old(events)| && Silently(start, log) && Undecided(start, log, id)
      ensures Quietly(start, log)
      ensures decided && error.None? ==> Consented(start, log, |old(log)|, id, overwrite)
      ensures error.Some? ==> Unconfirmed(start, log, id, overwrite)
      ensures if error == Some(AlreadyExists) then TargetExists(log, id, overwrite) else Accounted(error)
      ensures Unended(old(log), log, id, false, error.Some?)
      ensures patience <= old(patience)
    {
      ghost var before := log;
      var e := Receive();
      if e.Incoming? && !e.late {
        error, decided := JudgeReply(e.msg, overwrite, start, before);
      } else {
        error, decided := ConfirmWait(e, start, before);
      }
    }

    /** A round that brought no message in time. */
    method ConfirmWait(e: Event, ghost start: seq<Act>, ghost before: seq<Act>)
      returns (error: Option<UploadError>, decided: bool)
      requires log == before + [In(e)] && (e.Incoming? ==> e.late)
      requires Silently(start, before) && Undecided(start, before, id)
      modifies this`patience
      ensures decided <==> error.Some?
      ensures !decided ==> e.Quiet? && Undecided(start, log, id)
      ensures Silently(start, log) && log[..|log| - 1] == before
      ensures error != Some(AlreadyExists) && Accounted(error)
      ensures Unended(before, log, id, false, decided)
      ensures patience <= old(patience)
    {
      StaysSilent(start, before, e);
      StaysUndecided(start, before, In(e), id);
      OneMore(before, In(e), id, false, true);
      decided := true;
      match e {
        case Incoming(_, _) => error := Some(TimedOut);
        case Quiet(_, late, silent) =>
          OneMore(before, In(e), id, false, false);
          decided := late || silent;
          error := if decided then Some(TimedOut) else None;
        case Eof(_) => error := ReadFailed();
        case Broken => error := ReadFailed();
        case Flooded => error := Overflowed();
      }
    }

    /** What one message means to the wait: an end of it, with an error or without, or nothing. */
    method JudgeReply(msg: PeerMsg, overwrite: bool, ghost start: seq<Act>, ghost before: seq<Act>)
      returns (error: Option<UploadError>, decided: bool)
      requires log == before + [In(Incoming(msg, false))] && Silently(start, before) && Undecided(start, before, id)
      modifies this`log, this`writable
      ensures Quietly(start, log)
      ensures !decided ==> error.None? && log == old(log) && !Decides(In(Incoming(msg, false)), id)
      ensures decided && error.None? ==> Consented(start, log, |before|, id, overwrite)
      ensures error.Some? ==> Unconfirmed(start, log, id, overwrite)
      ensures if error == Some(AlreadyExists) then TargetExists(log, id, overwrite) else Accounted(error)
      ensures Unended(before, log, id, false, error.Some?)
    {
      StaysSilent(start, before, Incoming(msg, false));
      StaysUndecided(start, before, In(Incoming(msg, false)), id);
      OneMore(before, In(Incoming(msg, false)), id, false, EndsTalk(In(Incoming(msg, false)), id));
      OneMore(before, In(Incoming(msg, false)), id, false, true);
      decided := true;
      if msg.Malformed? {
        error := Some(InvalidData);
      } else if msg.PermissionOff? {
        error := Some(PermissionDenied);
      } else if msg == ErrorFor(id) {
        error := Some(Rejected);
      } else if msg == DigestFor(id, 0) {
        error := AnswerDigest(overwrite, start, before);
      } else if msg.ConfirmFor? && msg.id == id && msg.fileNum == 0 {
        if msg.skip {
          error := Some(AlreadyExists);
        } else if msg.offset != 0 {
          error := Some(ResumeOffset);
        } else {
          error := None;
          MessageConsents(start, before, msg, id, overwrite);
          assert log + [] == log;
        }
      } else {
        error, decided := None, false;
      }
    }

    /** Any digest means an existing target: confirm it when overwriting, else refuse it and stop. */
    method AnswerDigest(overwrite: bool, ghost start: seq<Act>, ghost before: seq<Act>)
      returns (error: Option<UploadError>)
      requires log == before + [In(Incoming(DigestFor(id, 0), false))]
      requires Silently(start, before) && Undecided(start, before, id)
      modifies this`log, this`writable
      ensures Quietly(start, log)
      ensures error.None? ==> Consented(start, log, |before|, id, overwrite)
      ensures error.Some? ==> Unconfirmed(start, log, id, overwrite)
      ensures if error == Some(AlreadyExists) then TargetExists(log, id, overwrite) else Accounted(error)
      ensures Unended(before, log, id, false, error.Some?)
    {
      ghost var heard := log;
      StaysSilent(start, before, Incoming(DigestFor(id, 0), false));
      OneMore(before, heard[|before|], id, false, false);
      assert heard[..|before|] == before;
      error := Send(SendConfirm(id, !overwrite));
      if error.Some? {
        OneMore(before, heard[|before|], id, false, true);
        return;
      }
      OneMore(heard, Out(SendConfirm(id, !overwrite)), id, false, false);
      JoinUnended(before, heard, log, id, false, false);
      if overwrite {
        MessageConsents(start, before, DigestFor(id, 0), id, overwrite);
      } else {
        JoinUnended(before, heard, log, id, false, true);
        AppendAct(heard, Out(SendConfirm(id, true)));
        assert log[..|log| - 1] == heard && log[..|log| - 2] == before;
        error := Some(AlreadyExists);
      }
    }

    /** read_at in a loop: one block of the source despite short reads; a read of nothing means it shrank. */
    method ReadBlock(content: Bytes, from: nat, wanted: nat) returns (error: Option<UploadError>, data: Bytes)
      requires from + wanted <= |content|
      modifies this`patience, this`readSizes
      ensures forall n :: n in readSizes ==> n in old(readSizes)
      ensures error.None? ==> data == content[from..from + wanted]
      ensures error.Some? ==> (error.value == Stopped && patience == 0)
                              || (error.value == SourceShortened && 0 in old(readSizes))
      ensures patience <= old(patience) && (error.None? && wanted > 0 ==> patience < old(patience))
    {
      data := [];
      error := None;
      while |data| < wanted
        invariant error.None? && |data| <= wanted && data == content[from..from + |data|]
        invariant patience <= old(patience) && (|data| > 0 ==> patience < old(patience))
        invariant forall n :: n in readSizes ==> n in old(readSizes)
      {
        error := CheckJob();
        if error.Some? {
          return;
        }
        var count := wanted - |data|;
        if readSizes != [] {
          assert readSizes[0] in readSizes;
          count := if readSizes[0] < count then readSizes[0] else count;
          readSizes := readSizes[1..];
        }
        if count == 0 {
          return Some(SourceShortened), data;
        }
        data := data + content[from + |data|..from + |data| + count];
      }
    }

    /** One block: drain what the peer said, then send. */
    method SendBlock(index: nat, data: Bytes) returns (error: Option<UploadError>)
      modifies this`events, this`log, this`writable, this`patience, this`remoteWriteStarted
      ensures old(log) <= log && Dones(log) == Dones(old(log))
      ensures error.None? ==> Blocks(log) == Blocks(old(log)) + [Block(id, index, data)] && remoteWriteStarted
      ensures error.None? ==> Published(log) == Published(old(log)) + [Block(id, index, data)]
      ensures error.Some? ==> Blocks(log) == Blocks(old(log)) && Published(log) == Published(old(log))
      ensures Heeding(old(log), log, id, error.Some?)
      ensures patience <= old(patience) && (error.None? ==> patience + 2 <= old(patience))
      ensures Accounted(error)
    {
      ghost var start := log;
      error := DrainControl();
      DrainHeeds(start, log, id, error.Some?);
      if error.Some? {
        return;
      }
      ghost var before := log;
      error := Send(Block(id, index, data));
      if error.None? {
        AppendAct(before, Out(Block(id, index, data)));
        HeedsSent(start, before, Block(id, index, data), id);
        remoteWriteStarted := true;
      }
    }

    /** One round of pump_upload at a block boundary; `sent` is the size of the block. */
    method PumpOne(content: Bytes, offset: nat) returns (error: Option<UploadError>, sent: nat)
      requires offset < |content| && offset % 65536 == 0
      modifies this`events, this`log, this`writable, this`patience, this`remoteWriteStarted, this`readSizes
      ensures old(log) <= log && Dones(log) == Dones(old(log))
      ensures error.None? ==>
                && Blocks(log) == Blocks(old(log)) + [Block(id, offset / 65536, Chunk(content, offset / 65536))]
                && Published(log) == Published(old(log)) + [Block(id, offset / 65536, Chunk(content, offset / 65536))]
                && sent == (if |content| - offset < 65536 then |content| - offset else 65536)
                && offset + sent <= 0x1_0000_0000 * 65536
      ensures error.Some? ==> Blocks(log) == Blocks(old(log)) && Published(log) == Published(old(log))
      ensures error.Some? && AboutSource(error.value) ==>
                SourceDueTo(error.value, "", content, true, old(readSizes)) && error != Some(InvalidName)
      ensures error.Some? && !AboutSource(error.value) ==> Accounted(error)
      ensures forall n :: n in readSizes ==> n in old(readSizes)
      ensures Heeding(old(log), log, id, error.Some?)
      ensures patience <= old(patience) && (error.None? ==> patience + 4 <= old(patience))
    {
      sent := 0;
      error := CheckJob();
      if error.Some? {
        return;
      }
      var wanted := if |content| - offset < BLOCK then |content| - offset else BLOCK;
      var data;
      error, data := ReadBlock(content, offset, wanted);
      if error.Some? {
        return;
      }
      if offset / 65536 > U32_MAX {
        return Some(BlockRange), sent;
      }
      assert data == Chunk(content, offset / 65536);
      error := SendBlock(offset / 65536, data);
      sent := |data|;
    }

    /** One more block, on top of the first k. */
    method PumpNext(content: Bytes, offset: nat, ghost k: nat, ghost start: seq<Act>)
      returns (error: Option<UploadError>, sent: nat)
      requires offset == Covered(content, k) < |content|
      requires PumpedTo(id, content, start, log, k) && Heeding(start, log, id, false)
      modifies this`events, this`log, this`writable, this`patience, this`remoteWriteStarted, this`readSizes
      ensures error.None? ==> offset + sent == Covered(content, k + 1) <= 0x1_0000_0000 * 65536
      ensures PumpedTo(id, content, start, log, if error.Some? then k else k + 1)
      ensures Heeding(start, log, id, error.Some?)
      ensures 4 * |Blocks(log)| + patience <= 4 * |Blocks(old(log))| + old(patience)
      ensures error.Some? && AboutSource(error.value) ==>
                SourceDueTo(error.value, "", content, true, old(readSizes)) && error != Some(InvalidName)
      ensures error.Some? && !AboutSource(error.value) ==> Accounted(error)
      ensures forall n :: n in readSizes ==> n in old(readSizes)
    {
      OneCovered(content, k);
      ghost var before := log;
      error, sent := PumpOne(content, offset);
      JoinHeeding(start, before, log, id, error.Some?);
      PumpedMore(id, content, start, before, log, k, if error.Some? then [] else [Block(id, k, Chunk(content, k))]);
    }

    /** pump_upload: all blocks of the source in order, or an error after some first blocks of it. */
    method PumpUpload(content: Bytes, sameSource: bool) returns (error: Option<UploadError>)
      modifies this`events, this`log, this`writable, this`patience, this`remoteWriteStarted, this`readSizes
      ensures Pumped(id, content, old(log), log, error.None?)
      ensures error.None? ==> Whole(content, sameSource)
      ensures error.Some? && AboutSource(error.value) ==>
                SourceDueTo(error.value, "", content, sameSource, old(readSizes)) && error != Some(InvalidName)
      ensures error.Some? && !AboutSource(error.value) ==> Accounted(error)
      ensures Heeding(old(log), log, id, error.Some?)
      ensures 4 * |Blocks(log)| + patience <= 4 * |Blocks(old(log))| + old(patience)
      ensures error.None? ==> 4 * |Blocks(log)| + patience < 4 * |Blocks(old(log))| + old(patience)
    {
      var offset := 0;
      ghost var k := 0;
      ghost var start := log;
      PumpedNone(id, content, log);
      while offset < |content|
        invariant offset == Covered(content, k) <= 0x1_0000_0000 * 65536 && (k > 0 ==> 65536 * (k - 1) < |content|)
        invariant PumpedTo(id, content, start, log, k)
        invariant forall n :: n in readSizes ==> n in old(readSizes)
        invariant Heeding(start, log, id, false)
        invariant 4 * |Blocks(log)| + patience <= 4 * |Blocks(start)| + old(patience)
        decreases |content| - offset
      {
        var sent;
        error, sent := PumpNext(content, offset, k, start);
        if error.Some? {
          PumpedPart(id, content, start, log, k);
          return;
        }
        offset := offset + sent;
        k := k + 1;
      }
      PumpedEnd(id, content, start, log, k);
      error := CheckJob();
      if error.None? && !sameSource {
        error := Some(SourceChanged);
      }
    }

    /** One message after our Done: whether it ends the wait, and whether the peer reported the file written. */
    method HearWritten(msg: PeerMsg, ghost before: seq<Act>)
      returns (error: Option<UploadError>, decided: bool, written: bool)
      requires log == before + [In(Incoming(msg, false))]
      modifies this`log, this`writable
      ensures Silently(before, log)
      ensures Unended(before, log, id, false, error.Some?) && Echoed(before, log, error.Some?)
      ensures Lingered(before, log, id) && (!decided ==> Unanswered(before, log, id))
      ensures written <==> msg == DoneFor(id)
      ensures written ==> decided && error.None? && log == old(log)
      ensures decided && error.None? && !written ==> log == old(log) && msg.CloseReason?
      ensures error.Some? ==> decided
      ensures Accounted(error)
    {
      StaysSilent(before, before, Incoming(msg, false));
      OneMore(before, In(Incoming(msg, false)), id, false, true);
      OneUnanswered(before, In(Incoming(msg, false)), id);
      error, decided, written := None, true, false;
      if msg.Malformed? {
        error := Some(InvalidData);
      } else if msg.PermissionOff? {
        error := Some(PermissionDenied);
      } else if msg == ErrorFor(id) {
        error := Some(Rejected);
      } else if msg == CancelFor(id) {
        error := Some(Cancelled);
      } else {
        TalkedOver(before, msg, id);
        if msg.TestDelay? {
          error := Answer(msg.probe);
          decided := error.Some?;
        } else {
          assert log + [] == log;
          written := msg == DoneFor(id);
          decided := written || msg.CloseReason?;
        }
      }
    }

    /** The peer closed, or its stream ended between two frames. */
    predicate Closed()
      reads this
    {
      LastHeard(log) == Some(CloseReason) || (log != [] && log[|log| - 1] == In(Eof(false)))
    }

    /** The wait's deadline has passed before what arrives next. */
    predicate Overdue()
      reads this
    {
      events != [] && Late(events[0])
    }

    lemma {:induction false} JoinWritten(a: seq<Act>, b: seq<Act>, c: seq<Act>, decided: bool)
      requires Unanswered(a, b, id) && b <= c && if decided then Lingered(b, c, id) else Unanswered(b, c, id)
      ensures Lingered(a, c, id) && (!decided ==> Unanswered(a, c, id))
    {
      if decided {
        JoinLingered(a, b, c, id);
      } else {
        JoinUnanswered(a, b, c, id);
        UnansweredGrows(a, c, id);
        assert |c| > |a| ==> Unanswered(a, c[..|c| - 1], id);
      }
    }

    /** await_upload_written, after our Done: true only when the peer's own Done for this file arrived. */
    method AwaitWritten() returns (error: Option<UploadError>, written: bool)
      modifies this`events, this`log, this`writable, this`patience
      ensures Silently(old(log), log)
      ensures error.None? && written ==> |log| > |old(log)| && LastHeard(log) == Some(DoneFor(id))
      ensures error.None? && !written ==> Closed() || Overdue()
      ensures Lingered(old(log), log, id)
      ensures Unended(old(log), log, id, false, error.Some?) && Echoed(old(log), log, error.Some?)
      ensures patience <= old(patience)
      ensures Accounted(error)
    {
      ghost var start := log;
      written := false;
      while true
        invariant Silently(start, log)
        invariant Unended(start, log, id, false, false) && Echoed(start, log, false) && Unanswered(start, log, id)
        invariant patience <= old(patience)
        decreases |events|
      {
        error := CheckJob();
        if error.Some? {
          return;
        }
        if events != [] && Late(events[0]) {
          return None, false;
        }
        ghost var before := log;
        var decided;
        error, decided, written := WrittenRound();
        JoinUnended(start, before, log, id, false, error.Some?);
        JoinEchoed(start, before, log, error.Some?);
        JoinWritten(start, before, log, decided);
        if decided {
          return;
        }
      }
    }

    /** One round of that wait. */
    method WrittenRound() returns (error: Option<UploadError>, decided: bool, written: bool)
      requires events != [] ==> !Late(events[0])
      modifies this`events, this`log, this`writable, this`patience
      ensures !decided ==> |events| < |old(events)|
      ensures Silently(old(log), log)
      ensures written ==> |log| > |old(log)| && LastHeard(log) == Some(DoneFor(id))
      ensures written ==> decided && error.None?
      ensures error.Some? ==> decided
      ensures decided && error.None? && !written ==> Closed()
      ensures if decided then Lingered(old(log), log, id) else Unanswered(old(log), log, id)
      ensures Unended(old(log), log, id, false, error.Some?) && Echoed(old(log), log, error.Some?)
      ensures patience <= old(patience)
      ensures Accounted(error)
    {
      ghost var before := log;
      var e := Receive();
      if e.Incoming? {
        error, decided, written := HearWritten(e.msg, before);
      } else {
        error, decided := WrittenWait(e, before);
        written := false;
      }
    }

    /** A round of that wait that brought no message. */
    method WrittenWait(e: Event, ghost before: seq<Act>) returns (error: Option<UploadError>, decided: bool)
      requires log == before + [In(e)] && !e.Incoming? && !Late(e)
      modifies this`patience
      ensures Silently(before, log)
      ensures !decided ==> error.None? && e != Eof(false) && e != Eof(true)
      ensures decided && error.None? ==> Closed() && LastHeard(log).None?
      ensures if decided then Lingered(before, log, id) else Unanswered(before, log, id)
      ensures Unended(before, log, id, false, error.Some?) && Echoed(before, log, error.Some?)
      ensures patience <= old(patience)
      ensures Accounted(error)
    {
      StaysSilent(before, before, e);
      OneMore(before, In(e), id, false, false);
      OneMore(before, In(e), id, false, true);
      OneUnanswered(before, In(e), id);
      error, decided := None, e.Eof? || e.Broken?;
      if decided {
        if e == Eof(false) {
          error := CheckJob();
        } else {
          error := ReadFailed();
        }
      }
    }

    /** Everything before the first byte of data: drain, publish the request and our digest, wait for permission. */
    method Negotiate(offer: Offer, overwrite: bool) returns (error: Option<UploadError>)
      requires log == []
      modifies this`events, this`log, this`writable, this`patience
      ensures NothingSent(log)
      ensures error.None? ==> WasConducted(log, id, offer, overwrite, false)
      ensures error.Some? ==> NeverConfirmed(log, id, offer, overwrite)
      ensures if error == Some(InvalidName) then InvalidFileName(offer.name)
              else if error == Some(AlreadyExists) then TargetExists(log, id, overwrite)
              else Accounted(error)
      ensures Unended([], log, id, false, error.Some?)
      ensures InvalidFileName(offer.name) ==> error.Some? && Published(log) == []
      ensures patience <= old(patience)
    {
      error := CheckJob();
      if error.Some? {
        return;
      }
      error := DrainControl();
      DataTalks([], log, id, error.Some?);
      if error.Some? {
        return;
      }
      if InvalidFileName(offer.name) {
        return Some(InvalidName);
      }
      ghost var before := log;
      error := Agree(offer, overwrite);
      JoinUnended([], before, log, id, false, error.Some?);
    }

    /** The announcement, and the wait for its confirmation. */
    method Agree(offer: Offer, overwrite: bool) returns (error: Option<UploadError>)
      requires NothingSent(log) && Published(log) == []
      requires log != [] && IsQuiet(log[|log| - 1])
      modifies this`events, this`log, this`writable, this`patience
      ensures NothingSent(log)
      ensures error.None? ==> WasConducted(log, id, offer, overwrite, false)
      ensures error.Some? ==> NeverConfirmed(log, id, offer, overwrite)
      ensures if error == Some(AlreadyExists) then TargetExists(log, id, overwrite) else Accounted(error)
      ensures Unended(old(log), log, id, false, error.Some?)
      ensures patience <= old(patience)
    {
      ghost var start := log;
      error := Announce(offer);
      if error.Some? {
        NotAnnounced(log, id, offer, overwrite);
        return;
      }
      ghost var announced := log;
      error := AwaitConfirmation(overwrite);
      JoinUnended(start, announced, log, id, false, error.Some?);
      if error.None? {
        ghost var c: nat :| Consented(announced, log, c, id, overwrite);
        AgreedProtocol(announced, log, c, id, offer, overwrite);
      } else {
        NotAgreed(announced, log, id, offer, overwrite);
      }
    }

    /** The request to receive the file, then the digest of its source. */
    method Announce(offer: Offer) returns (error: Option<UploadError>)
      requires log != [] && IsQuiet(log[|log| - 1])
      modifies this`log, this`writable
      ensures Quietly(old(log), log)
      ensures error.None? ==>
                && Published(log) == Published(old(log)) + Opening(id, offer)
                && EndsWith(log, Digest(id, offer.size, offer.modified))
      ensures error.Some? ==>
                || Published(log) == Published(old(log))
                || Published(log) == Published(old(log)) + Opening(id, offer)[..1]
      ensures error.Some? ==> error.value == Socket && writable == 0
      ensures Unended(old(log), log, id, false, false)
    {
      ghost var start := log;
      ghost var before := log;
      error := Send(ReceiveRequest(id, offer));
      if error.Some? {
        return;
      }
      AppendAct(before, Out(ReceiveRequest(id, offer)));
      OneMore(before, Out(ReceiveRequest(id, offer)), id, false, false);
      before := log;
      error := Send(Digest(id, offer.size, offer.modified));
      if error.None? {
        AppendAct(before, Out(Digest(id, offer.size, offer.modified)));
        OneMore(before, Out(Digest(id, offer.size, offer.modified)), id, false, false);
        JoinUnended(start, before, log, id, false, false);
      }
    }

    /** After the data: our Done, and the bounded wait for the peer's. */
    method Complete() returns (error: Option<UploadError>)
      requires Dones(log) == 0 && !acknowledged
      modifies this`events, this`log, this`writable, this`patience, this`repliesPending, this`acknowledged
      ensures old(log) <= log && Blocks(log) == Blocks(old(log)) && Dones(log) <= 1
      ensures Published(log) == Published(old(log)) + (if Dones(log) == 1 then [Done(id)] else [])
      ensures Dones(log) == 1 || error.None? ==>
                exists d :: |old(log)| <= d && CompletedAt(log, d, id, Blocks(old(log)))
      ensures acknowledged ==>
                error.None? && exists d :: CompletedAt(log, d, id, Blocks(old(log))) && AnsweredAfter(log, d, id)
      ensures error.None? ==> Dones(log) == 1 && repliesPending == !acknowledged
      ensures error.None? && !acknowledged ==> Closed() || Overdue()
      ensures Heeding(old(log), log, id, error.Some?)
      ensures patience <= old(patience)
      ensures Accounted(error)
    {
      ghost var start := log;
      error := DrainControl();
      DrainHeeds(start, log, id, error.Some?);
      if error.Some? {
        return;
      }
      ghost var drained := log;
      error := Finish();
      JoinHeeding(start, drained, log, id, error.Some?);
    }

    /** Our Done, and the wait for the peer's. */
    method Finish() returns (error: Option<UploadError>)
      requires Dones(log) == 0 && !acknowledged && log != [] && IsQuiet(log[|log| - 1])
      modifies this`events, this`log, this`writable, this`patience, this`repliesPending, this`acknowledged
      ensures old(log) <= log && Blocks(log) == Blocks(old(log)) && Dones(log) <= 1
      ensures Published(log) == Published(old(log)) + (if Dones(log) == 1 then [Done(id)] else [])
      ensures Dones(log) == 1 || error.None? ==> CompletedAt(log, |old(log)|, id, Blocks(old(log)))
      ensures acknowledged ==>
                error.None? && CompletedAt(log, |old(log)|, id, Blocks(old(log))) && AnsweredAfter(log, |old(log)|, id)
      ensures error.None? ==> Dones(log) == 1 && repliesPending == !acknowledged
      ensures error.None? && !acknowledged ==> Closed() || Overdue()
      ensures Heeding(old(log), log, id, error.Some?)
      ensures patience <= old(patience)
      ensures Accounted(error)
    {
      ghost var before := log;
      NothingFinished(log, id);
      error := Send(Done(id));
      if error.Some? {
        return;
      }
      var written;
      error, written := AwaitWritten();
      DoneThenTalk(before, log, id, error.Some?);
      if error.Some? {
        return;
      }
      if written {
        AnswerSeen(log, |before|, id);
      }
      repliesPending := !written;
      acknowledged := written;
    }

    /** The blocks, or the single empty block of an empty source. */
    method SendData(content: Bytes, sameSource: bool) returns (error: Option<UploadError>)
      requires Blocks(log) == []
      modifies this`events, this`log, this`writable, this`patience, this`remoteWriteStarted, this`readSizes
      ensures DataSent(id, content, old(log), log, error.Some?)
      ensures error.None? ==> Whole(content, sameSource)
      ensures error.Some? && AboutSource(error.value) ==>
                SourceDueTo(error.value, "", content, sameSource, old(readSizes)) && error != Some(InvalidName)
      ensures error.Some? && !AboutSource(error.value) ==> Accounted(error)
      ensures Heeding(old(log), log, id, error.Some?)
      ensures 4 * |Blocks(log)| + patience <= old(patience)
    {
      ghost var start := log;
      error := PumpUpload(content, sameSource);
      PumpedData(id, content, start, log, error.None?);
      if error.Some? {
        return;
      }
      error := FinishData(content, start);
    }

    /** After the pump: the job is checked, and an empty source still gets its one block. */
    method FinishData(content: Bytes, ghost start: seq<Act>) returns (error: Option<UploadError>)
      requires Pumped(id, content, start, log, true) && Blocks(start) == [] && Heeding(start, log, id, false)
      requires DataSent(id, content, start, log, content == [])
      modifies this`events, this`log, this`writable, this`patience, this`remoteWriteStarted
      ensures DataSent(id, content, start, log, error.Some?)
      ensures Heeding(start, log, id, error.Some?)
      ensures 4 * |Blocks(log)| + patience <= 4 * |Blocks(old(log))| + old(patience) + 1
      ensures Accounted(error) && (error.Some? ==> !AboutSource(error.value))
    {
      ghost var pumped := log;
      error := CheckJob();
      if error.None? && content == [] {
        error := SendEmpty(start);
        EmptyData(id, content, start, pumped, log, error.Some?);
      }
    }

    /** The one block of an empty source. */
    method SendEmpty(ghost start: seq<Act>) returns (error: Option<UploadError>)
      requires Heeding(start, log, id, false) && |start| <= |log|
      modifies this`events, this`log, this`writable, this`patience, this`remoteWriteStarted
      ensures OneMoreSent(old(log), log, Block(id, 0, []), error.Some?)
      ensures Heeding(start, log, id, error.Some?)
      ensures 4 * |Blocks(log)| + patience <= 4 * |Blocks(old(log))| + old(patience) + 2
      ensures Accounted(error)
    {
      ghost var pumped := log;
      error := SendBlock(0, []);
      JoinHeeding(start, pumped, log, id, error.Some?);
    }

    /** The data after a last look at what the peer said. */
    method DrainAndSend(content: Bytes, sameSource: bool) returns (error: Option<UploadError>)
      requires NothingSent(log)
      modifies this`events, this`log, this`writable, this`patience, this`remoteWriteStarted, this`readSizes
      ensures DataSent(id, content, old(log), log, error.Some?)
      ensures error.None? ==> Whole(content, sameSource)
      ensures error.Some? && AboutSource(error.value) ==>
                SourceDueTo(error.value, "", content, sameSource, old(readSizes)) && error != Some(InvalidName)
      ensures error.Some? && !AboutSource(error.value) ==> Accounted(error)
      ensures Heeding(old(log), log, id, error.Some?)
      ensures 4 * |Blocks(log)| + patience <= old(patience)
    {
      ghost var start := log;
      error := DrainControl();
      DrainHeeds(start, log, id, error.Some?);
      DrainedData(id, content, start, log);
      if error.None? {
        ghost var drained := log;
        error := SendData(content, sameSource);
        JoinHeeding(start, drained, log, id, error.Some?);
      }
    }

    /** Everything after the confirmation: drain, the data, our completion and the wait for the peer's. */
    method Deliver(content: Bytes, sameSource: bool) returns (error: Option<UploadError>)
      requires NothingSent(log) && !acknowledged
      modifies this
      ensures old(log) <= log
      ensures Published(log) == Published(old(log)) + Blocks(log) + (if Dones(log) == 1 then [Done(id)] else [])
      ensures Blocks(log) <= AllBlocks(id, content) && Dones(log) <= 1
      ensures Dones(log) == 1 || error.None? ==> exists d :: CompletedAt(log, d, id, AllBlocks(id, content))
      ensures error.None? ==>
                Blocks(log) == AllBlocks(id, content) && Dones(log) == 1 && repliesPending == !acknowledged
      ensures error.None? && !acknowledged ==> Closed() || Overdue()
      ensures error.None? ==> Whole(content, sameSource)
      ensures acknowledged ==>
                error.None? && exists d :: CompletedAt(log, d, id, AllBlocks(id, content)) && AnsweredAfter(log, d, id)
      ensures error.Some? && AboutSource(error.value) ==>
                SourceDueTo(error.value, "", content, sameSource, old(readSizes)) && error != Some(InvalidName)
      ensures error.Some? && !AboutSource(error.value) ==> Accounted(error)
      ensures Heeding(old(log), log, id, error.Some?)
      ensures 4 * |Blocks(log)| + patience <= old(patience)
    {
      ghost var start := log;
      error := DrainAndSend(content, sameSource);
      if error.Some? {
        return;
      }
      ghost var sent := log;
      error := Complete();
      JoinHeeding(start, sent, log, id, error.Some?);
    }

    /**
     * upload_file_stream. The file is announced first; data and completion only after a confirmation; what was sent is
     * always a beginning of the source's blocks, and all of them once completion was sent; acknowledged only by the
     * peer's completion after ours. Nothing follows a message that ends the talk, no data an objection, and each block
     * costs four passed checks of the job.
     */
    method UploadFile(dir: string, name: string, modified: nat, content: Bytes, overwrite: bool, sameSource: bool)
      returns (error: Option<UploadError>)
      requires log == [] && !acknowledged
      modifies this
      ensures var offer := Offer(dir, name, |content|, modified);
              NeverConfirmed(log, id, offer, overwrite) || WasConducted(log, id, offer, overwrite, error.Some?)
      ensures Unended([], log, id, false, error.Some?)
      ensures InvalidFileName(name) ==> error.Some? && Published(log) == []
      ensures 4 * |Blocks(log)| + patience <= old(patience)
      ensures Blocks(log) <= AllBlocks(id, content) && Dones(log) <= 1
      ensures Dones(log) == 1 || error.None? ==> exists d :: CompletedAt(log, d, id, AllBlocks(id, content))
      ensures error.None? ==>
                Blocks(log) == AllBlocks(id, content) && Dones(log) == 1 && repliesPending == !acknowledged
      ensures error.None? && !acknowledged ==> Closed() || Overdue()
      ensures error.None? ==> Whole(content, sameSource)
      ensures acknowledged ==>
                error.None? && exists d :: CompletedAt(log, d, id, AllBlocks(id, content)) && AnsweredAfter(log, d, id)
      ensures error.Some? && AboutSource(error.value) ==>
                SourceDueTo(error.value, name, content, sameSource, old(readSizes))
      ensures error == Some(AlreadyExists) ==> TargetExists(log, id, overwrite)
      ensures error.Some? && !AboutSource(error.value) && error.value != AlreadyExists ==> Accounted(error)
    {
      var offer := Offer(dir, name, |content|, modified);
      error := Negotiate(offer, overwrite);
      if error.Some? {
        return;
      }
      error := Conduct(offer, content, overwrite, sameSource);
    }

    /** The upload after its negotiation. */
    method Conduct(ghost offer: Offer, content: Bytes, ghost overwrite: bool, sameSource: bool)
      returns (error: Option<UploadError>)
      requires WasConducted(log, id, offer, overwrite, false) && NothingSent(log) && !acknowledged
      requires Unended([], log, id, false, false)
      modifies this
      ensures WasConducted(log, id, offer, overwrite, error.Some?) && Unended([], log, id, false, error.Some?)
      ensures 4 * |Blocks(log)| + patience <= old(patience)
      ensures Blocks(log) <= AllBlocks(id, content) && Dones(log) <= 1
      ensures Dones(log) == 1 || error.None? ==> exists d :: CompletedAt(log, d, id, AllBlocks(id, content))
      ensures error.None? ==>
                Blocks(log) == AllBlocks(id, content) && Dones(log) == 1 && repliesPending == !acknowledged
      ensures error.None? && !acknowledged ==> Closed() || Overdue()
      ensures error.None? ==> Whole(content, sameSource)
      ensures acknowledged ==>
                error.None? && exists d :: CompletedAt(log, d, id, AllBlocks(id, content)) && AnsweredAfter(log, d, id)
      ensures error.Some? && AboutSource(error.value) ==>
                SourceDueTo(error.value, "", content, sameSource, old(readSizes)) && error != Some(InvalidName)
      ensures error.Some? && !AboutSource(error.value) ==> Accounted(error)
    {
      ghost var negotiated := log;
      error := Deliver(content, sameSource);
      UploadEnds(negotiated, log, id, offer, overwrite, error.Some?);
    }
  }
}
