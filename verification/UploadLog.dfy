/** The record of an upload: what was published, what must stop it, and the blocks of its source. */
module UploadLog {
  import opened Prelude
  import opened WireFormat

  const BLOCK: nat := 65536
  const DRAIN_LIMIT: nat := 256

  /** What a peer's control message can mean to an upload. */
  datatype PeerMsg =
    | PermissionOff
    | ErrorFor(id: int)
    | DigestFor(id: int, fileNum: int)
    | DoneFor(id: int)
    | ConfirmFor(id: int, fileNum: int, skip: bool, offset: int)
    | CancelFor(id: int)
    | CloseReason
    | TestDelay(probe: nat)
    | Malformed
    | Unrelated

  /**
   * What one receive meets. `late` is the waiting loop's own deadline, `silent` the file service's silence bound,
   * `partial` an unfinished frame in the buffer. `Flooded` is a wait that finds more than one MiB of a frame buffered.
   */
  datatype Event = Incoming(msg: PeerMsg, late: bool) | Quiet(partial: bool, late: bool, silent: bool)
                 | Eof(partial: bool) | Broken | Flooded

  /** What the peer is told about a file: its folder, its name and the facts of its source. */
  datatype Offer = Offer(dir: string, name: string, size: nat, modified: nat)

  datatype Sent =
    | ReceiveRequest(id: int, offer: Offer)
    | Digest(id: int, size: nat, modified: nat)
    | SendConfirm(id: int, skip: bool)
    | Block(id: int, index: nat, data: Bytes)
    | Done(id: int)
    | Echo(probe: nat)

  datatype Act = In(event: Event) | Out(message: Sent)

  datatype UploadError =
    | Stopped | NotWritable | PermissionDenied | Rejected | Cancelled | ConfirmationChanged | PeerClosed
    | AlreadyExists | ResumeOffset | InvalidName | InvalidData | TimedOut | Socket
    | SourceShortened | BlockRange | SourceChanged

  predicate Late(e: Event) {
    (e.Incoming? || e.Quiet?) && e.late
  }

  // ---------------------------------------------------------------- what a log must look like

  /** The messages that allow data: a digest of this file when overwriting, or an offset-0 confirmation of it. */
  predicate Confirms(a: Act, id: int, overwrite: bool) {
    a.In? && a.event.Incoming? &&
    match a.event.msg
    case DigestFor(d, fileNum) => d == id && fileNum == 0 && overwrite
    case ConfirmFor(c, fileNum, skip, offset) => c == id && fileNum == 0 && !skip && offset == 0
    case _ => false
  }

  predicate IsBlock(a: Act) {
    a.Out? && a.message.Block?
  }

  predicate IsDone(a: Act) {
    a.Out? && a.message.Done?
  }

  function Blocks(log: seq<Act>): seq<Sent> {
    if log == [] then []
    else Blocks(log[..|log| - 1]) + (if IsBlock(log[|log| - 1]) then [log[|log| - 1].message] else [])
  }

  function Dones(log: seq<Act>): nat {
    if log == [] then 0 else Dones(log[..|log| - 1]) + (if IsDone(log[|log| - 1]) then 1 else 0)
  }

  /** Everything that was sent, except the echoes of probes. */
  function Published(log: seq<Act>): seq<Sent> {
    if log == [] then []
    else
      var last := log[|log| - 1];
      Published(log[..|log| - 1]) + (if last.Out? && !last.message.Echo? then [last.message] else [])
  }

  /** How many messages arrived. */
  function Arrivals(log: seq<Act>): nat {
    if log == [] then 0
    else Arrivals(log[..|log| - 1]) + (if log[|log| - 1].In? && log[|log| - 1].event.Incoming? then 1 else 0)
  }

  /** Neither data nor completion was sent. */
  ghost predicate NothingSent(log: seq<Act>) {
    Blocks(log) == [] && Dones(log) == 0
  }

  /** A confirmation arrived at position `c`, and nothing was sent before it. */
  ghost predicate ConfirmedAt(log: seq<Act>, c: nat, id: int, overwrite: bool) {
    c < |log| && Confirms(log[c], id, overwrite) && NothingSent(log[..c])
  }

  /** An act that is neither a block nor our completion. */
  predicate Neutral(a: Act) {
    !IsBlock(a) && !IsDone(a)
  }

  /** The log grew by neutral acts only. */
  ghost predicate Quietly(before: seq<Act>, after: seq<Act>) {
    before <= after && Blocks(after) == Blocks(before) && Dones(after) == Dones(before)
  }

  /** The log grew by arrivals and echoes only. */
  ghost predicate Silently(before: seq<Act>, after: seq<Act>) {
    Quietly(before, after) && Published(after) == Published(before)
  }

  lemma {:induction false} AppendAct(log: seq<Act>, a: Act)
    ensures Blocks(log + [a]) == Blocks(log) + (if IsBlock(a) then [a.message] else [])
    ensures Dones(log + [a]) == Dones(log) + (if IsDone(a) then 1 else 0)
    ensures Neutral(a) ==> Quietly(log, log + [a])
    ensures Published(log + [a]) == Published(log) + (if a.Out? && !a.message.Echo? then [a.message] else [])
    ensures a.In? || a.message.Echo? ==> Silently(log, log + [a])
    ensures Arrivals(log + [a]) == Arrivals(log) + (if a.In? && a.event.Incoming? then 1 else 0)
  {
    assert (log + [a])[..|log + [a]| - 1] == log;
  }

  lemma {:induction false} StaysSilent(start: seq<Act>, log: seq<Act>, e: Event)
    requires Silently(start, log)
    ensures Silently(start, log + [In(e)])
  {
    AppendAct(log, In(e));
  }

  /** An arrival that does not end the wait for a confirmation, or ends it. */
  lemma {:induction false} StaysUndecided(start: seq<Act>, log: seq<Act>, a: Act, id: int)
    requires Undecided(start, log, id)
    ensures !Decides(a, id) ==> Undecided(start, log + [a], id)
    ensures (log + [a])[..|log|] == log
  {
    assert (log + [a])[..|log|] == log;
    assert |log| >= |start|;
  }

  lemma {:induction false} NothingInPrefix(log: seq<Act>, c: nat)
    requires NothingSent(log) && c <= |log|
    ensures NothingSent(log[..c])
  {
    if c == |log| {
      assert log[..c] == log;
    } else {
      NothingInPrefix(log[..|log| - 1], c);
      assert log[..|log| - 1][..c] == log[..c];
    }
  }

  /** An announced file that was not confirmed, or refused because it exists. */
  lemma {:induction false} NotAgreed(announced: seq<Act>, log: seq<Act>, id: int, offer: Offer, overwrite: bool)
    requires NothingSent(log) && Published(announced) == [] + Opening(id, offer)
    requires EndsWith(announced, Digest(id, offer.size, offer.modified)) && announced <= log
    requires Unconfirmed(announced, log, id, overwrite)
    ensures NeverConfirmed(log, id, offer, overwrite)
  {
    assert log[..|announced|] == announced;
    assert Announced(log, |announced|, id, offer);
  }

  lemma {:induction false} NotAnnounced(log: seq<Act>, id: int, offer: Offer, overwrite: bool)
    requires NothingSent(log) && (Published(log) == [] || Published(log) == [] + Opening(id, offer)[..1])
    ensures NeverConfirmed(log, id, offer, overwrite)
  {
  }

  /** An announced file whose confirmation arrived. */
  lemma {:induction false} AgreedProtocol(announced: seq<Act>, log: seq<Act>, c: nat, id: int, offer: Offer,
                                          overwrite: bool)
    requires Consented(announced, log, c, id, overwrite) && NothingSent(log) && announced <= log
    requires Published(announced) == Opening(id, offer) && EndsWith(announced, Digest(id, offer.size, offer.modified))
    ensures Conducted(log, c, id, offer, overwrite, false)
  {
    NothingInPrefix(log, c);
    var opening, reply := Opening(id, offer), Reply(log[c], id);
    assert opening + reply + [] + [] == opening + reply;
    assert log[..|announced|] == announced;
    assert Announced(log, |announced|, id, offer);
    if |log| == c + 1 {
      assert log[..c + 1] == log;
    } else {
      assert log[..c + 2] == log && log[..c + 2][..c + 1] == log[..c + 1];
    }
  }

  lemma {:induction false} AwaitedExtends(before: seq<Act>, after: seq<Act>, c: nat, id: int, offer: Offer)
    requires before <= after && Awaited(before, c, id, offer)
    ensures Awaited(after, c, id, offer)
  {
    var a: nat :| a <= c <= |before| && Announced(before, a, id, offer) && Undecided(before[..a], before[..c], id);
    assert after[..a] == before[..a] && after[..c] == before[..c];
    assert Announced(after, a, id, offer);
  }

  /** What follows a confirmed negotiation: blocks, then perhaps our completion. */
  lemma {:induction false} ProtocolExtends(before: seq<Act>, after: seq<Act>, c: nat, id: int, offer: Offer,
                                           overwrite: bool)
    requires before <= after && InProtocol(before, c, id, offer, overwrite) && NothingSent(before)
    requires Published(after) == Published(before) + Blocks(after) + (if Dones(after) == 1 then [Done(id)] else [])
    ensures InProtocol(after, c, id, offer, overwrite)
  {
    ConfirmedExtends(before, after, c, id, overwrite);
    AwaitedExtends(before, after, c, id, offer);
    assert after[..c] == before[..c] && after[c] == before[c];
    var agreed := Opening(id, offer) + Reply(before[c], id);
    assert agreed + [] + [] == agreed;
  }

  /** The whole upload after its negotiation. */
  lemma {:induction false} UploadEnds(before: seq<Act>, after: seq<Act>, id: int, offer: Offer, overwrite: bool,
                                      failed: bool)
    requires before <= after && WasConducted(before, id, offer, overwrite, false) && NothingSent(before)
    requires Published(after) == Published(before) + Blocks(after) + (if Dones(after) == 1 then [Done(id)] else [])
    requires Heeding(before, after, id, failed) && Unended([], before, id, false, false)
    ensures WasConducted(after, id, offer, overwrite, failed) && Unended([], after, id, false, failed)
  {
    var c: nat :| Conducted(before, c, id, offer, overwrite, false);
    ProtocolExtends(before, after, c, id, offer, overwrite);
    assert after[..c + 1] == before[..c + 1];
    JoinHeeding(after[..c + 1], before, after, id, failed);
    assert Conducted(after, c, id, offer, overwrite, failed);
    HeedingTalks(before, after, id, failed);
    JoinUnended([], before, after, id, false, failed);
  }

  /** A confirmation, or a digest with its answer, allows data. */
  lemma {:induction false} MessageConsents(start: seq<Act>, before: seq<Act>, m: PeerMsg, id: int, overwrite: bool)
    requires Silently(start, before) && Undecided(start, before, id)
    requires Confirms(In(Incoming(m, false)), id, overwrite)
    ensures var heard := before + [In(Incoming(m, false))];
            var log := heard + (if m.DigestFor? then [Out(SendConfirm(id, false))] else []);
            Quietly(start, log) && Consented(start, log, |before|, id, overwrite)
  {
    var heard := before + [In(Incoming(m, false))];
    var log := heard + (if m.DigestFor? then [Out(SendConfirm(id, false))] else []);
    AppendAct(before, In(Incoming(m, false)));
    if m.DigestFor? {
      AppendAct(heard, Out(SendConfirm(id, false)));
    } else {
      assert log == heard;
    }
    assert log[..|before|] == before && log[|before|] == In(Incoming(m, false));
  }

  lemma {:induction false} ConfirmedExtends(before: seq<Act>, after: seq<Act>, c: nat, id: int, overwrite: bool)
    requires before <= after && ConfirmedAt(before, c, id, overwrite)
    ensures ConfirmedAt(after, c, id, overwrite)
  {
    assert after[..c] == before[..c];
  }

  /** Our completion is at `d`, after exactly these blocks and no earlier one; only the last act ends the wait for its answer. */
  ghost predicate CompletedAt(log: seq<Act>, d: nat, id: int, blocks: seq<Sent>) {
    && d < |log| && log[d] == Out(Done(id)) && Blocks(log[..d]) == blocks && Dones(log[..d]) == 0
    && (|log| > d + 1 ==> Unanswered(log[..d + 1], log[..|log| - 1], id))
  }

  /** What ends the wait after our completion: the peer's own, an end of the talk, a cancel, a close, or a deadline. */
  predicate Answers(a: Act, id: int) {
    a.In? &&
    match a.event
    case Incoming(m, late) => late || EndsTalk(a, id) || m == CancelFor(id) || m == DoneFor(id) || m.CloseReason?
    case Quiet(_, late, _) => late
    case Flooded => false
    case _ => true
  }

  /** None of what was added ends that wait. */
  ghost predicate Unanswered(before: seq<Act>, after: seq<Act>, id: int)
    decreases |after|
  {
    if |after| <= |before| then after == before
    else !Answers(after[|after| - 1], id) && Unanswered(before, after[..|after| - 1], id)
  }

  /** What was added ends the wait at its end at the earliest. */
  ghost predicate Lingered(before: seq<Act>, after: seq<Act>, id: int) {
    |after| > |before| ==> Unanswered(before, after[..|after| - 1], id)
  }

  /** The peer's completion of this file arrived after ours was sent. */
  ghost predicate AnsweredAfter(log: seq<Act>, d: nat, id: int) {
    exists j :: d < j < |log| && log[j].In? && log[j].event.Incoming? && log[j].event.msg == DoneFor(id)
  }

  // ---------------------------------------------------------------- what must be published before data

  /** The file is announced, then its digest. */
  function Opening(id: int, offer: Offer): seq<Sent> {
    [ReceiveRequest(id, offer), Digest(id, offer.size, offer.modified)]
  }

  /** What answers the message that allows data: a digest of an existing target is confirmed, never skipped. */
  function Reply(a: Act, id: int): seq<Sent> {
    if a.In? && a.event.Incoming? && a.event.msg.DigestFor? then [SendConfirm(id, false)] else []
  }

  /** The message at `c` allows data; until it arrived nothing more was published, and then only its answer. */
  ghost predicate Consented(before: seq<Act>, log: seq<Act>, c: nat, id: int, overwrite: bool) {
    && |before| <= c < |log| && Confirms(log[c], id, overwrite)
    && Published(log[..c]) == Published(before) && Published(log) == Published(before) + Reply(log[c], id)
    && |log| == c + 1 + |Reply(log[c], id)| && (|log| > c + 1 ==> log[c + 1] == Out(SendConfirm(id, false)))
    && Undecided(before, log[..c], id)
  }

  /** What ends the wait for a confirmation: a decision, a deadline, silence, or the end of the stream. */
  predicate Decides(a: Act, id: int) {
    a.In? &&
    match a.event
    case Incoming(m, late) =>
      || late || EndsTalk(a, id) || m == DigestFor(id, 0) || (m.ConfirmFor? && m.id == id && m.fileNum == 0)
    case Quiet(_, late, silent) => late || silent
    case _ => true
  }

  /** None of what was added ends the wait for a confirmation. */
  ghost predicate Undecided(before: seq<Act>, after: seq<Act>, id: int)
    decreases |after|
  {
    if |after| <= |before| then after == before
    else !Decides(after[|after| - 1], id) && Undecided(before, after[..|after| - 1], id)
  }

  /** The announcement ends before position `a`: nothing else was published until then. */
  ghost predicate Announced(log: seq<Act>, a: nat, id: int, offer: Offer) {
    && a <= |log| && Published(log[..a]) == Opening(id, offer)
    && EndsWith(log[..a], Digest(id, offer.size, offer.modified))
  }

  predicate EndsWith(log: seq<Act>, m: Sent) {
    log != [] && log[|log| - 1] == Out(m)
  }

  /** From the announcement to position `c` nothing ended the wait. */
  ghost predicate Awaited(log: seq<Act>, c: nat, id: int, offer: Offer) {
    exists a: nat :: a <= c <= |log| && Announced(log, a, id, offer) && Undecided(log[..a], log[..c], id)
  }

  /**
   * A wait without a confirmation: nothing was published, and what ended it came last; or the last two acts are a digest
   * and our refusal to overwrite.
   */
  ghost predicate Unconfirmed(before: seq<Act>, after: seq<Act>, id: int, overwrite: bool) {
    || (Published(after) == Published(before)
        && (Undecided(before, after, id) || (after != [] && Undecided(before, after[..|after| - 1], id))))
    || (!overwrite && Published(after) == Published(before) + [SendConfirm(id, true)]
        && |after| >= 2 && Undecided(before, after[..|after| - 2], id))
  }

  /** An upload that was not allowed any data: a beginning of the opening, or all of it and a wait without a confirmation. */
  ghost predicate NeverConfirmed(log: seq<Act>, id: int, offer: Offer, overwrite: bool) {
    && NothingSent(log)
    && (Published(log) == [] || Published(log) == Opening(id, offer)[..1] ||
        exists a: nat :: Announced(log, a, id, offer) && Unconfirmed(log[..a], log, id, overwrite))
  }

  /**
   * An upload that was: exactly the opening before the message at `c`, the first that ends the wait, then its answer,
   * then blocks, then perhaps our completion, and besides these only echoes.
   */
  ghost predicate InProtocol(log: seq<Act>, c: nat, id: int, offer: Offer, overwrite: bool) {
    && ConfirmedAt(log, c, id, overwrite)
    && Published(log[..c]) == Opening(id, offer) && Awaited(log, c, id, offer)
    && Published(log) == Opening(id, offer) + Reply(log[c], id) + Blocks(log)
                         + (if Dones(log) == 1 then [Done(id)] else [])
  }

  // ---------------------------------------------------------------- what must stop an upload

  /** A message after which nothing more is ever sent: a lost permission, garbage, or an error of this file. */
  predicate EndsTalk(a: Act, id: int) {
    && a.In? && a.event.Incoming?
    && (a.event.msg.PermissionOff? || a.event.msg.Malformed? || a.event.msg == ErrorFor(id))
  }

  /** A message after which no data and no completion may follow: also a cancel, a close, or a changed confirmation. */
  predicate Objects(m: PeerMsg, id: int) {
    || m.PermissionOff? || m.Malformed? || m == ErrorFor(id) || m == CancelFor(id) || m.CloseReason?
    || (m.ConfirmFor? && m.id == id && (m.skip || m.fileNum != 0 || m.offset != 0))
  }

  /** What ends the phase of data: an objection, a passed deadline, the end of the stream, or too much buffered. */
  predicate EndsData(a: Act, id: int) {
    a.In? &&
    match a.event
    case Incoming(m, late) => late || Objects(m, id)
    case Quiet(_, late, _) => late
    case _ => true
  }

  /** A wait that found nothing to read, not even a part of a frame. */
  predicate IsQuiet(a: Act) {
    a.In? && a.event.Quiet? && !a.event.partial
  }

  /** The announcement, a block and our completion are sent only right after such a wait. */
  predicate InTurn(log: seq<Act>, n: nat)
    requires n < |log|
  {
    log[n].Out? && (log[n].message.ReceiveRequest? || IsBlock(log[n]) || IsDone(log[n])) ==> n > 0 && IsQuiet(log[n - 1])
  }

  /** None of what was added ends the talk, or (`data`) the phase of data, except perhaps the last act of a failed step. */
  ghost predicate Unended(before: seq<Act>, after: seq<Act>, id: int, data: bool, failed: bool)
    decreases |after|
  {
    if |after| <= |before| then after == before
    else
      var n := |after| - 1;
      && (failed || !if data then EndsData(after[n], id) else EndsTalk(after[n], id)) && InTurn(after, n)
      && Unended(before, after[..n], id, data, false)
  }

  /** No end of the phase of data came before our completion, and no end of talk at all, but for a failed last act. */
  ghost predicate Heeding(before: seq<Act>, after: seq<Act>, id: int, failed: bool)
    decreases |after|
  {
    if |after| <= |before| then after == before
    else
      var n := |after| - 1;
      && (failed || (!EndsTalk(after[n], id) && (Dones(after[..n]) == 0 ==> !EndsData(after[n], id))))
      && InTurn(after, n)
      && Heeding(before, after[..n], id, false)
  }

  /**
   * A confirmed upload that heeds its peer: after the confirmation at `c` no data and no completion follow an objection,
   * a deadline or a failure, and nothing at all follows the end of talk.
   */
  ghost predicate Conducted(log: seq<Act>, c: nat, id: int, offer: Offer, overwrite: bool, failed: bool) {
    InProtocol(log, c, id, offer, overwrite) && Heeding(log[..c + 1], log, id, failed)
  }

  ghost predicate WasConducted(log: seq<Act>, id: int, offer: Offer, overwrite: bool, failed: bool) {
    exists c: nat :: Conducted(log, c, id, offer, overwrite, failed)
  }

  /** The probe an act brings in time. */
  predicate Probe(a: Act) {
    a.In? && a.event.Incoming? && a.event.msg.TestDelay? && !a.event.late
  }

  /** Every probe among what was added is answered next, unless a failed step ends with it, and nothing else is sent. */
  ghost predicate Echoed(before: seq<Act>, after: seq<Act>, failed: bool)
    decreases |after|
  {
    if |after| <= |before| then after == before
    else
      var n := |after| - 1;
      if after[n].Out? then
        && n > |before| && Probe(after[n - 1]) && after[n] == Out(Echo(after[n - 1].event.msg.probe))
        && Echoed(before, after[..n - 1], false)
      else (failed || !Probe(after[n])) && Echoed(before, after[..n], false)
  }

  lemma {:induction false} JoinUnended(a: seq<Act>, b: seq<Act>, c: seq<Act>, id: int, data: bool, failed: bool)
    requires |a| <= |b| && Unended(a, b, id, data, false) && Unended(b, c, id, data, failed)
    ensures Unended(a, c, id, data, failed)
    decreases |c|
  {
    if |c| > |b| {
      JoinUnended(a, b, c[..|c| - 1], id, data, false);
    }
  }

  lemma {:induction false} JoinEchoed(a: seq<Act>, b: seq<Act>, c: seq<Act>, failed: bool)
    requires |a| <= |b| && Echoed(a, b, false) && Echoed(b, c, failed)
    ensures Echoed(a, c, failed)
    decreases |c|
  {
    if |c| > |b| {
      var n := |c| - 1;
      JoinEchoed(a, b, if c[n].Out? then c[..n - 1] else c[..n], false);
    }
  }

  /** What a drain adds: arrivals and the echoes of their probes, and no end of the phase of data but a failed last act. */
  ghost predicate Drained(before: seq<Act>, after: seq<Act>, id: int, failed: bool) {
    Silently(before, after) && Unended(before, after, id, true, failed) && Echoed(before, after, failed)
  }

  lemma {:induction false} JoinDrained(a: seq<Act>, b: seq<Act>, c: seq<Act>, id: int, failed: bool)
    requires Drained(a, b, id, false) && Drained(b, c, id, failed)
    ensures Drained(a, c, id, failed)
  {
    JoinUnended(a, b, c, id, true, failed);
    JoinEchoed(a, b, c, failed);
  }

  /** One act that ends nothing, or the last one of a failed step. */
  lemma {:induction false} OneMore(log: seq<Act>, a: Act, id: int, data: bool, failed: bool)
    requires failed || !if data then EndsData(a, id) else EndsTalk(a, id)
    requires InTurn(log + [a], |log|)
    ensures Unended(log, log + [a], id, data, failed)
    ensures a.In? && (failed || !Probe(a)) ==> Echoed(log, log + [a], failed)
  {
    assert (log + [a])[..|log|] == log;
  }

  /** A probe and its echo. */
  lemma {:induction false} AnsweredOne(log: seq<Act>, probe: nat, id: int, data: bool)
    ensures var after := log + [In(Incoming(TestDelay(probe), false))] + [Out(Echo(probe))];
            Echoed(log, after, false) && Unended(log, after, id, data, false)
  {
    var heard := log + [In(Incoming(TestDelay(probe), false))];
    OneMore(log, heard[|log|], id, data, false);
    OneMore(heard, Out(Echo(probe)), id, data, false);
    JoinUnended(log, heard, heard + [Out(Echo(probe))], id, data, false);
    assert (heard + [Out(Echo(probe))])[..|log|] == log;
  }

  /** One act of a drain: an arrival that brings no probe, or the last one of a failed drain. */
  lemma {:induction false} OneDrained(log: seq<Act>, e: Event, id: int, failed: bool)
    requires failed || (!EndsData(In(e), id) && !Probe(In(e)))
    ensures Drained(log, log + [In(e)], id, failed)
    ensures Arrivals(log + [In(e)]) == Arrivals(log) + if e.Incoming? then 1 else 0
  {
    AppendAct(log, In(e));
    OneMore(log, In(e), id, true, failed);
  }

  lemma {:induction false} OneArrives(log: seq<Act>, e: Event)
    ensures Arrivals(log + [In(e)]) == Arrivals(log) + if e.Incoming? then 1 else 0
  {
    AppendAct(log, In(e));
  }

  /** One message in time that is no objection, and the echo it asks for. */
  lemma {:induction false} PassedOver(log: seq<Act>, m: PeerMsg, id: int)
    requires !Objects(m, id)
    ensures var after := log + [In(Incoming(m, false))] + (if m.TestDelay? then [Out(Echo(m.probe))] else []);
            Drained(log, after, id, false) && Arrivals(after) == Arrivals(log) + 1
  {
    var heard := log + [In(Incoming(m, false))];
    if m.TestDelay? {
      AnsweredOne(log, m.probe, id, true);
      AppendAct(log, In(Incoming(m, false)));
      AppendAct(heard, Out(Echo(m.probe)));
    } else {
      OneDrained(log, Incoming(m, false), id, false);
      assert heard + [] == heard;
    }
  }

  lemma {:induction false} DataTalks(a: seq<Act>, b: seq<Act>, id: int, failed: bool)
    requires Unended(a, b, id, true, failed)
    ensures Unended(a, b, id, false, failed)
    decreases |b|
  {
    if |b| > |a| {
      assert !EndsData(b[|b| - 1], id) ==> !EndsTalk(b[|b| - 1], id);
      DataTalks(a, b[..|b| - 1], id, false);
    }
  }

  lemma {:induction false} HeedingTalks(a: seq<Act>, b: seq<Act>, id: int, failed: bool)
    requires Heeding(a, b, id, failed)
    ensures Unended(a, b, id, false, failed)
    decreases |b|
  {
    if |b| > |a| {
      HeedingTalks(a, b[..|b| - 1], id, false);
    }
  }

  /** One message in time after our completion, and the echo it asks for. */
  lemma {:induction false} TalkedOver(log: seq<Act>, m: PeerMsg, id: int)
    requires !EndsTalk(In(Incoming(m, false)), id)
    ensures var after := log + [In(Incoming(m, false))] + (if m.TestDelay? then [Out(Echo(m.probe))] else []);
            && Silently(log, after) && Unended(log, after, id, false, false) && Echoed(log, after, false)
            && (!Answers(In(Incoming(m, false)), id) ==> Unanswered(log, after, id))
  {
    var heard := log + [In(Incoming(m, false))];
    OneUnanswered(log, In(Incoming(m, false)), id);
    StaysSilent(log, log, Incoming(m, false));
    if m.TestDelay? {
      AnsweredOne(log, m.probe, id, false);
      AppendAct(heard, Out(Echo(m.probe)));
      OneUnanswered(heard, Out(Echo(m.probe)), id);
      JoinUnanswered(log, heard, heard + [Out(Echo(m.probe))], id);
    } else {
      OneMore(log, In(Incoming(m, false)), id, false, false);
      assert heard + [] == heard;
    }
  }

  lemma {:induction false} DrainHeeds(a: seq<Act>, b: seq<Act>, id: int, failed: bool)
    requires Unended(a, b, id, true, failed)
    ensures Heeding(a, b, id, failed)
    decreases |b|
  {
    if |b| > |a| {
      assert !EndsData(b[|b| - 1], id) ==> !EndsTalk(b[|b| - 1], id);
      DrainHeeds(a, b[..|b| - 1], id, false);
    }
  }

  lemma {:induction false} JoinHeeding(a: seq<Act>, b: seq<Act>, c: seq<Act>, id: int, failed: bool)
    requires |a| <= |b| && Heeding(a, b, id, false) && Heeding(b, c, id, failed)
    ensures Heeding(a, c, id, failed)
    decreases |c|
  {
    if |c| > |b| {
      JoinHeeding(a, b, c[..|c| - 1], id, false);
    }
  }

  lemma {:induction false} HeedsSent(a: seq<Act>, b: seq<Act>, m: Sent, id: int)
    requires |a| <= |b| && Heeding(a, b, id, false) && InTurn(b + [Out(m)], |b|)
    ensures Heeding(a, b + [Out(m)], id, false)
  {
    assert (b + [Out(m)])[..|b|] == b;
  }

  /** One arrival in the wait after our completion. */
  lemma {:induction false} OneUnanswered(log: seq<Act>, a: Act, id: int)
    ensures Lingered(log, log + [a], id) && (!Answers(a, id) ==> Unanswered(log, log + [a], id))
  {
    assert (log + [a])[..|log|] == log;
  }

  lemma {:induction false} JoinUnanswered(a: seq<Act>, b: seq<Act>, c: seq<Act>, id: int)
    requires Unanswered(a, b, id) && Unanswered(b, c, id)
    ensures Unanswered(a, c, id)
    decreases |c|
  {
    UnansweredGrows(a, b, id);
    UnansweredGrows(b, c, id);
    if |c| > |b| {
      JoinUnanswered(a, b, c[..|c| - 1], id);
    }
  }

  lemma {:induction false} UnansweredGrows(a: seq<Act>, b: seq<Act>, id: int)
    requires Unanswered(a, b, id)
    ensures |a| <= |b|
    decreases |b|
  {
  }

  lemma {:induction false} JoinLingered(a: seq<Act>, b: seq<Act>, c: seq<Act>, id: int)
    requires Unanswered(a, b, id) && b <= c && Lingered(b, c, id)
    ensures Lingered(a, c, id)
  {
    if |c| > |b| {
      JoinUnanswered(a, b, c[..|c| - 1], id);
    } else {
      assert c == b;
      if |b| > |a| {
        assert Unanswered(a, b[..|b| - 1], id);
      }
    }
  }

  /** Once our completion is out, only the end of talk counts. */
  lemma {:induction false} TalkHeeds(b: seq<Act>, c: seq<Act>, id: int, failed: bool)
    requires Dones(b) > 0 && Unended(b, c, id, false, failed)
    ensures Heeding(b, c, id, failed) && Dones(c) > 0
    decreases |c|
  {
    if |c| > |b| {
      TalkHeeds(b, c[..|c| - 1], id, false);
    }
  }

  /** The same by position: what may not stand before the end of a record that heeds its peer. */
  lemma {:induction false} HeedingMeans(before: seq<Act>, after: seq<Act>, id: int, failed: bool)
    requires Heeding(before, after, id, failed)
    ensures before <= after
    ensures forall i | |before| <= i < |after| && (failed ==> i < |after| - 1) ::
              !EndsTalk(after[i], id) && (Dones(after[..i]) == 0 ==> !EndsData(after[i], id))
    ensures forall i | |before| <= i < |after| :: InTurn(after, i)
    decreases |after|
  {
    if |after| > |before| {
      var n := |after| - 1;
      HeedingMeans(before, after[..n], id, false);
      forall i | |before| <= i < |after| && (failed ==> i < |after| - 1)
        ensures !EndsTalk(after[i], id) && (Dones(after[..i]) == 0 ==> !EndsData(after[i], id))
      {
        if i < n {
          assert after[..n][i] == after[i] && after[..n][..i] == after[..i];
        }
      }
      forall i | |before| <= i < |after| ensures InTurn(after, i) {
        if i < n {
          assert InTurn(after[..n], i);
        }
      }
    }
  }

  /** Our completion, and then only arrivals and echoes. */
  lemma {:induction false} DoneThenTalk(before: seq<Act>, log: seq<Act>, id: int, failed: bool)
    requires Dones(before) == 0 && Silently(before + [Out(Done(id))], log) && before != [] && IsQuiet(before[|before| - 1])
    requires Unended(before + [Out(Done(id))], log, id, false, failed) && Lingered(before + [Out(Done(id))], log, id)
    ensures before <= log && Blocks(log) == Blocks(before) && Dones(log) == 1
    ensures Published(log) == Published(before) + [Done(id)]
    ensures CompletedAt(log, |before|, id, Blocks(before))
    ensures Heeding(before, log, id, failed)
  {
    var sent := before + [Out(Done(id))];
    AppendAct(before, Out(Done(id)));
    HeedsSent(before, before, Done(id), id);
    TalkHeeds(sent, log, id, failed);
    JoinHeeding(before, sent, log, id, failed);
    CompletedHere(before, log, id);
  }

  lemma {:induction false} CompletedHere(before: seq<Act>, log: seq<Act>, id: int)
    requires Dones(before) == 0 && before + [Out(Done(id))] <= log && Lingered(before + [Out(Done(id))], log, id)
    ensures CompletedAt(log, |before|, id, Blocks(before))
  {
    var sent := before + [Out(Done(id))];
    assert log[..|before|] == before && log[|before|] == sent[|before|] && log[..|before| + 1] == sent;
  }

  lemma {:induction false} NothingFinished(log: seq<Act>, id: int)
    requires Dones(log) == 0
    ensures Published(log) == Published(log) + (if Dones(log) == 1 then [Done(id)] else [])
    ensures Heeding(log, log, id, true)
  {
  }

  lemma {:induction false} AnswerSeen(log: seq<Act>, d: nat, id: int)
    requires d < |log| - 1 && LastHeard(log) == Some(DoneFor(id))
    ensures AnsweredAfter(log, d, id)
  {
  }

  // ---------------------------------------------------------------- what an error must be due to

  /** The message the log ends with, if it ends with one. */
  function LastHeard(log: seq<Act>): Option<PeerMsg> {
    if log != [] && log[|log| - 1].In? && log[|log| - 1].event.Incoming? then Some(log[|log| - 1].event.msg) else None
  }

  predicate EndsLate(log: seq<Act>) {
    log != [] && log[|log| - 1].In? &&
    (Late(log[|log| - 1].event) || (log[|log| - 1].event.Quiet? && log[|log| - 1].event.silent))
  }

  predicate EndsBroken(log: seq<Act>) {
    log != [] && log[|log| - 1].In? && (log[|log| - 1].event.Broken? || log[|log| - 1].event.Eof?)
  }

  predicate EndsFlooded(log: seq<Act>) {
    log != [] && log[|log| - 1] == In(Flooded)
  }

  /** An existing target: a digest we answered with a skip because we do not overwrite, or the peer's own skip. */
  predicate TargetExists(log: seq<Act>, id: int, overwrite: bool) {
    var last := LastHeard(log);
    || (last.Some? && last.value.ConfirmFor? && last.value.id == id && last.value.fileNum == 0 && last.value.skip)
    || (!overwrite && log != [] && log[|log| - 1] == Out(SendConfirm(id, true))
        && LastHeard(log[..|log| - 1]) == Some(DigestFor(id, 0)))
  }

  /** What each error of an upload is due to: the last thing that happened, or a resource that ran out. */
  predicate DueTo(e: UploadError, log: seq<Act>, id: int, patience: nat, writable: nat) {
    var last := LastHeard(log);
    match e
    case Stopped => patience == 0
    case Socket => writable == 0 || EndsBroken(log)
    case TimedOut => EndsLate(log)
    case PermissionDenied => last == Some(PermissionOff)
    case Rejected => last == Some(ErrorFor(id))
    case Cancelled => last == Some(CancelFor(id))
    case PeerClosed => last == Some(CloseReason)
    case InvalidData => last == Some(Malformed) || EndsFlooded(log) || (last.Some? && Arrivals(log) > DRAIN_LIMIT)
    case ConfirmationChanged =>
      last.Some? && last.value.ConfirmFor? && last.value.id == id
      && (last.value.skip || last.value.fileNum != 0 || last.value.offset != 0)
    case ResumeOffset =>
      last.Some? && last.value.ConfirmFor? && last.value.id == id && last.value.fileNum == 0 && last.value.offset != 0
    case _ => false
  }

  function Chunk(content: Bytes, k: nat): Bytes {
    var from := if 65536 * k <= |content| then 65536 * k else |content|;
    var to := if 65536 * (k + 1) <= |content| then 65536 * (k + 1) else |content|;
    content[from..to]
  }

  /** The first `n` blocks of a source. */
  function FirstBlocks(id: int, content: Bytes, n: nat): (r: seq<Sent>)
    ensures |r| == n && forall k | 0 <= k < n :: r[k] == Block(id, k, Chunk(content, k))
  {
    seq(n, k requires 0 <= k < n => Block(id, k, Chunk(content, k)))
  }

  function BlockCount(size: nat): nat {
    if size == 0 then 1 else (size + 65535) / 65536
  }

  /** All blocks of a source; an empty source still has one, empty, block. */
  function AllBlocks(id: int, content: Bytes): seq<Sent> {
    FirstBlocks(id, content, BlockCount(|content|))
  }

  function Payload(blocks: seq<Sent>): Bytes {
    if blocks == [] then []
    else Payload(blocks[..|blocks| - 1])
         + (if blocks[|blocks| - 1].Block? then blocks[|blocks| - 1].data else [])
  }

  /** How much of the source the first `n` blocks cover. */
  function Covered(content: Bytes, n: nat): nat {
    if 65536 * n <= |content| then 65536 * n else |content|
  }

  lemma {:induction false} OneMoreBlock(id: int, content: Bytes, n: nat)
    ensures FirstBlocks(id, content, n + 1) == FirstBlocks(id, content, n) + [Block(id, n, Chunk(content, n))]
  {
  }

  lemma {:induction false} PayloadSnoc(blocks: seq<Sent>, b: Sent)
    requires b.Block?
    ensures Payload(blocks + [b]) == Payload(blocks) + b.data
  {
    assert (blocks + [b])[..|blocks + [b]| - 1] == blocks;
  }

  lemma {:induction false} ChunkCovers(content: Bytes, k: nat)
    ensures content[..Covered(content, k)] + Chunk(content, k) == content[..Covered(content, k + 1)]
  {
    var from, to := Covered(content, k), Covered(content, k + 1);
    assert Chunk(content, k) == content[from..to];
    assert content[..from] + content[from..to] == content[..to];
  }

  lemma {:induction false} FirstBlocksPayload(id: int, content: Bytes, n: nat)
    ensures Payload(FirstBlocks(id, content, n)) == content[..Covered(content, n)]
  {
    if n > 0 {
      FirstBlocksPayload(id, content, n - 1);
      OneMoreBlock(id, content, n - 1);
      PayloadSnoc(FirstBlocks(id, content, n - 1), Block(id, n - 1, Chunk(content, n - 1)));
      ChunkCovers(content, n - 1);
    }
  }

  lemma {:induction false} FirstBlocksPrefix(id: int, content: Bytes, n: nat, m: nat)
    requires n <= m
    ensures FirstBlocks(id, content, n) <= FirstBlocks(id, content, m)
  {
  }

  /** The first n blocks of the source were published, and nothing else. */
  ghost predicate PumpedTo(id: int, content: Bytes, before: seq<Act>, after: seq<Act>, n: nat) {
    && before <= after && Dones(after) == Dones(before)
    && Blocks(after) == Blocks(before) + FirstBlocks(id, content, n)
    && Published(after) == Published(before) + FirstBlocks(id, content, n)
  }

  /** A beginning of the source's blocks was published, or (`whole`) all that a source with bytes needs. */
  ghost predicate Pumped(id: int, content: Bytes, before: seq<Act>, after: seq<Act>, whole: bool) {
    && before <= after && Dones(after) == Dones(before) && |Blocks(before)| <= |Blocks(after)|
    && var added := Blocks(after)[|Blocks(before)|..];
       && Blocks(after) == Blocks(before) + added && Published(after) == Published(before) + added
       && added <= AllBlocks(id, content)
       && (whole ==> added == if content == [] then [] else AllBlocks(id, content))
  }

  lemma {:induction false} PumpedNone(id: int, content: Bytes, log: seq<Act>)
    ensures PumpedTo(id, content, log, log, 0)
  {
    assert Blocks(log) + [] == Blocks(log) && Published(log) + [] == Published(log);
  }

  /** One more block, or a failed attempt at it. */
  lemma {:induction false} PumpedMore(id: int, content: Bytes, start: seq<Act>, before: seq<Act>, after: seq<Act>,
                                      k: nat, more: seq<Sent>)
    requires PumpedTo(id, content, start, before, k) && before <= after && Dones(after) == Dones(before)
    requires more == [] || more == [Block(id, k, Chunk(content, k))]
    requires Blocks(after) == Blocks(before) + more && Published(after) == Published(before) + more
    ensures PumpedTo(id, content, start, after, if more == [] then k else k + 1)
  {
    Associate(Blocks(start), FirstBlocks(id, content, k), more);
    Associate(Published(start), FirstBlocks(id, content, k), more);
    assert FirstBlocks(id, content, k) + [] == FirstBlocks(id, content, k);
    OneMoreBlock(id, content, k);
  }

  lemma {:induction false} PumpedPart(id: int, content: Bytes, before: seq<Act>, after: seq<Act>, k: nat)
    requires PumpedTo(id, content, before, after, k) && (k > 0 ==> 65536 * (k - 1) < |content|)
    ensures Pumped(id, content, before, after, false)
  {
    FirstBlocksPrefix(id, content, k, BlockCount(|content|));
    assert Blocks(after)[|Blocks(before)|..] == FirstBlocks(id, content, k);
  }

  lemma {:induction false} PumpedEnd(id: int, content: Bytes, before: seq<Act>, after: seq<Act>, k: nat)
    requires PumpedTo(id, content, before, after, k)
    requires Covered(content, k) == |content| && (k > 0 ==> 65536 * (k - 1) < |content|)
    ensures Pumped(id, content, before, after, true)
  {
    PumpedPart(id, content, before, after, k);
    CountReached(content, k);
    assert Blocks(after)[|Blocks(before)|..] == FirstBlocks(id, content, k);
  }

  /** One more block, unless it failed. */
  ghost predicate OneMoreSent(before: seq<Act>, after: seq<Act>, block: Sent, failed: bool) {
    var more := if failed then [] else [block];
    && before <= after && Dones(after) == Dones(before)
    && Blocks(after) == Blocks(before) + more && Published(after) == Published(before) + more
  }

  /** The data of a source: what was pumped, and for an empty source its one block. */
  ghost predicate DataSent(id: int, content: Bytes, before: seq<Act>, after: seq<Act>, failed: bool) {
    && before <= after && Dones(after) == Dones(before)
    && Blocks(after) <= AllBlocks(id, content) && Published(after) == Published(before) + Blocks(after)
    && (!failed ==> Blocks(after) == AllBlocks(id, content))
  }

  lemma {:induction false} DrainedData(id: int, content: Bytes, before: seq<Act>, after: seq<Act>)
    requires Silently(before, after) && NothingSent(before)
    ensures DataSent(id, content, before, after, true)
  {
  }

  lemma {:induction false} PumpedData(id: int, content: Bytes, before: seq<Act>, after: seq<Act>, whole: bool)
    requires Pumped(id, content, before, after, whole) && Blocks(before) == []
    ensures DataSent(id, content, before, after, !whole || content == [])
  {
    assert Blocks(after)[0..] == Blocks(after);
  }

  lemma {:induction false} EmptyData(id: int, content: Bytes, before: seq<Act>, pumped: seq<Act>, after: seq<Act>,
                                     failed: bool)
    requires content == [] && Pumped(id, content, before, pumped, true) && Blocks(before) == []
    requires OneMoreSent(pumped, after, Block(id, 0, []), failed)
    ensures DataSent(id, content, before, after, failed)
  {
    EmptyBlock(id);
    assert Blocks(pumped)[0..] == Blocks(pumped);
  }

  lemma {:induction false} EmptyBlock(id: int)
    ensures AllBlocks(id, []) == [Block(id, 0, [])]
  {
    assert Chunk([], 0) == [];
  }

  /** A source with bytes needs exactly so many blocks. */
  lemma {:induction false} CountReached(content: Bytes, k: nat)
    requires Covered(content, k) == |content| && (k > 0 ==> 65536 * (k - 1) < |content|)
    ensures k == (|content| + 65535) / 65536
  {
  }

  lemma {:induction false} OneCovered(content: Bytes, k: nat)
    requires Covered(content, k) < |content|
    ensures Covered(content, k) == 65536 * k && Covered(content, k) / 65536 == k && Covered(content, k) % 65536 == 0
    ensures Covered(content, k + 1) ==
            Covered(content, k) + if |content| - Covered(content, k) < 65536 then |content| - Covered(content, k) else 65536
  {
  }

  /** The block count covers the source, and the last block is needed. */
  lemma {:induction false} BlockCountCovers(size: nat)
    ensures var n := BlockCount(size); n >= 1 && 65536 * n >= size && (size > 0 ==> 65536 * (n - 1) < size)
  {
  }

  lemma {:induction false} ChunkSize(content: Bytes, k: nat)
    ensures |Chunk(content, k)| <= BLOCK
    ensures 65536 * k < |content| ==> Chunk(content, k) != []
  {
  }

  /** One block of a transfer: its number is its position, and it is no larger than a block. */
  predicate BlockAt(b: Sent, id: int, k: nat, nonempty: bool) {
    b.Block? && b.id == id && b.index == k && |b.data| <= BLOCK && (nonempty ==> b.data != [])
  }

  /** The blocks are numbered from 0, hold at most 65536 bytes each (and some, unless the source is empty). */
  lemma {:induction false} AllBlocksNumbered(id: int, content: Bytes)
    ensures |AllBlocks(id, content)| >= 1
    ensures forall k: nat | k < |AllBlocks(id, content)| :: BlockAt(AllBlocks(id, content)[k], id, k, content != [])
  {
    var n := BlockCount(|content|);
    BlockCountCovers(|content|);
    forall k: nat | k < n ensures BlockAt(FirstBlocks(id, content, n)[k], id, k, content != []) {
      ChunkSize(content, k);
    }
  }

  /** The blocks concatenate to the source. */
  lemma {:induction false} AllBlocksCarrySource(id: int, content: Bytes)
    ensures Payload(AllBlocks(id, content)) == content
  {
    BlockCountCovers(|content|);
    FirstBlocksPayload(id, content, BlockCount(|content|));
    assert content[..|content|] == content;
  }
}
