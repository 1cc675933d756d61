/** Streaming download: the bounded stage file, and what a successful transfer proves about its contents. */
module DownloadProtocol {
  import opened Prelude
  import opened WireFormat

  const MAX_BLOCK: nat := 0x2_0000

  /** A data block as the peer sent it. */
  datatype Raw = Raw(data: Bytes, compressed: bool)

  datatype Entry = Entry(regular: bool, name: string, size: nat, modified: nat)

  datatype PeerMsg =
    | PermissionOff
    | Directory(id: int, path: string, entries: seq<Entry>)
    | Digest(id: int, fileNum: int, isUpload: bool, size: nat, modified: nat)
    | Block(id: int, fileNum: int, raw: Raw)
    | Done(id: int, fileNum: int)
    | ErrorFor(id: int)
    | TestDelay(probe: nat)
    | Malformed
    | Unrelated

  datatype Event = Incoming(msg: PeerMsg) | Quiet | Broken

  /** What a download sends: its request, the confirmation of a digest at offset 0, the echo of a probe. */
  datatype Request = Ask(id: int, path: string) | Confirm(id: int) | Echo(probe: nat)

  datatype DownloadError =
    | Stopped | Socket | PermissionDenied | NotOneFile | SourceChanged | DigestDiffers | UnexpectedBlock
    | UnexpectedCompletion | Rejected | InvalidData | BlockTooLarge | DecodeFailed | ExceedsSize | WriteZero
    | WriteFailed | WrongLength | BadTimestamp | NotFlushed

  type Decoder = Bytes -> Option<Bytes>

  /** What a block stands for: itself, or its bounded decompression. */
  function Decode(decoder: Decoder, raw: Raw): Option<Bytes> {
    if |raw.data| > MAX_BLOCK then None
    else if !raw.compressed then Some(raw.data)
    else
      var decoded := decoder(raw.data);
      if decoded.None? || |decoded.value| > MAX_BLOCK then None else decoded
  }

  /** The concatenation of decoded blocks, in arrival order. */
  function DecodeAll(decoder: Decoder, blocks: seq<Raw>): Option<Bytes> {
    if blocks == [] then Some([])
    else
      var before, last := DecodeAll(decoder, blocks[..|blocks| - 1]), Decode(decoder, blocks[|blocks| - 1]);
      if before.None? || last.None? then None else Some(before.value + last.value)
  }

  // ---------------------------------------------------------------- the sink

  /** How each write to the stage file turns out: it takes at most this many bytes, or fails. */
  datatype WriteResult = Takes(most: nat) | Fails

  /** How finishing the stage file turns out: its length, its time and its flush to disk, in this order. */
  datatype FinishResult = Finishes | TimeOutOfRange | FileFails

  /** What is wrong with the writes to come: one will take nothing, one will fail. */
  datatype Flaws = Flaws(zero: bool, fails: bool)

  ghost function FlawsOf(writes: seq<WriteResult>): Flaws {
    Flaws(Takes(0) in writes, Fails in writes)
  }

  predicate AtMost(a: Flaws, b: Flaws) {
    (a.zero ==> b.zero) && (a.fails ==> b.fails)
  }

  predicate AboutSink(e: DownloadError) {
    e in {BlockTooLarge, DecodeFailed, ExceedsSize, WriteZero, WriteFailed}
  }

  /** What refuses a block: its size or encoding, the room left, or (`weak`) a flaw of the writes. */
  ghost predicate SinkDueTo(e: DownloadError, raw: Raw, decoder: Decoder, room: int, weak: Flaws) {
    match e
    case BlockTooLarge => |raw.data| > MAX_BLOCK
    case DecodeFailed => raw.compressed && Decode(decoder, raw).None?
    case ExceedsSize => Decode(decoder, raw).Some? && |Decode(decoder, raw).value| > room
    case WriteZero => weak.zero
    case WriteFailed => weak.fails
    case _ => false
  }

  class Sink {
    const expected: nat
    const modified: nat
    const decoder: Decoder
    var stage: Bytes            // the stage file
    var written: nat
    var writes: seq<WriteResult>
    var patience: nat           // job checks that will pass
    const finish: FinishResult

    /** The count is the length of the stage file, and neither exceeds what was announced. */
    ghost predicate Valid()
      reads this
    {
      written == |stage| <= expected
    }

    constructor (expected: nat, modified: nat, decoder: Decoder, writes: seq<WriteResult>, patience: nat,
                 finish: FinishResult)
      ensures Valid() && stage == [] && this.expected == expected && this.modified == modified && this.decoder == decoder
    {
      this.finish := finish;
      this.expected := expected;
      this.modified := modified;
      this.decoder := decoder;
      this.writes := writes;
      this.patience := patience;
      stage := [];
      written := 0;
    }

    method CheckJob() returns (error: Option<DownloadError>)
      modifies this`patience
      ensures error.None? || (error == Some(Stopped) && patience == 0)
      ensures if error.None? then patience + 1 == old(patience) else patience == old(patience)
    {
      if patience == 0 {
        return Some(Stopped);
      }
      patience := patience - 1;
      error := None;
    }

    /** One write_at at the current end: some of the bytes, or none. */
    method WriteAt(bytes: Bytes) returns (error: Option<DownloadError>, n: nat)
      requires Valid() && bytes != [] && written + |bytes| <= expected
      modifies this`stage, this`writes
      ensures n <= |bytes| && stage == old(stage) + bytes[..n]
      ensures error.None? || (error == Some(WriteFailed) && n == 0)
      ensures (error.Some? ==> FlawsOf(old(writes)).fails) && (error.None? && n == 0 ==> FlawsOf(old(writes)).zero)
      ensures AtMost(FlawsOf(writes), FlawsOf(old(writes)))
    {
      n := |bytes|;
      error := None;
      if writes != [] {
        assert writes[0] in writes;
        match writes[0] {
          case Takes(most) => n := if most < |bytes| then most else |bytes|;
          case Fails => error, n := Some(WriteFailed), 0;
        }
        writes := writes[1..];
      }
      stage := stage + bytes[..n];
    }

    /** The first half of write_block: the decoded bytes, if they are within the limits and the room left. */
    method Unpack(raw: Raw, ghost weak: Flaws) returns (error: Option<DownloadError>, bytes: Bytes)
      requires Valid()
      ensures error.None? ==> Decode(decoder, raw) == Some(bytes) && |bytes| <= expected - |stage|
      ensures error.Some? ==> error.value in {BlockTooLarge, DecodeFailed, ExceedsSize}
      ensures error.Some? ==> SinkDueTo(error.value, raw, decoder, expected - |stage|, weak)
    {
      bytes := raw.data;
      if |raw.data| > MAX_BLOCK {
        return Some(BlockTooLarge), bytes;
      }
      if raw.compressed {
        var decoded := decoder(raw.data);
        if decoded.None? {
          return Some(DecodeFailed), bytes;
        }
        bytes := decoded.value;
        if |bytes| > MAX_BLOCK {
          return Some(DecodeFailed), bytes;
        }
      }
      error := if |bytes| > expected - written then Some(ExceedsSize) else None;
    }

    /** The second half: all the bytes go to the end of the stage file, despite partial writes. */
    method Append(bytes: Bytes) returns (error: Option<DownloadError>)
      requires Valid() && |bytes| <= expected - |stage|
      modifies this`stage, this`written, this`writes, this`patience
      ensures Valid() && old(stage) <= stage <= old(stage) + bytes
      ensures error.None? ==> stage == old(stage) + bytes
      ensures error.Some? ==>
                if error.value == Stopped then patience == 0
                else if error.value == WriteZero then FlawsOf(old(writes)).zero
                else error.value == WriteFailed && FlawsOf(old(writes)).fails
      ensures AtMost(FlawsOf(writes), FlawsOf(old(writes)))
      ensures patience <= old(patience)
    {
      var offset := 0;
      error := None;
      while offset < |bytes|
        invariant error.None? && 0 <= offset <= |bytes| && Valid()
        invariant stage == old(stage) + bytes[..offset]
        invariant patience <= old(patience)
        invariant AtMost(FlawsOf(writes), FlawsOf(old(writes)))
      {
        error := CheckJob();
        if error.Some? {
          return;
        }
        var n;
        error, n := WriteAt(bytes[offset..]);
        written := written + n;
        assert bytes[..offset] + bytes[offset..][..n] == bytes[..offset + n];
        if error.Some? {
          return;
        }
        if n == 0 {
          return Some(WriteZero);
        }
        offset := offset + n;
      }
    }

    /** write_block: the decoded block is appended whole, or a beginning of it when a write fails. */
    method WriteBlock(raw: Raw, ghost weak: Flaws) returns (error: Option<DownloadError>)
      requires Valid() && AtMost(FlawsOf(writes), weak)
      modifies this`stage, this`written, this`writes, this`patience
      ensures Valid()
      ensures error.None? ==>
                Decode(decoder, raw).Some? && stage == old(stage) + Decode(decoder, raw).value
      ensures error.Some? ==>
                stage == old(stage) ||
                (Decode(decoder, raw).Some? && old(stage) <= stage <= old(stage) + Decode(decoder, raw).value)
      ensures error.Some? ==>
                if error.value == Stopped then patience == 0
                else SinkDueTo(error.value, raw, decoder, expected - |old(stage)|, weak)
      ensures AtMost(FlawsOf(writes), weak)
      ensures error.None? ==> |Decode(decoder, raw).value| <= expected - |old(stage)|
      ensures patience <= old(patience) && (error.None? ==> patience < old(patience))
    {
      error := CheckJob();
      if error.Some? {
        return;
      }
      var bytes;
      error, bytes := Unpack(raw, weak);
      if error.None? {
        error := Append(bytes);
      }
    }

    /** complete: only a stage file of exactly the announced length passes, with its time set and on disk. */
    method Complete() returns (error: Option<DownloadError>)
      requires Valid()
      modifies this`patience
      ensures error.None? ==> |stage| == expected && finish.Finishes? && patience + 2 == old(patience)
      ensures error.Some? ==> Unfinished(error.value)
      ensures patience <= old(patience)
    {
      error := CheckJob();
      if error.Some? {
        return;
      }
      if written != expected || |stage| != expected {
        return Some(WrongLength);
      }
      if finish.TimeOutOfRange? {
        return Some(BadTimestamp);
      }
      if finish.FileFails? {
        return Some(NotFlushed);
      }
      error := CheckJob();
    }

    /** What an error of `Complete` is due to. */
    predicate Unfinished(e: DownloadError)
      reads this
    {
      match e
      case Stopped => patience == 0
      case WrongLength => |stage| != expected
      case BadTimestamp => finish.TimeOutOfRange? && |stage| == expected
      case NotFlushed => finish.FileFails? && |stage| == expected
      case _ => false
    }
  }

  // ---------------------------------------------------------------- the transfer

  /** The blocks of this transfer among what arrived. */
  function OwnBlocks(log: seq<Event>, id: int): seq<Raw> {
    if log == [] then []
    else
      var e := log[|log| - 1];
      OwnBlocks(log[..|log| - 1], id)
      + (if e.Incoming? && e.msg.Block? && e.msg.id == id then [e.msg.raw] else [])
  }

  /** What is downloaded: the wire id, the requested path and its last component, and the announced facts. */
  datatype Target = Target(id: int, path: string, name: string, size: nat, modified: nat, decoder: Decoder)

  /** The reply that names exactly the selected file, unchanged. */
  predicate IsMetadata(e: Event, t: Target) {
    && e.Incoming? && e.msg.Directory? && e.msg.id == t.id && e.msg.path == t.path && |e.msg.entries| == 1
    && e.msg.entries[0].regular && (e.msg.entries[0].name == "" || e.msg.entries[0].name == t.name)
    && e.msg.entries[0].size == t.size && e.msg.entries[0].modified == t.modified
  }

  predicate IsOwnBlock(e: Event, id: int) {
    e.Incoming? && e.msg.Block? && e.msg.id == id
  }

  /** Only the last block may be empty: the one that ends the file. */
  predicate EndsOnce(blocks: seq<Raw>) {
    forall k | 0 <= k < |blocks| - 1 :: blocks[k].data != []
  }

  /** The blocks so far ended with the empty one. */
  predicate Ended(blocks: seq<Raw>) {
    blocks != [] && blocks[|blocks| - 1].data == []
  }

  /** The metadata arrived at `m`, before any block. */
  ghost predicate MetadataAt(log: seq<Event>, t: Target, m: nat) {
    m < |log| && IsMetadata(log[m], t) && OwnBlocks(log[..m], t.id) == []
  }

  ghost predicate HasMetadata(log: seq<Event>, t: Target) {
    exists m: nat :: MetadataAt(log, t, m)
  }

  /** Metadata first, then blocks that decode to the stage file, none after the empty one. */
  ghost predicate Progress(log: seq<Event>, t: Target, stage: Bytes, metadata: bool, ended: bool) {
    var blocks := OwnBlocks(log, t.id);
    && (metadata <==> HasMetadata(log, t))
    && (!metadata ==> blocks == [])
    && DecodeAll(t.decoder, blocks) == Some(stage)
    && EndsOnce(blocks)
    && (ended <==> Ended(blocks))
  }

  /** The stage file holds the accepted blocks, and perhaps a beginning of the last block that arrived. */
  ghost predicate Accounts(log: seq<Event>, t: Target, stage: Bytes) {
    var blocks := OwnBlocks(log, t.id);
    DecodeAll(t.decoder, blocks) == Some(stage) ||
    (blocks != [] &&
     var before, last := DecodeAll(t.decoder, blocks[..|blocks| - 1]), Decode(t.decoder, blocks[|blocks| - 1]);
     before.Some? && (stage == before.value || (last.Some? && before.value <= stage <= before.value + last.value)))
  }

  lemma {:induction false} MetadataKept(log: seq<Event>, e: Event, t: Target)
    requires HasMetadata(log, t)
    ensures HasMetadata(log + [e], t)
  {
    var m: nat :| MetadataAt(log, t, m);
    assert (log + [e])[..m] == log[..m];
    assert MetadataAt(log + [e], t, m);
  }

  /** Metadata is met only when it arrives. */
  lemma {:induction false} MetadataIsNew(log: seq<Event>, e: Event, t: Target)
    requires HasMetadata(log + [e], t) && !HasMetadata(log, t)
    ensures IsMetadata(e, t)
  {
    var m: nat :| MetadataAt(log + [e], t, m);
    if m < |log| {
      assert (log + [e])[..m] == log[..m];
      assert MetadataAt(log, t, m);
    }
  }

  lemma {:induction false} OtherEvent(log: seq<Event>, e: Event, t: Target, stage: Bytes, metadata: bool, ended: bool)
    requires Progress(log, t, stage, metadata, ended)
    requires !IsOwnBlock(e, t.id)
    ensures Progress(log + [e], t, stage, metadata || IsMetadata(e, t), ended)
    ensures Accounts(log + [e], t, stage)
  {
    assert (log + [e])[..|log|] == log;
    assert OwnBlocks(log + [e], t.id) == OwnBlocks(log, t.id) + [];
    assert OwnBlocks(log + [e], t.id) == OwnBlocks(log, t.id);
    if metadata {
      MetadataKept(log, e, t);
    } else if IsMetadata(e, t) {
      assert MetadataAt(log + [e], t, |log|);
    } else if HasMetadata(log + [e], t) {
      MetadataIsNew(log, e, t);
    }
  }

  lemma {:induction false} OwnBlocksSnoc(log: seq<Event>, e: Event, id: int)
    requires IsOwnBlock(e, id)
    ensures OwnBlocks(log + [e], id) == OwnBlocks(log, id) + [e.msg.raw]
    ensures OwnBlocks(log + [e], id)[..|OwnBlocks(log, id)|] == OwnBlocks(log, id)
  {
    assert (log + [e])[..|log|] == log;
  }

  lemma {:induction false} OwnBlocksCount(log: seq<Event>, e: Event, id: int)
    ensures |OwnBlocks(log + [e], id)| == |OwnBlocks(log, id)| + if IsOwnBlock(e, id) then 1 else 0
  {
    assert (log + [e])[..|log|] == log;
  }

  lemma {:induction false} DecodeAllSnoc(decoder: Decoder, blocks: seq<Raw>, raw: Raw)
    requires DecodeAll(decoder, blocks).Some? && Decode(decoder, raw).Some?
    ensures DecodeAll(decoder, blocks + [raw])
         == Some(DecodeAll(decoder, blocks).value + Decode(decoder, raw).value)
  {
    assert (blocks + [raw])[..|blocks|] == blocks;
  }

  lemma {:induction false} EndsOnceSnoc(blocks: seq<Raw>, raw: Raw)
    requires EndsOnce(blocks) && !Ended(blocks)
    ensures EndsOnce(blocks + [raw]) && (Ended(blocks + [raw]) <==> raw.data == [])
  {
    forall k | 0 <= k < |blocks| ensures (blocks + [raw])[k].data != [] {
      assert (blocks + [raw])[k] == blocks[k];
    }
  }

  /** A block that was written whole. */
  lemma {:induction false} BlockEvent(log: seq<Event>, e: Event, t: Target, stage: Bytes)
    requires Progress(log, t, stage, true, false)
    requires IsOwnBlock(e, t.id) && Decode(t.decoder, e.msg.raw).Some?
    ensures Progress(log + [e], t, stage + Decode(t.decoder, e.msg.raw).value, true, e.msg.raw.data == [])
  {
    OwnBlocksSnoc(log, e, t.id);
    MetadataKept(log, e, t);
    DecodeAllSnoc(t.decoder, OwnBlocks(log, t.id), e.msg.raw);
    EndsOnceSnoc(OwnBlocks(log, t.id), e.msg.raw);
  }

  /** A block of which nothing, or a beginning, was written. */
  lemma {:induction false} BlockAccounts(log: seq<Event>, e: Event, t: Target, stage: Bytes, now: Bytes)
    requires DecodeAll(t.decoder, OwnBlocks(log, t.id)) == Some(stage) && IsOwnBlock(e, t.id)
    requires now == stage ||
             (Decode(t.decoder, e.msg.raw).Some? && stage <= now <= stage + Decode(t.decoder, e.msg.raw).value)
    ensures Accounts(log + [e], t, now)
  {
    OwnBlocksSnoc(log, e, t.id);
  }

  // ---------------------------------------------------------------- what a transfer may go on after

  /** The message may arrive after `before` without ending the transfer. */
  ghost predicate Fits(before: seq<Event>, m: PeerMsg, t: Target) {
    match m
    case PermissionOff => false
    case Malformed => false
    case ErrorFor(id) => id != t.id
    case Done(id, _) => id != t.id
    case Directory(id, _, _) => id == t.id ==> !HasMetadata(before, t) && IsMetadata(Incoming(m), t)
    case Digest(id, fileNum, isUpload, size, modified) =>
      id == t.id ==> HasMetadata(before, t) && fileNum == 0 && !isUpload && size == t.size && modified == t.modified
    case Block(id, fileNum, raw) =>
      id == t.id ==>
        && HasMetadata(before, t) && fileNum == 0 && !Ended(OwnBlocks(before, t.id))
        && var stage, data := DecodeAll(t.decoder, OwnBlocks(before, t.id)), Decode(t.decoder, raw);
           stage.Some? && data.Some? && |stage.value| + |data.value| <= t.size
    case _ => true
  }

  /** Everything that arrived fits its place. */
  ghost predicate Orderly(log: seq<Event>, t: Target) {
    log != [] ==>
      var n := |log| - 1;
      Orderly(log[..n], t) && !log[n].Broken? && (log[n].Incoming? ==> Fits(log[..n], log[n].msg, t))
  }

  /** What the arrivals ask for: a confirmation of each digest of this transfer, an echo of each probe. */
  function Replies(log: seq<Event>, id: int): seq<Request> {
    if log == [] then [] else Replies(log[..|log| - 1], id) + ReplyTo(log[|log| - 1], id)
  }

  function ReplyTo(e: Event, id: int): seq<Request> {
    if !e.Incoming? then []
    else if e.msg.TestDelay? then [Echo(e.msg.probe)]
    else if e.msg.Digest? && e.msg.id == id then [Confirm(id)]
    else []
  }

  lemma {:induction false} OrderlySnoc(log: seq<Event>, e: Event, t: Target)
    requires Orderly(log, t) && !e.Broken? && (e.Incoming? ==> Fits(log, e.msg, t))
    ensures Orderly(log + [e], t)
  {
    assert (log + [e])[..|log|] == log;
  }

  lemma {:induction false} RepliesSnoc(log: seq<Event>, e: Event, id: int)
    ensures Replies(log + [e], id) == Replies(log, id) + ReplyTo(e, id)
  {
    assert (log + [e])[..|log|] == log;
  }

  lemma {:induction false} OrderlyAt(log: seq<Event>, t: Target, i: nat)
    requires Orderly(log, t) && i < |log|
    ensures !log[i].Broken? && (log[i].Incoming? ==> Fits(log[..i], log[i].msg, t))
  {
    var n := |log| - 1;
    if i < n {
      OrderlyAt(log[..n], t, i);
      assert log[..n][..i] == log[..i];
    }
  }

  lemma {:induction false} MetadataStays(log: seq<Event>, t: Target, i: nat, j: nat)
    requires i <= j <= |log| && HasMetadata(log[..i], t)
    ensures HasMetadata(log[..j], t)
  {
    var m: nat :| MetadataAt(log[..i], t, m);
    assert log[..i][..m] == log[..j][..m];
    assert MetadataAt(log[..j], t, m);
  }

  /** In an orderly transfer the metadata is met where a directory of it arrives, and only there. */
  lemma {:induction false} DirectoryIsMetadata(log: seq<Event>, t: Target, i: nat)
    requires Orderly(log, t) && i < |log| && log[i].Incoming? && log[i].msg.Directory? && log[i].msg.id == t.id
    ensures !HasMetadata(log[..i], t) && HasMetadata(log[..i + 1], t)
  {
    OrderlyAt(log, t, i);
    NoBlocksBefore(log, t, i);
    assert log[..i + 1][..i] == log[..i];
    assert MetadataAt(log[..i + 1], t, i);
  }

  lemma {:induction false} NoBlocksBefore(log: seq<Event>, t: Target, i: nat)
    requires Orderly(log, t) && i <= |log| && !HasMetadata(log[..i], t)
    ensures OwnBlocks(log[..i], t.id) == []
  {
    if i > 0 {
      if HasMetadata(log[..i - 1], t) {
        MetadataStays(log, t, i - 1, i);
      }
      NoBlocksBefore(log, t, i - 1);
      OrderlyAt(log, t, i - 1);
      assert log[..i][..i - 1] == log[..i - 1];
    }
  }

  /** What each message of an orderly transfer must be like, of this transfer or not. */
  ghost predicate Proper(before: seq<Event>, m: PeerMsg, t: Target) {
    && !m.PermissionOff? && !m.Malformed? && m != ErrorFor(t.id)
    && (m.Directory? && m.id == t.id ==>
          && m.path == t.path && |m.entries| == 1 && m.entries[0].regular
          && (m.entries[0].name == "" || m.entries[0].name == t.name)
          && m.entries[0].size == t.size && m.entries[0].modified == t.modified)
    && (m.Digest? && m.id == t.id ==> m == Digest(t.id, 0, false, t.size, t.modified) && HasMetadata(before, t))
    && (m.Block? && m.id == t.id ==>
          && m.fileNum == 0 && HasMetadata(before, t) && |m.raw.data| <= MAX_BLOCK
          && (m.raw.compressed ==> t.decoder(m.raw.data).Some? && |t.decoder(m.raw.data).value| <= MAX_BLOCK))
  }

  lemma {:induction false} FitsIsProper(before: seq<Event>, m: PeerMsg, t: Target)
    requires Fits(before, m, t)
    ensures Proper(before, m, t)
  {
  }

  /** By position: what an orderly transfer has met, and that it met its directory once at most. */
  lemma {:induction false} OrderlyMeans(log: seq<Event>, t: Target)
    requires Orderly(log, t)
    ensures forall i | 0 <= i < |log| && log[i].Incoming? :: Proper(log[..i], log[i].msg, t)
    ensures forall i, j | 0 <= i < j < |log| && log[i].Incoming? && log[i].msg.Directory? && log[i].msg.id == t.id ::
              !(log[j].Incoming? && log[j].msg.Directory? && log[j].msg.id == t.id)
  {
    forall i | 0 <= i < |log| && log[i].Incoming? ensures Proper(log[..i], log[i].msg, t) {
      OrderlyAt(log, t, i);
      FitsIsProper(log[..i], log[i].msg, t);
    }
    forall i, j | 0 <= i < j < |log| && log[i].Incoming? && log[i].msg.Directory? && log[i].msg.id == t.id
      ensures !(log[j].Incoming? && log[j].msg.Directory? && log[j].msg.id == t.id)
    {
      DirectoryIsMetadata(log, t, i);
      MetadataStays(log, t, i + 1, j);
      OrderlyAt(log, t, j);
    }
  }

  function Joined(chunks: seq<Bytes>): Bytes {
    if chunks == [] then [] else Joined(chunks[..|chunks| - 1]) + chunks[|chunks| - 1]
  }

  /** The block carries the chunk, as it is or in a form that the decoder undoes, within the limits. */
  predicate Carries(decoder: Decoder, raw: Raw, chunk: Bytes) {
    && |raw.data| <= MAX_BLOCK && |chunk| <= MAX_BLOCK
    && if raw.compressed then decoder(raw.data) == Some(chunk) else raw.data == chunk
  }

  /** Blocks that carry the chunks of a file decode to the file, however each of them is encoded. */
  lemma {:induction false} BlocksReassemble(decoder: Decoder, blocks: seq<Raw>, chunks: seq<Bytes>)
    requires |blocks| == |chunks| && forall k | 0 <= k < |blocks| :: Carries(decoder, blocks[k], chunks[k])
    ensures DecodeAll(decoder, blocks) == Some(Joined(chunks))
  {
    if blocks != [] {
      var n := |blocks| - 1;
      BlocksReassemble(decoder, blocks[..n], chunks[..n]);
      assert Carries(decoder, blocks[n], chunks[n]);
    }
  }

  // ---------------------------------------------------------------- what an error must be due to

  /** What each protocol error is due to: the message that arrived last, against what arrived before it. */
  ghost predicate DueTo(e: DownloadError, before: seq<Event>, last: PeerMsg, t: Target) {
    match e
    case InvalidData => last.Malformed?
    case PermissionDenied => last.PermissionOff?
    case Rejected => last == ErrorFor(t.id)
    case NotOneFile =>
      last.Directory? && last.id == t.id && (HasMetadata(before, t) || last.path != t.path || |last.entries| != 1)
    case SourceChanged => last.Directory? && last.id == t.id && !IsMetadata(Incoming(last), t)
    case DigestDiffers =>
      last.Digest? && last.id == t.id
      && (!HasMetadata(before, t) || last != Digest(t.id, 0, false, t.size, t.modified))
    case UnexpectedBlock =>
      last.Block? && last.id == t.id
      && (!HasMetadata(before, t) || last.fileNum != 0 || Ended(OwnBlocks(before, t.id)))
    case UnexpectedCompletion =>
      last.Done? && last.id == t.id && (!HasMetadata(before, t) || !(0 <= last.fileNum <= 1))
    case _ => false
  }

  /** The sink refused a block of this transfer, given the room that the blocks before it had left. */
  ghost predicate BlockRefused(e: DownloadError, before: seq<Event>, last: PeerMsg, t: Target, weak: Flaws) {
    && last.Block? && last.id == t.id
    && DecodeAll(t.decoder, OwnBlocks(before, t.id)).Some?
    && SinkDueTo(e, last.raw, t.decoder, t.size - |DecodeAll(t.decoder, OwnBlocks(before, t.id)).value|, weak)
  }

  /** Every error is due to the message that arrived last, the sink, the socket or the job. */
  ghost predicate Explained(e: DownloadError, before: seq<Event>, last: Event, t: Target, patience: nat, writable: nat,
                            weak: Flaws)
  {
    || (e == Stopped && patience == 0)
    || (e == Socket && (writable == 0 || last.Broken?))
    || (last.Incoming? && BlockRefused(e, before, last.msg, t, weak))
    || (last.Incoming? && DueTo(e, before, last.msg, t))
  }

  lemma {:induction false} SinkRefused(before: seq<Event>, e: Event, t: Target, stage: Bytes, error: DownloadError,
                                       weak: Flaws)
    requires IsOwnBlock(e, t.id) && DecodeAll(t.decoder, OwnBlocks(before, t.id)) == Some(stage)
    requires SinkDueTo(error, e.msg.raw, t.decoder, t.size - |stage|, weak)
    ensures AboutSink(error) && BlockRefused(error, before, e.msg, t, weak)
  {
  }

  /** A transfer that goes on: everything fitted its place and was answered as it asked. */
  ghost predicate Kept(log: seq<Event>, sent: seq<Request>, t: Target) {
    Orderly(log, t) && sent == [Ask(t.id, t.path)] + Replies(log, t.id)
  }

  /** A transfer at any end: so it was before the last arrival, which may not have been answered. */
  ghost predicate Recorded(log: seq<Event>, sent: seq<Request>, t: Target) {
    if log == [] then sent == [] || sent == [Ask(t.id, t.path)]
    else
      var before, asked := log[..|log| - 1], [Ask(t.id, t.path)];
      Orderly(before, t) && (sent == asked + Replies(before, t.id) || sent == asked + Replies(log, t.id))
  }

  lemma {:induction false} KeptIsRecorded(log: seq<Event>, sent: seq<Request>, t: Target)
    requires Kept(log, sent, t)
    ensures Recorded(log, sent, t)
  {
    assert log == [] ==> sent == [Ask(t.id, t.path)];
  }

  /** What one round adds to the record. */
  lemma {:induction false} RoundEnds(before: seq<Event>, e: Event, t: Target, sent: seq<Request>, failed: bool)
    requires Kept(before, sent, t)
    ensures var after, answered := before + [e], if failed then sent else sent + ReplyTo(e, t.id);
            && Recorded(after, answered, t) && after[..|after| - 1] == before
            && (!failed ==> answered == [Ask(t.id, t.path)] + Replies(after, t.id))
            && (!failed && !e.Broken? && (e.Incoming? ==> Fits(before, e.msg, t)) ==> Kept(after, answered, t))
  {
    RepliesSnoc(before, e, t.id);
    assert (before + [e])[..|before|] == before;
    Regroup([Ask(t.id, t.path)], Replies(before, t.id), ReplyTo(e, t.id));
    if !e.Broken? && (e.Incoming? ==> Fits(before, e.msg, t)) {
      OrderlySnoc(before, e, t);
    }
  }

  lemma {:induction false} Regroup(a: seq<Request>, b: seq<Request>, c: seq<Request>)
    ensures a + b + c == a + (b + c)
  {
  }

  /** How the handling of one message ends: keep going, finish the transfer, or fail. */
  datatype Verdict = Continue(metadata: bool, ended: bool) | Finish | Fail(error: DownloadError)

  class Download {
    const t: Target
    const sink: Sink
    var events: seq<Event>
    var log: seq<Event>
    var writable: nat
    var sent: seq<Request>

    constructor (t: Target, sink: Sink, events: seq<Event>, writable: nat)
      ensures this.t == t && this.sink == sink && this.events == events && log == [] && sent == []
    {
      this.t := t;
      this.sink := sink;
      this.events := events;
      this.writable := writable;
      log := [];
      sent := [];
    }

    ghost predicate Valid()
      reads this, sink
    {
      sink.Valid() && sink.expected == t.size && sink.modified == t.modified && sink.decoder == t.decoder
    }

    /** A request, a confirmation or a probe's echo; the socket may fail. */
    method SendControl(request: Request) returns (error: Option<DownloadError>)
      modifies this`writable, this`sent
      ensures error.None? ==> sent == old(sent) + [request]
      ensures error.Some? ==> error.value == Socket && writable == 0 && sent == old(sent)
    {
      if writable == 0 {
        return Some(Socket);
      }
      writable := writable - 1;
      sent := sent + [request];
      error := None;
    }

    /** Whether a directory reply of this transfer is the metadata it waits for. */
    method JudgeDirectory(ghost before: seq<Event>, path: string, entries: seq<Entry>, metadata: bool)
      returns (error: Option<DownloadError>)
      requires Valid() && (metadata <==> HasMetadata(before, t))
      ensures error.None? <==> !metadata && IsMetadata(Incoming(Directory(t.id, path, entries)), t)
      ensures error.Some? ==> DueTo(error.value, before, Directory(t.id, path, entries), t)
    {
      if metadata || path != t.path || |entries| != 1 {
        return Some(NotOneFile);
      }
      var entry := entries[0];
      if !entry.regular || (entry.name != "" && entry.name != t.name)
         || entry.size != sink.expected || entry.modified != sink.modified {
        return Some(SourceChanged);
      }
      error := None;
    }

    /** A digest of this transfer: confirmed at offset 0 when it is the selected source's. */
    method JudgeDigest(ghost before: seq<Event>, fileNum: int, isUpload: bool, size: nat, modified: nat, metadata: bool)
      returns (error: Option<DownloadError>)
      requires Valid() && (metadata <==> HasMetadata(before, t))
      modifies this`writable, this`sent
      ensures error.None? ==>
                Fits(before, Digest(t.id, fileNum, isUpload, size, modified), t) && sent == old(sent) + [Confirm(t.id)]
      ensures error.Some? ==>
                || DueTo(error.value, before, Digest(t.id, fileNum, isUpload, size, modified), t)
                || (error.value == Socket && writable == 0)
      ensures error.Some? ==> sent == old(sent)
    {
      if !metadata || fileNum != 0 || isUpload || size != sink.expected || modified != sink.modified {
        return Some(DigestDiffers);
      }
      error := SendControl(Confirm(t.id));
    }

    method JudgeDone(ghost before: seq<Event>, fileNum: int, metadata: bool) returns (error: Option<DownloadError>)
      requires metadata <==> HasMetadata(before, t)
      ensures error.None? ==> metadata && 0 <= fileNum <= 1
      ensures error.Some? ==> DueTo(error.value, before, Done(t.id, fileNum), t)
    {
      error := if !metadata || !(0 <= fileNum <= 1) then Some(UnexpectedCompletion) else None;
    }

    /** A block in its place is written. */
    method WriteOwnBlock(ghost before: seq<Event>, e: Event, ghost weak: Flaws) returns (error: Option<DownloadError>)
      requires Valid() && IsOwnBlock(e, t.id) && Progress(before, t, sink.stage, true, false)
      requires AtMost(FlawsOf(sink.writes), weak)
      modifies sink
      ensures Valid() && AtMost(FlawsOf(sink.writes), weak)
      ensures error.None? ==> Progress(before + [e], t, sink.stage, true, e.msg.raw.data == [])
      ensures error.None? && e.msg.fileNum == 0 ==> Fits(before, e.msg, t)
      ensures sink.patience <= old(sink.patience) && (error.None? ==> sink.patience < old(sink.patience))
      ensures error.Some? ==> Accounts(before + [e], t, sink.stage)
      ensures error.Some? ==>
                if error.value == Stopped then sink.patience == 0
                else AboutSink(error.value) && BlockRefused(error.value, before, e.msg, t, weak)
    {
      ghost var stage := sink.stage;
      error := sink.WriteBlock(e.msg.raw, weak);
      if error.None? {
        BlockEvent(before, e, t, stage);
      } else {
        BlockAccounts(before, e, t, stage, sink.stage);
        if error.value != Stopped {
          SinkRefused(before, e, t, stage, error.value, weak);
        }
      }
    }

    /** A block of this transfer: refused before the metadata or after the end, else written. */
    method HandleBlock(ghost before: seq<Event>, e: Event, metadata: bool, ended: bool, ghost weak: Flaws)
      returns (v: Verdict)
      requires AtMost(FlawsOf(sink.writes), weak) && Valid()
      requires IsOwnBlock(e, t.id) && Progress(before, t, sink.stage, metadata, ended)
      modifies sink
      ensures Valid() && AtMost(FlawsOf(sink.writes), weak)
      ensures !v.Finish?
      ensures v.Continue? ==> Progress(before + [e], t, sink.stage, v.metadata, v.ended) && Fits(before, e.msg, t)
      ensures sink.patience <= old(sink.patience) && (v.Continue? ==> sink.patience < old(sink.patience))
      ensures v.Fail? ==> Accounts(before + [e], t, sink.stage)
      ensures v.Fail? ==>
                if v.error == Stopped then sink.patience == 0
                else BlockRefused(v.error, before, e.msg, t, weak) || DueTo(v.error, before, e.msg, t)
    {
      if !metadata || e.msg.fileNum != 0 || ended {
        BlockAccounts(before, e, t, sink.stage, sink.stage);
        return Fail(UnexpectedBlock);
      }
      var error := WriteOwnBlock(before, e, weak);
      v := if error.Some? then Fail(error.value) else Continue(true, e.msg.raw.data == []);
    }

    /** A message that is no block of this transfer; it leaves the stage file alone. */
    method HandleControl(ghost before: seq<Event>, msg: PeerMsg, metadata: bool, ended: bool) returns (v: Verdict)
      requires Valid() && !IsOwnBlock(Incoming(msg), t.id) && Progress(before, t, sink.stage, metadata, ended)
      modifies this`writable, this`sent
      ensures v.Continue? ==> v == Continue(metadata || IsMetadata(Incoming(msg), t), ended) && Fits(before, msg, t)
      ensures v.Finish? ==> metadata && msg.Done? && msg.id == t.id && 0 <= msg.fileNum <= 1
      ensures sent == old(sent) + if v.Fail? then [] else ReplyTo(Incoming(msg), t.id)
      ensures v.Fail? ==> DueTo(v.error, before, msg, t) || (v.error == Socket && writable == 0)
    {
      var error := None;
      match msg {
        case Malformed => error := Some(InvalidData);
        case PermissionOff => error := Some(PermissionDenied);
        case TestDelay(probe) => error := SendControl(Echo(probe));
        case Directory(id, path, entries) =>
          if id == t.id {
            error := JudgeDirectory(before, path, entries, metadata);
          }
        case Digest(id, fileNum, isUpload, size, modified) =>
          if id == t.id {
            error := JudgeDigest(before, fileNum, isUpload, size, modified, metadata);
          }
        case Done(id, fileNum) =>
          if id == t.id {
            error := JudgeDone(before, fileNum, metadata);
            if error.None? {
              return Finish;
            }
          }
        case ErrorFor(id) =>
          if id == t.id {
            error := Some(Rejected);
          }
        case Block(_, _, _) =>
        case Unrelated =>
      }
      v := if error.Some? then Fail(error.value)
           else Continue(metadata || (msg.Directory? && msg.id == t.id), ended);
    }

    /** The verdict on an arrival: going on keeps the record in order, finishing needs the closing completion. */
    ghost predicate Judged(v: Verdict, before: seq<Event>, e: Event, metadata: bool, ended: bool, weak: Flaws)
      reads this, sink
    {
      match v
      case Continue(m, d) =>
        && Progress(before + [e], t, sink.stage, m, d) && !e.Broken?
        && (e.Incoming? ==> Fits(before, e.msg, t))
      case Finish =>
        && Progress(before + [e], t, sink.stage, true, ended) && metadata
        && (e == Incoming(Done(t.id, 0)) || e == Incoming(Done(t.id, 1)))
      case Fail(error) =>
        Accounts(before + [e], t, sink.stage) && Explained(error, before, e, t, sink.patience, writable, weak)
    }

    /** One message of the transfer loop. */
    method Handle(ghost before: seq<Event>, msg: PeerMsg, metadata: bool, ended: bool, ghost weak: Flaws)
      returns (v: Verdict)
      requires AtMost(FlawsOf(sink.writes), weak) && Valid() && Progress(before, t, sink.stage, metadata, ended)
      modifies this`writable, this`sent, sink
      ensures Valid() && AtMost(FlawsOf(sink.writes), weak)
      ensures Judged(v, before, Incoming(msg), metadata, ended, weak)
      ensures sent == old(sent) + if v.Fail? then [] else ReplyTo(Incoming(msg), t.id)
      ensures sink.patience <= old(sink.patience)
      ensures IsOwnBlock(Incoming(msg), t.id) && v.Continue? ==> sink.patience < old(sink.patience)
    {
      if IsOwnBlock(Incoming(msg), t.id) {
        v := HandleBlock(before, Incoming(msg), metadata, ended, weak);
      } else {
        v := HandleOther(before, msg, metadata, ended, weak);
      }
    }

    method HandleOther(ghost before: seq<Event>, msg: PeerMsg, metadata: bool, ended: bool, ghost weak: Flaws)
      returns (v: Verdict)
      requires Valid() && !IsOwnBlock(Incoming(msg), t.id) && Progress(before, t, sink.stage, metadata, ended)
      modifies this`writable, this`sent
      ensures Judged(v, before, Incoming(msg), metadata, ended, weak)
      ensures sent == old(sent) + if v.Fail? then [] else ReplyTo(Incoming(msg), t.id)
    {
      OtherEvent(before, Incoming(msg), t, sink.stage, metadata, ended);
      v := HandleControl(before, msg, metadata, ended);
    }

    /** What a successful transfer has met and left, when its last arrival came. */
    ghost predicate Received()
      reads this, sink
    {
      Closing() && |sink.stage| == t.size && sink.finish.Finishes?
    }

    /** What a failed transfer is explained by. */
    ghost predicate FailedFor(error: DownloadError, weak: Flaws)
      reads this, sink
    {
      || sink.Unfinished(error)
      || (error == Socket && writable == 0)
      || (log != [] && Explained(error, log[..|log| - 1], log[|log| - 1], t, sink.patience, writable, weak))
    }

    /**
     * download_file_stream. The stage file never exceeds the announced size and always holds the decoded blocks in
     * arrival order, with at most a beginning of the last one after a failed write. Everything before the last arrival
     * fits its place and was answered as it asked. Success means: matching metadata came first, no block followed the
     * empty one, the closing completion is of this file, and the length is exactly the announced size. Every failure is
     * explained by what arrived last, or by a resource that ran out.
     */
    method Transfer() returns (error: Option<DownloadError>)
      requires Valid() && log == [] && sent == [] && sink.stage == []
      modifies this`events, this`log, this`writable, this`sent, sink
      ensures Valid() && |sink.stage| <= t.size
      ensures Recorded(log, sent, t)
      ensures |log| + sink.patience <= old(sink.patience)
      ensures error.None? ==> |log| + |OwnBlocks(log, t.id)| + 3 + sink.patience <= old(sink.patience)
      ensures error.Some? ==> Accounts(log, t, sink.stage) && FailedFor(error.value, FlawsOf(old(sink.writes)))
      ensures error.None? ==> Received()
    {
      error := sink.CheckJob();
      if error.Some? {
        return;
      }
      error := SendControl(Ask(t.id, t.path));
      if error.Some? {
        return;
      }
      error := Exchange(FlawsOf(sink.writes));
    }

    /** The loop of the transfer, once the request is out. */
    method Exchange(ghost weak: Flaws) returns (error: Option<DownloadError>)
      requires Valid() && log == [] && sent == [Ask(t.id, t.path)] && sink.stage == []
      requires AtMost(FlawsOf(sink.writes), weak)
      modifies this`events, this`log, this`writable, this`sent, sink
      ensures Valid() && Recorded(log, sent, t)
      ensures |log| + sink.patience <= old(sink.patience)
      ensures error.None? ==> |log| + |OwnBlocks(log, t.id)| + 2 + sink.patience <= old(sink.patience)
      ensures error.Some? ==> Accounts(log, t, sink.stage) && FailedFor(error.value, weak)
      ensures error.None? ==> Received()
    {
      var metadata, ended := false, false;
      while true
        invariant Valid() && Progress(log, t, sink.stage, metadata, ended)
        invariant AtMost(FlawsOf(sink.writes), weak)
        invariant Kept(log, sent, t)
        invariant |log| + |OwnBlocks(log, t.id)| + sink.patience <= old(sink.patience)
        decreases |events|
      {
        error := sink.CheckJob();
        KeptIsRecorded(log, sent, t);
        if error.Some? {
          return;
        }
        var v := Round(metadata, ended, weak);
        match v {
          case Continue(m, d) => metadata, ended := m, d;
          case Fail(failure) => return Some(failure);
          case Finish =>
            error := Conclude();
            return;
        }
      }
    }

    /** What a transfer has met when its completion arrives. */
    ghost predicate Closing()
      reads this, sink
    {
      && log != [] && HasMetadata(log[..|log| - 1], t)
      && (log[|log| - 1] == Incoming(Done(t.id, 0)) || log[|log| - 1] == Incoming(Done(t.id, 1)))
      && sent == [Ask(t.id, t.path)] + Replies(log, t.id)
      && DecodeAll(t.decoder, OwnBlocks(log, t.id)) == Some(sink.stage) && EndsOnce(OwnBlocks(log, t.id))
    }

    /** The end of the transfer: the stage file is checked and put on disk. */
    method Conclude() returns (error: Option<DownloadError>)
      requires Valid() && Closing()
      modifies sink`patience
      ensures Valid() && sink.patience <= old(sink.patience)
      ensures error.None? ==> Received() && sink.patience + 2 == old(sink.patience)
      ensures error.Some? ==> sink.Unfinished(error.value)
      ensures Accounts(log, t, sink.stage)
    {
      error := sink.Complete();
    }

    /** One round of the transfer, and the record it leaves. */
    method Round(metadata: bool, ended: bool, ghost weak: Flaws) returns (v: Verdict)
      requires AtMost(FlawsOf(sink.writes), weak) && Valid() && Progress(log, t, sink.stage, metadata, ended)
      requires Kept(log, sent, t)
      modifies this`events, this`log, this`writable, this`sent, sink
      ensures Valid() && AtMost(FlawsOf(sink.writes), weak) && Recorded(log, sent, t)
      ensures |log| == |old(log)| + 1 && log[..|old(log)|] == old(log)
      ensures Judged(v, old(log), log[|old(log)|], metadata, ended, weak)
      ensures v.Continue? ==>
                Kept(log, sent, t) && Progress(log, t, sink.stage, v.metadata, v.ended) && |events| < |old(events)|
      ensures v.Finish? ==> Closing()
      ensures v.Fail? ==> Accounts(log, t, sink.stage)
      ensures sink.patience <= old(sink.patience)
      ensures !v.Fail? ==> |OwnBlocks(log, t.id)| + sink.patience <= |OwnBlocks(old(log), t.id)| + old(sink.patience)
    {
      ghost var before, asked := log, sent;
      assert metadata ==> HasMetadata(before, t);
      v := Next(metadata, ended, weak);
      RoundEnds(before, log[|before|], t, asked, v.Fail?);
      OwnBlocksCount(before, log[|before|], t.id);
    }

    /** The next arrival, and what it means. */
    method Next(metadata: bool, ended: bool, ghost weak: Flaws) returns (v: Verdict)
      requires AtMost(FlawsOf(sink.writes), weak) && Valid() && Progress(log, t, sink.stage, metadata, ended)
      modifies this`events, this`log, this`writable, this`sent, sink
      ensures Valid() && AtMost(FlawsOf(sink.writes), weak)
      ensures |log| == |old(log)| + 1 && log == old(log) + [log[|old(log)|]]
      ensures v.Continue? ==> |events| < |old(events)|
      ensures Judged(v, old(log), log[|old(log)|], metadata, ended, weak)
      ensures sent == old(sent) + if v.Fail? then [] else ReplyTo(log[|old(log)|], t.id)
      ensures sink.patience <= old(sink.patience)
      ensures IsOwnBlock(log[|old(log)|], t.id) && v.Continue? ==> sink.patience < old(sink.patience)
    {
      ghost var before := log;
      var e := Broken;
      if events != [] {
        e := events[0];
        events := events[1..];
      }
      log := log + [e];
      if e.Incoming? {
        v := Handle(before, e.msg, metadata, ended, weak);
      } else {
        v := PassRound(before, e, metadata, ended, weak);
      }
    }

    /** A round that brought no message: the wait goes on, or the stream is broken. */
    method PassRound(ghost before: seq<Event>, e: Event, metadata: bool, ended: bool, ghost weak: Flaws)
      returns (v: Verdict)
      requires Valid() && !e.Incoming? && Progress(before, t, sink.stage, metadata, ended)
      modifies sink`patience
      ensures Judged(v, before, e, metadata, ended, weak) && v.Fail? == e.Broken? && !v.Finish?
      ensures sink.patience <= old(sink.patience)
    {
      OtherEvent(before, e, t, sink.stage, metadata, ended);
      v := Continue(metadata, ended);
      if e.Broken? {
        var error := sink.CheckJob();
        v := Fail(if error.Some? then error.value else Socket);
      }
    }
  }
}
