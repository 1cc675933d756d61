/** What a miss of the cursor cache reports: whether the shape was evicted, and how far back the cache remembers it. */
module CursorHistory {
  import opened Prelude
  import opened WireFormat
  import opened CursorCache

  /** What happens to a shape: it is stored, or evicted to stay within the budget. */
  datatype Event = Stored(id: nat) | Gone(id: nat)

  /** The ids a trim takes out, in order. */
  function TrimGone(c: Cache, budget: nat): seq<Event>
    decreases |c.order|
  {
    if MustEvict(c, budget) then [Gone(c.order[0])] + TrimGone(Evict(c), budget) else []
  }

  function StepEvents(c: Cache, budget: nat, decoder: Decoder, u: Update): seq<Event> {
    if u.PutData? && Accepts(decoder, u.data) then
      [Stored(u.data.id)] + TrimGone(Insert(c, u.data, Decoded(decoder, u.data).value), budget)
    else []
  }

  /** Everything that was stored and evicted during a run. */
  function EventsOf(budget: nat, decoder: Decoder, updates: seq<Update>): seq<Event> {
    if updates == [] then []
    else
      var before := updates[..|updates| - 1];
      EventsOf(budget, decoder, before)
      + StepEvents(RunCache(budget, decoder, before), budget, decoder, updates[|updates| - 1])
  }

  /** How many evictions are recorded from position i on. */
  function GonesFrom(log: seq<Event>, i: nat): nat
    requires i <= |log|
    decreases |log| - i
  {
    if i == |log| then 0 else (if log[i].Gone? then 1 else 0) + GonesFrom(log, i + 1)
  }

  /** The last thing that happened to the shape is the eviction at position i. */
  ghost predicate LastGone(log: seq<Event>, id: nat, i: nat) {
    i < |log| && log[i] == Gone(id) && forall j | i < j < |log| :: log[j].id != id
  }

  ghost predicate LastStored(log: seq<Event>, id: nat, i: nat) {
    i < |log| && log[i] == Stored(id) && forall j | i < j < |log| :: log[j].id != id
  }

  /** Cached is what was stored and not evicted since. */
  ghost predicate Holds(shapes: map<nat, Data>, log: seq<Event>) {
    forall id :: id in shapes <==> exists i: nat :: LastStored(log, id, i)
  }

  lemma {:induction false} LastStoredSnoc(log: seq<Event>, e: Event, id: nat, i: nat)
    ensures LastStored(log + [e], id, i) <==>
            (i == |log| && e == Stored(id)) || (i < |log| && e.id != id && LastStored(log, id, i))
  {
    var more := log + [e];
    if i < |log| {
      assert more[i] == log[i] && more[|log|] == e;
      assert forall j | i < j < |log| :: more[j] == log[j];
    }
  }

  lemma {:induction false} HoldsSnoc(shapes: map<nat, Data>, log: seq<Event>, e: Event, after: map<nat, Data>)
    requires Holds(shapes, log)
    requires forall id :: id in after <==> if id == e.id then e.Stored? else id in shapes
    ensures Holds(after, log + [e])
  {
    var more := log + [e];
    forall id ensures id in after <==> exists i: nat :: LastStored(more, id, i) {
      forall i: nat ensures LastStored(more, id, i) <==>
                            (i == |log| && e == Stored(id)) || (i < |log| && e.id != id && LastStored(log, id, i))
      {
        LastStoredSnoc(log, e, id, i);
      }
      if id == e.id && e.Stored? {
        assert LastStored(more, id, |log|);
      } else if id != e.id && id in shapes {
        var i: nat :| LastStored(log, id, i);
        assert LastStored(more, id, i);
      }
    }
  }

  /** The shape stands in the history, with at most that many newer ones behind it. */
  ghost predicate Within(history: seq<nat>, id: nat, newer: nat) {
    exists p :: 0 <= p < |history| && history[p] == id && |history| - 1 - p <= newer
  }

  /** The history holds evicted shapes only, and every one behind which fewer than 64 evictions followed. */
  ghost predicate Tracks(history: seq<nat>, log: seq<Event>) {
    && Distinct(history) && |history| <= MAX_HISTORY
    && (forall id :: id in history ==> exists i: nat :: LastGone(log, id, i))
    && (forall id, i: nat :: LastGone(log, id, i) && GonesFrom(log, i + 1) < MAX_HISTORY ==>
          Within(history, id, GonesFrom(log, i + 1)))
  }

  lemma {:induction false} GonesSnoc(log: seq<Event>, e: Event, i: nat)
    requires i <= |log|
    ensures GonesFrom(log + [e], i) == GonesFrom(log, i) + if e.Gone? then 1 else 0
    decreases |log| - i
  {
    if i < |log| {
      assert (log + [e])[i] == log[i];
      GonesSnoc(log, e, i + 1);
    }
  }

  lemma {:induction false} LastGoneSnoc(log: seq<Event>, e: Event, id: nat, i: nat)
    ensures LastGone(log + [e], id, i) <==>
            (i == |log| && e == Gone(id)) || (i < |log| && e.id != id && LastGone(log, id, i))
  {
    var more := log + [e];
    if i < |log| {
      assert more[i] == log[i] && more[|log|] == e;
      assert forall j | i < j < |log| :: more[j] == log[j];
    }
  }

  /** Taking one id out brings no other further from the end. */
  lemma {:induction false} RemoveWithin(history: seq<nat>, gone: nat, id: nat, newer: nat)
    requires Within(history, id, newer) && id != gone
    ensures Within(Remove(history, gone), id, newer)
  {
    var p :| 0 <= p < |history| && history[p] == id && |history| - 1 - p <= newer;
    ShorterAfterRemove(history[1..], gone);
    if history[0] == gone {
      assert history[1..][p - 1] == id;
    } else if p == 0 {
      assert Remove(history, gone)[0] == id;
    } else {
      assert history[1..][p - 1] == id && Within(history[1..], id, newer);
      RemoveWithin(history[1..], gone, id, newer);
      var q :| 0 <= q < |Remove(history[1..], gone)| && Remove(history[1..], gone)[q] == id
               && |Remove(history[1..], gone)| - 1 - q <= newer;
      assert Remove(history, gone)[q + 1] == id;
    }
  }

  lemma {:induction false} TracksStored(history: seq<nat>, log: seq<Event>, stored: nat)
    requires Tracks(history, log)
    ensures Tracks(Remove(history, stored), log + [Stored(stored)])
  {
    var after, more := Remove(history, stored), log + [Stored(stored)];
    RemoveFacts(history, stored);
    ShorterAfterRemove(history, stored);
    forall id | id in after ensures exists i: nat :: LastGone(more, id, i) {
      var i: nat :| LastGone(log, id, i);
      LastGoneSnoc(log, Stored(stored), id, i);
      assert LastGone(more, id, i);
    }
    forall id, i: nat | LastGone(more, id, i) && GonesFrom(more, i + 1) < MAX_HISTORY
      ensures Within(after, id, GonesFrom(more, i + 1))
    {
      LastGoneSnoc(log, Stored(stored), id, i);
      GonesSnoc(log, Stored(stored), i + 1);
      RemoveWithin(history, stored, id, GonesFrom(log, i + 1));
    }
  }

  /** One more id at the end, and the first one dropped when the list gets too long. */
  lemma {:induction false} AppendWithin(history: seq<nat>, added: nat, id: nat, newer: nat)
    requires Within(history, id, newer) && |history| <= MAX_HISTORY && newer + 1 < MAX_HISTORY
    ensures var grown := history + [added];
            Within(if |grown| > MAX_HISTORY then grown[1..] else grown, id, newer + 1)
  {
    var p :| 0 <= p < |history| && history[p] == id && |history| - 1 - p <= newer;
    var grown := history + [added];
    assert grown[p] == id;
    if |grown| > MAX_HISTORY {
      assert grown[1..][p - 1] == id;
    }
  }

  lemma {:induction false} TracksGone(history: seq<nat>, log: seq<Event>, gone: nat)
    requires Tracks(history, log)
    ensures Tracks(Remember(history, gone), log + [Gone(gone)])
  {
    var after, more := Remember(history, gone), log + [Gone(gone)];
    RememberFacts(history, gone);
    ShorterAfterRemove(history, gone);
    assert after[|after| - 1] == gone;
    LastGoneSnoc(log, Gone(gone), gone, |log|);
    forall id | id in after ensures exists i: nat :: LastGone(more, id, i) {
      if id != gone {
        var i: nat :| LastGone(log, id, i);
        LastGoneSnoc(log, Gone(gone), id, i);
        assert LastGone(more, id, i);
      } else {
        assert LastGone(more, gone, |log|);
      }
    }
    forall id, i: nat | LastGone(more, id, i) && GonesFrom(more, i + 1) < MAX_HISTORY
      ensures Within(after, id, GonesFrom(more, i + 1))
    {
      LastGoneSnoc(log, Gone(gone), id, i);
      if i < |log| {
        GonesSnoc(log, Gone(gone), i + 1);
        RemoveWithin(history, gone, id, GonesFrom(log, i + 1));
        AppendWithin(Remove(history, gone), gone, id, GonesFrom(log, i + 1));
      }
    }
  }

  lemma {:induction false} TrimTracks(c: Cache, budget: nat, log: seq<Event>)
    requires Tracks(c.evicted, log) && Holds(c.shapes, log)
    ensures Tracks(Trim(c, budget).evicted, log + TrimGone(c, budget))
    ensures Holds(Trim(c, budget).shapes, log + TrimGone(c, budget))
    decreases |c.order|
  {
    if MustEvict(c, budget) {
      TracksGone(c.evicted, log, c.order[0]);
      HoldsSnoc(c.shapes, log, Gone(c.order[0]), Evict(c).shapes);
      TrimTracks(Evict(c), budget, log + [Gone(c.order[0])]);
      Associate(log, [Gone(c.order[0])], TrimGone(Evict(c), budget));
    } else {
      assert log + [] == log;
    }
  }

  lemma {:induction false} RunTracks(budget: nat, decoder: Decoder, updates: seq<Update>)
    requires budget + 2 * MAX_CACHE_BYTES <= U64_MAX
    ensures Tracks(RunCache(budget, decoder, updates).evicted, EventsOf(budget, decoder, updates))
    ensures Holds(RunCache(budget, decoder, updates).shapes, EventsOf(budget, decoder, updates))
  {
    if updates != [] {
      var before, u := updates[..|updates| - 1], updates[|updates| - 1];
      var c, log := RunCache(budget, decoder, before), EventsOf(budget, decoder, before);
      RunTracks(budget, decoder, before);
      if u.PutData? && Accepts(decoder, u.data) {
        var full := Insert(c, u.data, Decoded(decoder, u.data).value);
        TracksStored(c.evicted, log, u.data.id);
        HoldsSnoc(c.shapes, log, Stored(u.data.id), full.shapes);
        TrimTracks(full, budget, log + [Stored(u.data.id)]);
        Associate(log, [Stored(u.data.id)], TrimGone(full, budget));
      } else {
        assert log + [] == log;
        if u.SelectId? {
          LookupReturnsLast(budget, decoder, before, u.id);
        }
      }
    }
  }

  /** The last thing that happened to the shape was an eviction; or that it was stored. */
  ghost predicate WasEvicted(log: seq<Event>, id: nat) {
    exists i: nat :: LastGone(log, id, i)
  }

  ghost predicate WasStored(log: seq<Event>, id: nat) {
    exists i: nat :: LastStored(log, id, i)
  }

  /** The last thing that happened to it was an eviction that 64 others followed, if any. */
  ghost predicate LongGone(log: seq<Event>, id: nat) {
    forall i: nat :: LastGone(log, id, i) ==> GonesFrom(log, i + 1) >= MAX_HISTORY
  }

  lemma {:induction false} HistoryTells(history: seq<nat>, log: seq<Event>, id: nat)
    requires Tracks(history, log)
    ensures if id in history then WasEvicted(log, id) else LongGone(log, id)
  {
    if id in history {
      var i: nat :| LastGone(log, id, i);
    } else {
      forall i: nat | LastGone(log, id, i) ensures GonesFrom(log, i + 1) >= MAX_HISTORY {
        NotWithin(history, id, GonesFrom(log, i + 1));
      }
    }
  }

  lemma {:induction false} NotWithin(history: seq<nat>, id: nat, newer: nat)
    requires id !in history
    ensures !Within(history, id, newer)
  {
  }

  lemma {:induction false} HoldsTells(shapes: map<nat, Data>, log: seq<Event>, id: nat)
    requires Holds(shapes, log)
    ensures id in shapes <==> WasStored(log, id)
  {
  }

  /** Over every run a shape is cached if and only if the last thing that happened to it was that it was stored. */
  lemma {:induction false} CachedIsLastStored(budget: nat, decoder: Decoder, updates: seq<Update>, id: nat)
    requires budget + 2 * MAX_CACHE_BYTES <= U64_MAX
    ensures id in RunCache(budget, decoder, updates).shapes <==> WasStored(EventsOf(budget, decoder, updates), id)
  {
    RunTracks(budget, decoder, updates);
    HoldsTells(RunCache(budget, decoder, updates).shapes, EventsOf(budget, decoder, updates), id);
  }

  /**
   * Over every run, what a miss reports: `BudgetEvicted` only if the last thing that happened to the shape was an
   * eviction, and always if fewer than 64 evictions followed that one; otherwise the shape is pending or unknown.
   */
  lemma {:induction false} MissTellsEvictions(budget: nat, decoder: Decoder, updates: seq<Update>, id: nat)
    requires budget + 2 * MAX_CACHE_BYTES <= U64_MAX && id !in RunCache(budget, decoder, updates).shapes
    ensures var log := EventsOf(budget, decoder, updates);
            var result := Lookup(RunCache(budget, decoder, updates), decoder, id).1;
            || (result == CacheMiss(id, BudgetEvicted) && WasEvicted(log, id))
            || (result == CacheMiss(id, PendingOrUnknown) && LongGone(log, id))
  {
    RunTracks(budget, decoder, updates);
    HistoryTells(RunCache(budget, decoder, updates).evicted, EventsOf(budget, decoder, updates), id);
  }
}
