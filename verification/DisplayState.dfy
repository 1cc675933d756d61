/** The display machine: the catalogue, the active geometry with its epoch, and the fence around a display switch. */
module DisplayState {
  import opened Prelude

  const MAX_DISPLAYS: nat := 16
  const MAX_RESOLUTIONS: nat := 32

  datatype Resolution = Resolution(width: int, height: int)

  /** What the session shows of one display. */
  datatype Shape = Shape(width: int, height: int, originalWidth: int, originalHeight: int, scaleMilli: int,
                         resolutions: seq<Resolution>)

  datatype Info = Info(display: int, x: int, y: int, name: string, online: bool, cursorEmbedded: bool, shape: Shape)

  /** One display of a PeerInfo; `scale` is its scale in thousandths when that is a positive finite number. */
  datatype PeerDisplay = PeerDisplay(x: int, y: int, width: int, height: int, name: string, online: bool,
                                     cursorEmbedded: bool, originalWidth: int, originalHeight: int, scale: Option<int>)

  datatype PeerInfo = PeerInfo(displays: seq<PeerDisplay>, current: int, resolutions: seq<Resolution>)

  datatype SwitchDisplay = SwitchDisplay(display: int, x: int, y: int, width: int, height: int, cursorEmbedded: bool,
                                         original: Option<Resolution>, resolutions: seq<Resolution>)

  /** RustDeskDisplayState without the peer's identity and feature fields. */
  datatype State = State(current: int, desired: Option<int>, generation: nat, pending: Option<nat>, confirmed: nat,
                         shape: Shape, epoch: nat, displays: seq<Info>)

  const BLANK := Shape(0, 0, 0, 0, 1000, [])
  const INITIAL := State(0, None, 0, None, 0, BLANK, 0, [])

  function Positive(x: int): nat {
    if x > 0 then x else 0
  }

  /** wrapping_add(1).max(1) on u32. */
  function NextEpoch(epoch: nat): (r: nat)
    ensures 1 <= r && (epoch <= U32_MAX ==> r <= U32_MAX && r != epoch)
  {
    if epoch >= U32_MAX then 1 else epoch + 1
  }

  /** wrapping_add(1).max(1) on u64. */
  function NextGeneration(generation: nat): (r: nat)
    ensures 1 <= r
  {
    if generation >= U64_MAX then 1 else generation + 1
  }

  predicate ValidIndex(display: int) {
    0 <= display < MAX_DISPLAYS
  }

  // ---------------------------------------------------------------- looking up

  /** The first entry of that display. */
  function IndexOf(displays: seq<Info>, display: int): (r: Option<nat>)
    ensures r.Some? ==> r.value < |displays| && displays[r.value].display == display
    ensures r.Some? ==> forall k | 0 <= k < r.value :: displays[k].display != display
    ensures r.None? ==> forall k | 0 <= k < |displays| :: displays[k].display != display
  {
    if displays == [] then None
    else
      var before := IndexOf(displays[..|displays| - 1], display);
      if before.Some? then before
      else if displays[|displays| - 1].display == display then Some(|displays| - 1) else None
  }

  function FirstOnline(displays: seq<Info>): (r: Option<nat>)
    ensures r.Some? ==> r.value < |displays| && displays[r.value].online
    ensures r.Some? ==> forall k | 0 <= k < r.value :: !displays[k].online
    ensures r.None? ==> forall k | 0 <= k < |displays| :: !displays[k].online
  {
    if displays == [] then None
    else
      var before := FirstOnline(displays[..|displays| - 1]);
      if before.Some? then before
      else if displays[|displays| - 1].online then Some(|displays| - 1) else None
  }

  predicate Online(displays: seq<Info>, display: int) {
    exists k | 0 <= k < |displays| :: displays[k].display == display && displays[k].online
  }

  function Filtered(resolutions: seq<Resolution>): seq<Resolution> {
    if resolutions == [] then []
    else
      var before, last := Filtered(resolutions[..|resolutions| - 1]), resolutions[|resolutions| - 1];
      if last.width > 0 && last.height > 0 then before + [last] else before
  }

  /** collect_resolutions: the first 32 with positive sides. */
  function Collect(resolutions: seq<Resolution>): seq<Resolution> {
    var kept := Filtered(resolutions);
    if |kept| <= MAX_RESOLUTIONS then kept else kept[..MAX_RESOLUTIONS]
  }

  // ---------------------------------------------------------------- the steps on values

  function FromPeer(index: nat, d: PeerDisplay): Info {
    Info(index, d.x, d.y, d.name, d.online, d.cursorEmbedded,
         Shape(Positive(d.width), Positive(d.height), Positive(d.originalWidth), Positive(d.originalHeight),
               if d.scale.Some? then d.scale.value else 1000, []))
  }

  /** The list a refreshed display keeps: the peer's for its current display, else the one learned before. */
  function KeptResolutions(previous: seq<Info>, info: PeerInfo, index: nat): seq<Resolution> {
    var listed, known := Collect(info.resolutions), IndexOf(previous, index);
    if index == info.current && listed != [] then listed
    else if known.Some? then previous[known.value].shape.resolutions else []
  }

  function WithResolutions(e: Info, resolutions: seq<Resolution>): Info {
    Info(e.display, e.x, e.y, e.name, e.online, e.cursorEmbedded,
         Shape(e.shape.width, e.shape.height, e.shape.originalWidth, e.shape.originalHeight, e.shape.scaleMilli,
               resolutions))
  }

  function Count(info: PeerInfo): (r: nat)
    ensures r <= MAX_DISPLAYS && r <= |info.displays|
  {
    if |info.displays| <= MAX_DISPLAYS then |info.displays| else MAX_DISPLAYS
  }

  /** The catalogue a PeerInfo leads to. */
  function Catalogue(previous: seq<Info>, info: PeerInfo): (r: seq<Info>)
    ensures |r| == Count(info)
    ensures forall k | 0 <= k < |r| ::
              r[k] == WithResolutions(FromPeer(k, info.displays[k]), KeptResolutions(previous, info, k))
  {
    seq(Count(info), k requires 0 <= k < Count(info) =>
          WithResolutions(FromPeer(k, info.displays[k]), KeptResolutions(previous, info, k)))
  }

  /** The display to show: the desired one, the peer's, the first online, the first; each but the last only online. */
  function Choose(displays: seq<Info>, desired: Option<int>, peerCurrent: int): int {
    if desired.Some? && Online(displays, desired.value) then desired.value
    else if Online(displays, peerCurrent) then peerCurrent
    else if FirstOnline(displays).Some? then displays[FirstOnline(displays).value].display
    else if displays != [] then displays[0].display
    else 0
  }

  /** A confirmed target that is no longer online stops being wanted; a pending one stays fenced. */
  function StillDesired(s: State, displays: seq<Info>): Option<int> {
    if s.desired.Some? && !Online(displays, s.desired.value) && s.pending.None? then None else s.desired
  }

  function ShapeOf(displays: seq<Info>, display: int): Shape {
    var at := IndexOf(displays, display);
    if at.Some? then displays[at.value].shape else BLANK
  }

  /** populate_display_state; the epoch is the caller's. */
  function Populate(s: State, info: PeerInfo): State {
    var displays := Catalogue(s.displays, info);
    var current := Choose(displays, s.desired, info.current);
    State(current, StillDesired(s, displays), s.generation, s.pending, s.confirmed, ShapeOf(displays, current), s.epoch,
          displays)
  }

  predicate Changed(before: State, after: State) {
    before.current != after.current || before.shape != after.shape || before.displays != after.displays
  }

  function WithEpoch(s: State, epoch: nat): State {
    State(s.current, s.desired, s.generation, s.pending, s.confirmed, s.shape, epoch, s.displays)
  }

  /** apply_peer_info_geometry */
  function OnPeerInfo(s: State, info: PeerInfo): State {
    var next := Populate(s, info);
    if Changed(s, next) || s.epoch == 0 then WithEpoch(next, NextEpoch(s.epoch)) else next
  }

  /** A known display as a SwitchDisplay describes it; what the message leaves out stays. */
  function Refreshed(e: Info, m: SwitchDisplay): Info {
    var listed := Collect(m.resolutions);
    Info(e.display, m.x, m.y, e.name, true, m.cursorEmbedded,
         Shape(if m.width > 0 then m.width else e.shape.width,
               if m.height > 0 then m.height else e.shape.height,
               if m.original.Some? then Positive(m.original.value.width) else e.shape.originalWidth,
               if m.original.Some? then Positive(m.original.value.height) else e.shape.originalHeight,
               e.shape.scaleMilli,
               if listed != [] then listed else e.shape.resolutions))
  }

  /** A display the catalogue did not list. */
  function Added(s: State, m: SwitchDisplay): Info {
    var original := if m.original.Some? then m.original.value else Resolution(0, 0);
    Info(m.display, m.x, m.y, "", true, m.cursorEmbedded,
         Shape(Positive(m.width), Positive(m.height), Positive(original.width), Positive(original.height),
               if m.display == s.current then s.shape.scaleMilli else 1000, Collect(m.resolutions)))
  }

  function Described(s: State, m: SwitchDisplay): seq<Info> {
    var at := IndexOf(s.displays, m.display);
    if at.Some? then s.displays[at.value := Refreshed(s.displays[at.value], m)] else s.displays + [Added(s, m)]
  }

  /** An acknowledgement in force: the display becomes active and a pending switch is confirmed. */
  function Activate(s: State, displays: seq<Info>, display: int, shape: Shape): State {
    State(display, s.desired, s.generation, None, if s.pending.Some? then s.pending.value else s.confirmed, shape,
          if s.current != display || s.shape != shape then NextEpoch(s.epoch) else s.epoch, displays)
  }

  predicate Stale(s: State, display: int) {
    s.desired.Some? && s.desired.value != display
  }

  /** apply_switch_display_geometry */
  function OnSwitch(s: State, m: SwitchDisplay): State {
    if !ValidIndex(m.display) || Stale(s, m.display) then s
    else
      var displays := Described(s, m);
      Activate(s, displays, m.display, ShapeOf(displays, m.display))
  }

  /** apply_follow_current_display; without a catalogue the last known geometry stays. */
  function OnFollow(s: State, display: int): State {
    if !ValidIndex(display) || Stale(s, display) then s
    else if s.displays == [] then Activate(s, [], display, s.shape)
    else if IndexOf(s.displays, display).None? then s
    else Activate(s, s.displays, display, ShapeOf(s.displays, display))
  }

  /** rustdesk_switch_display: the target and a fresh pending generation together. */
  function OnRequest(s: State, display: int): State {
    if !ValidIndex(display) then s
    else
      var generation := NextGeneration(s.generation);
      State(s.current, Some(display), generation, Some(generation), s.confirmed, s.shape, s.epoch, s.displays)
  }

  // ---------------------------------------------------------------- the machine

  class Machine {
    var current: int
    var desired: Option<int>
    var generation: nat
    var pending: Option<nat>
    var confirmed: nat
    var shape: Shape
    var epoch: nat
    var displays: seq<Info>

    function View(): State
      reads this
    {
      State(current, desired, generation, pending, confirmed, shape, epoch, displays)
    }

    constructor ()
      ensures View() == INITIAL
    {
      current, desired, generation, pending, confirmed, shape, epoch, displays := 0, None, 0, None, 0, BLANK, 0, [];
    }

    /** iter().find() by display index. */
    static method Find(displays: seq<Info>, display: int) returns (at: Option<nat>)
      ensures at == IndexOf(displays, display)
    {
      var k := 0;
      while k < |displays|
        invariant 0 <= k <= |displays|
        invariant forall j | 0 <= j < k :: displays[j].display != display
      {
        if displays[k].display == display {
          return Some(k);
        }
        k := k + 1;
      }
      at := None;
    }

    static method FindOnline(displays: seq<Info>) returns (at: Option<nat>)
      ensures at == FirstOnline(displays)
    {
      var k := 0;
      while k < |displays|
        invariant 0 <= k <= |displays|
        invariant forall j | 0 <= j < k :: !displays[j].online
      {
        if displays[k].online {
          return Some(k);
        }
        k := k + 1;
      }
      at := None;
    }

    static method IsOnline(displays: seq<Info>, display: int) returns (online: bool)
      ensures online == Online(displays, display)
    {
      var k := 0;
      while k < |displays|
        invariant 0 <= k <= |displays|
        invariant forall j | 0 <= j < k :: !(displays[j].display == display && displays[j].online)
      {
        if displays[k].display == display && displays[k].online {
          return true;
        }
        k := k + 1;
      }
      online := false;
    }

    /** The new entries, then the lists learned before, then the peer's list for its current display. */
    static method BuildCatalogue(previous: seq<Info>, info: PeerInfo) returns (built: seq<Info>)
      ensures built == Catalogue(previous, info)
    {
      var bare := Enumerate(info);
      built := [];
      var k := 0;
      while k < |bare|
        invariant 0 <= k <= |bare| && |built| == k
        invariant forall j | 0 <= j < k ::
                    built[j] == WithResolutions(bare[j], KnownResolutions(previous, j))
      {
        var known := Find(previous, k);
        var entry := bare[k];
        if known.Some? {
          entry := WithResolutions(entry, previous[known.value].shape.resolutions);
        }
        built := built + [entry];
        k := k + 1;
      }
      var listed := Collect(info.resolutions);
      var at := Find(built, info.current);
      if at.Some? && listed != [] {
        built := built[at.value := WithResolutions(built[at.value], listed)];
      }
    }

    static method Enumerate(info: PeerInfo) returns (bare: seq<Info>)
      ensures |bare| == Count(info)
      ensures forall k | 0 <= k < |bare| :: bare[k] == FromPeer(k, info.displays[k])
    {
      bare := [];
      var k := 0;
      while k < |info.displays| && k < MAX_DISPLAYS
        invariant 0 <= k <= Count(info) && |bare| == k
        invariant forall j | 0 <= j < k :: bare[j] == FromPeer(j, info.displays[j])
      {
        bare := bare + [FromPeer(k, info.displays[k])];
        k := k + 1;
      }
    }

    static method ChooseDisplay(displays: seq<Info>, desired: Option<int>, peerCurrent: int) returns (chosen: int)
      ensures chosen == Choose(displays, desired, peerCurrent)
    {
      if desired.Some? {
        var wanted := IsOnline(displays, desired.value);
        if wanted {
          return desired.value;
        }
      }
      var offered := IsOnline(displays, peerCurrent);
      if offered {
        return peerCurrent;
      }
      var first := FindOnline(displays);
      if first.Some? {
        return displays[first.value].display;
      }
      chosen := if displays != [] then displays[0].display else 0;
    }

    /** populate_display_state */
    method PopulateDisplayState(info: PeerInfo) returns (changed: bool)
      modifies this`current, this`desired, this`shape, this`displays
      ensures View() == Populate(old(View()), info)
      ensures changed == Changed(old(View()), View())
    {
      var previous, previousCurrent, previousShape := displays, current, shape;
      var built := BuildCatalogue(previous, info);
      var chosen := ChooseDisplay(built, desired, info.current);
      if desired.Some? && pending.None? {
        var wanted := IsOnline(built, desired.value);
        if !wanted {
          desired := None;
        }
      }
      current := chosen;
      displays := built;
      var at := Find(built, chosen);
      if at.Some? {
        shape := built[at.value].shape;
      } else {
        ChosenMissing(built, old(desired), info.current);
        current := 0;
        shape := BLANK;
      }
      changed := previousCurrent != current || previousShape != shape || previous != displays;
    }

    /** apply_peer_info_geometry */
    method ApplyPeerInfo(info: PeerInfo)
      modifies this
      ensures View() == OnPeerInfo(old(View()), info)
    {
      var changed := PopulateDisplayState(info);
      if changed || epoch == 0 {
        epoch := NextEpoch(epoch);
      }
    }

    /** sync_active_display */
    method SyncActiveDisplay(display: int) returns (changed: bool)
      modifies this`current, this`shape
      ensures IndexOf(displays, display).None? ==> !changed && View() == old(View())
      ensures IndexOf(displays, display).Some? ==>
                && current == display && shape == ShapeOf(displays, display)
                && changed == (old(current) != display || old(shape) != shape)
    {
      var at := Find(displays, display);
      if at.None? {
        return false;
      }
      changed := current != display || shape != displays[at.value].shape;
      current := display;
      shape := displays[at.value].shape;
    }

    method ConfirmPending()
      modifies this`pending, this`confirmed
      ensures pending.None?
      ensures confirmed == if old(pending).Some? then old(pending).value else old(confirmed)
    {
      if pending.Some? {
        confirmed := pending.value;
        pending := None;
      }
    }

    /** apply_switch_display_geometry */
    method ApplySwitchDisplay(m: SwitchDisplay)
      modifies this
      ensures View() == OnSwitch(old(View()), m)
    {
      if !ValidIndex(m.display) {
        return;
      }
      if desired.Some? && m.display != desired.value {
        return;
      }
      var at := Find(displays, m.display);
      if at.Some? {
        displays := displays[at.value := Refreshed(displays[at.value], m)];
      } else {
        displays := displays + [Added(View(), m)];
      }
      DescribedListsIt(old(View()), m);
      var changed := SyncActiveDisplay(m.display);
      ConfirmPending();
      if changed {
        epoch := NextEpoch(epoch);
      }
    }

    /** apply_follow_current_display */
    method ApplyFollowCurrent(display: int)
      modifies this
      ensures View() == OnFollow(old(View()), display)
    {
      if !ValidIndex(display) {
        return;
      }
      if desired.Some? && display != desired.value {
        return;
      }
      if displays == [] {
        if current != display {
          current := display;
          epoch := NextEpoch(epoch);
        }
        ConfirmPending();
        return;
      }
      var at := Find(displays, display);
      if at.None? {
        return;
      }
      var changed := SyncActiveDisplay(display);
      ConfirmPending();
      if changed {
        epoch := NextEpoch(epoch);
      }
    }

    /** rustdesk_switch_display */
    method RequestSwitch(display: int) returns (accepted: bool)
      modifies this`desired, this`generation, this`pending
      ensures accepted == ValidIndex(display)
      ensures View() == OnRequest(old(View()), display)
    {
      if !ValidIndex(display) {
        return false;
      }
      generation := NextGeneration(generation);
      desired := Some(display);
      pending := Some(generation);
      accepted := true;
    }
  }

  function KnownResolutions(previous: seq<Info>, index: nat): seq<Resolution> {
    var known := IndexOf(previous, index);
    if known.Some? then previous[known.value].shape.resolutions else []
  }

  /** Only an empty catalogue fails to list the display chosen from it. */
  lemma {:induction false} ChosenMissing(displays: seq<Info>, desired: Option<int>, peerCurrent: int)
    requires IndexOf(displays, Choose(displays, desired, peerCurrent)).None?
    ensures displays == [] && Choose(displays, desired, peerCurrent) == 0
  {
  }

  lemma {:induction false} DescribedListsIt(s: State, m: SwitchDisplay)
    ensures IndexOf(Described(s, m), m.display).Some?
  {
    var at, displays := IndexOf(s.displays, m.display), Described(s, m);
    if at.Some? {
      assert displays[at.value].display == m.display;
    } else {
      assert displays[|displays| - 1].display == m.display;
    }
  }
}
