/** What the display machine keeps over any run of peer messages and local switch requests. */
module DisplayRuns {
  import opened Prelude
  import opened DisplayState

  datatype Op =
    | Refresh(info: PeerInfo)
    | Switch(message: SwitchDisplay)
    | Follow(display: int)
    | Request(display: int)

  function Step(s: State, op: Op): State {
    match op
    case Refresh(info) => OnPeerInfo(s, info)
    case Switch(message) => OnSwitch(s, message)
    case Follow(display) => OnFollow(s, display)
    case Request(display) => OnRequest(s, display)
  }

  function Run(s: State, ops: seq<Op>): State {
    if ops == [] then s else Step(Run(s, ops[..|ops| - 1]), ops[|ops| - 1])
  }

  lemma {:induction false} RunSnoc(s: State, ops: seq<Op>, op: Op)
    ensures Run(s, ops + [op]) == Step(Run(s, ops), op)
  {
    assert (ops + [op])[..|ops|] == ops;
  }

  // ---------------------------------------------------------------- the invariant

  ghost predicate Distinct(displays: seq<Info>) {
    forall i, j | 0 <= i < j < |displays| :: displays[i].display != displays[j].display
  }

  predicate Listing(resolutions: seq<Resolution>) {
    && |resolutions| <= MAX_RESOLUTIONS
    && forall r :: r in resolutions ==> r.width > 0 && r.height > 0
  }

  predicate Sane(shape: Shape) {
    && shape.width >= 0 && shape.height >= 0 && shape.originalWidth >= 0 && shape.originalHeight >= 0
    && Listing(shape.resolutions)
  }

  /** Distinct bounded indices (hence at most 16 entries), no negative size, bounded lists of real resolutions. */
  ghost predicate GoodCatalogue(displays: seq<Info>) {
    && Distinct(displays)
    && |displays| <= MAX_DISPLAYS
    && forall k | 0 <= k < |displays| :: ValidIndex(displays[k].display) && Sane(displays[k].shape)
  }

  /** The active geometry is the entry of the current display. */
  predicate Mirrored(s: State) {
    s.displays != [] ==>
      && IndexOf(s.displays, s.current).Some?
      && s.shape == s.displays[IndexOf(s.displays, s.current).value].shape
  }

  /** A pending switch has a target, and its generation is the last one handed out. */
  predicate Fenced(s: State) {
    s.pending.Some? ==> s.desired.Some? && ValidIndex(s.desired.value) && s.pending.value == s.generation
  }

  ghost predicate Inv(s: State) {
    GoodCatalogue(s.displays) && Sane(s.shape) && Fenced(s) && s.epoch <= U32_MAX
  }

  lemma {:induction false} FilteredIsPositive(resolutions: seq<Resolution>)
    ensures forall r :: r in Filtered(resolutions) <==> r in resolutions && r.width > 0 && r.height > 0
  {
    if resolutions != [] {
      var init, last := resolutions[..|resolutions| - 1], resolutions[|resolutions| - 1];
      FilteredIsPositive(init);
      assert resolutions == init + [last];
    }
  }

  lemma {:induction false} CollectIsListing(resolutions: seq<Resolution>)
    ensures Listing(Collect(resolutions))
  {
    FilteredIsPositive(resolutions);
    assert forall r :: r in Collect(resolutions) ==> r in Filtered(resolutions);
  }

  /** Distinct indices below n are at most n. */
  lemma {:induction false} Pigeonhole(displays: seq<Info>, free: set<int>)
    requires Distinct(displays) && forall k | 0 <= k < |displays| :: displays[k].display in free
    ensures |displays| <= |free|
  {
    if displays != [] {
      var init, last := displays[..|displays| - 1], displays[|displays| - 1];
      assert last.display in free;
      Pigeonhole(init, free - {last.display});
    }
  }

  function Below(n: nat): (r: set<int>)
    ensures |r| == n && forall k :: k in r <==> 0 <= k < n
  {
    if n == 0 then {} else Below(n - 1) + {n - 1}
  }

  lemma {:induction false} AtMostSixteen(displays: seq<Info>)
    requires Distinct(displays) && forall k | 0 <= k < |displays| :: ValidIndex(displays[k].display)
    ensures |displays| <= MAX_DISPLAYS
  {
    Pigeonhole(displays, Below(MAX_DISPLAYS));
  }

  lemma {:induction false} CatalogueIsGood(previous: seq<Info>, info: PeerInfo)
    requires GoodCatalogue(previous)
    ensures GoodCatalogue(Catalogue(previous, info))
  {
    var built := Catalogue(previous, info);
    CollectIsListing(info.resolutions);
    forall k | 0 <= k < |built| ensures ValidIndex(built[k].display) && Sane(built[k].shape) {
      assert built[k] == WithResolutions(FromPeer(k, info.displays[k]), KeptResolutions(previous, info, k));
      assert Listing(KeptResolutions(previous, info, k));
    }
  }

  lemma {:induction false} DescribedIsGood(s: State, m: SwitchDisplay)
    requires GoodCatalogue(s.displays) && Sane(s.shape) && ValidIndex(m.display)
    ensures GoodCatalogue(Described(s, m))
  {
    CollectIsListing(m.resolutions);
    var at, displays := IndexOf(s.displays, m.display), Described(s, m);
    if at.None? {
      assert forall k | 0 <= k < |s.displays| :: displays[k] == s.displays[k];
      AtMostSixteen(displays);
    } else {
      assert displays[at.value].display == s.displays[at.value].display;
    }
  }

  lemma {:induction false} ShapeIsSane(displays: seq<Info>, display: int)
    requires GoodCatalogue(displays)
    ensures Sane(ShapeOf(displays, display))
  {
  }

  /** One step keeps the invariant. */
  lemma {:induction false} StepKeepsInv(s: State, op: Op)
    requires Inv(s)
    ensures Inv(Step(s, op))
  {
    match op
    case Refresh(info) =>
      CatalogueIsGood(s.displays, info);
      ShapeIsSane(Catalogue(s.displays, info), Populate(s, info).current);
    case Switch(m) =>
      if ValidIndex(m.display) && !Stale(s, m.display) {
        DescribedIsGood(s, m);
        ShapeIsSane(Described(s, m), m.display);
      }
    case Follow(d) =>
      ShapeIsSane(s.displays, d);
    case Request(d) =>
  }

  /** A step that takes effect leaves the active geometry on the current display's entry; the others leave it alone. */
  lemma {:induction false} StepKeepsMirror(s: State, op: Op)
    ensures Mirrored(s) ==> Mirrored(Step(s, op))
    ensures op.Refresh? ==> Mirrored(Step(s, op))
    ensures op.Switch? && ValidIndex(op.message.display) && !Stale(s, op.message.display) ==> Mirrored(Step(s, op))
  {
    match op
    case Refresh(info) =>
      var displays := Catalogue(s.displays, info);
      if displays != [] {
        ChosenIsListed(displays, s.desired, info.current);
      }
    case Switch(m) =>
      if ValidIndex(m.display) && !Stale(s, m.display) {
        DescribedListsIt(s, m);
      }
    case Follow(d) =>
    case Request(d) =>
  }

  lemma {:induction false} ChosenIsListed(displays: seq<Info>, desired: Option<int>, peerCurrent: int)
    requires displays != []
    ensures IndexOf(displays, Choose(displays, desired, peerCurrent)).Some?
  {
    if IndexOf(displays, Choose(displays, desired, peerCurrent)).None? {
      ChosenMissing(displays, desired, peerCurrent);
    }
  }

  /** Every run keeps the catalogue, the fence and, once it holds, the mirror. */
  lemma {:induction false} RunKeepsInv(s: State, ops: seq<Op>)
    requires Inv(s)
    ensures Inv(Run(s, ops))
    ensures Mirrored(s) ==> Mirrored(Run(s, ops))
  {
    if ops != [] {
      var init, last := ops[..|ops| - 1], ops[|ops| - 1];
      RunKeepsInv(s, init);
      StepKeepsInv(Run(s, init), last);
      StepKeepsMirror(Run(s, init), last);
    }
  }

  // ---------------------------------------------------------------- where a session starts

  function AtLeastOne(x: int): int {
    if x > 1 then x else 1
  }

  predicate Tiny(s: State) {
    s.shape.width <= 1 || s.shape.height <= 1
  }

  function FirstState(login: Option<PeerInfo>): State {
    if login.Some? then WithEpoch(Populate(INITIAL, login.value), 1) else INITIAL
  }

  /** A session's first state: the login's catalogue at epoch 1, and a fallback size when that one is too small. */
  function Start(login: Option<PeerInfo>, fallback: Resolution): State {
    var s := FirstState(login);
    if !Tiny(s) then s
    else
      var width, height := AtLeastOne(fallback.width), AtLeastOne(fallback.height);
      State(s.current, s.desired, s.generation, s.pending, s.confirmed,
            Shape(width, height, width, height, s.shape.scaleMilli, s.shape.resolutions), NextEpoch(s.epoch), s.displays)
  }

  /** The first display from `k` on that the login reports online; display 0 if there is none. */
  function FirstOnlineAt(info: PeerInfo, k: nat): nat
    requires k <= Count(info)
    decreases Count(info) - k
  {
    if k == Count(info) then 0 else if info.displays[k].online then k else FirstOnlineAt(info, k + 1)
  }

  /** The display a login shows: the peer's current one if it is listed and online, else the first online one. */
  function ShownAtLogin(info: PeerInfo): (r: nat)
    requires Count(info) > 0
    ensures r < Count(info)
  {
    FirstOnlineInRange(info, 0);
    if 0 <= info.current < Count(info) && info.displays[info.current].online then info.current
    else FirstOnlineAt(info, 0)
  }

  lemma {:induction false} FirstOnlineInRange(info: PeerInfo, k: nat)
    requires k <= Count(info)
    ensures FirstOnlineAt(info, k) == 0 || k <= FirstOnlineAt(info, k) < Count(info)
    decreases Count(info) - k
  {
    if k < Count(info) && !info.displays[k].online {
      FirstOnlineInRange(info, k + 1);
    }
  }

  /** With nothing online before k, the scan from k finds what a scan of the catalogue finds. */
  lemma {:induction false} FirstOnlineAgrees(info: PeerInfo, displays: seq<Info>, k: nat)
    requires |displays| == Count(info) && k <= |displays|
    requires forall j | 0 <= j < |displays| :: displays[j].online == info.displays[j].online
    requires forall j | 0 <= j < k :: !displays[j].online
    ensures FirstOnlineAt(info, k) == if FirstOnline(displays).Some? then FirstOnline(displays).value else 0
    decreases |displays| - k
  {
    if k < |displays| && !displays[k].online {
      FirstOnlineAgrees(info, displays, k + 1);
    }
  }

  lemma {:induction false} LoginShows(info: PeerInfo)
    requires Count(info) > 0
    ensures Populate(INITIAL, info).current == ShownAtLogin(info)
    ensures var shape := Populate(INITIAL, info).shape;
            var d := info.displays[ShownAtLogin(info)];
            && shape.width == Positive(d.width) && shape.height == Positive(d.height)
            && shape.originalWidth == Positive(d.originalWidth) && shape.originalHeight == Positive(d.originalHeight)
  {
    var displays := Catalogue([], info);
    assert forall j | 0 <= j < |displays| :: displays[j].display == j && displays[j].online == info.displays[j].online;
    FirstOnlineAgrees(info, displays, 0);
    var at := IndexOf(displays, ShownAtLogin(info));
    assert displays[ShownAtLogin(info)].display == ShownAtLogin(info);
    assert at.Some? && at.value == displays[at.value].display;
  }

  /** The peer reports a display too small to show, and the fallback that replaces its size is another. */
  predicate Replaced(d: PeerDisplay, fallback: Resolution) {
    var width, height := AtLeastOne(fallback.width), AtLeastOne(fallback.height);
    && (d.width <= 1 || d.height <= 1)
    && (d.width != width || d.height != height || d.originalWidth != width || d.originalHeight != height)
  }

  /**
   * The start is sound. It mirrors the catalogue unless the login lists displays and the fallback replaced the size
   * of the one that is shown.
   */
  lemma {:induction false} StartIsGood(login: Option<PeerInfo>, fallback: Resolution)
    ensures var s := Start(login, fallback);
            && Inv(s) && s.epoch >= 1 && s.pending.None?
            && (Mirrored(s) <==>
                login.None? || Count(login.value) == 0 ||
                !Replaced(login.value.displays[ShownAtLogin(login.value)], fallback))
  {
    if login.Some? {
      CatalogueIsGood([], login.value);
      StepKeepsMirror(INITIAL, Refresh(login.value));
      ShapeIsSane(Catalogue([], login.value), Populate(INITIAL, login.value).current);
      if Count(login.value) > 0 {
        LoginShows(login.value);
      }
    }
  }

  /** A login whose display has no size yet starts with a geometry that its catalogue does not show. */
  lemma {:induction false} UnmirroredLogin()
    ensures var d := PeerDisplay(0, 0, 0, 0, "", true, false, 0, 0, None);
            !Mirrored(Start(Some(PeerInfo([d], 0, [])), Resolution(1080, 1920)))
  {
    var d := PeerDisplay(0, 0, 0, 0, "", true, false, 0, 0, None);
    assert ShownAtLogin(PeerInfo([d], 0, [])) == 0;
    StartIsGood(Some(PeerInfo([d], 0, [])), Resolution(1080, 1920));
  }

  // ---------------------------------------------------------------- geometry and epoch

  /** What a consumer of frames calls the active geometry. */
  function Active(s: State): (int, Shape) {
    (s.current, s.shape)
  }

  /** A new active geometry always comes with a new epoch, and the epoch moves one notch at most. */
  lemma {:induction false} StepTicks(s: State, op: Op)
    requires s.epoch <= U32_MAX
    ensures Step(s, op).epoch == s.epoch || Step(s, op).epoch == NextEpoch(s.epoch)
    ensures Active(Step(s, op)) != Active(s) ==> Step(s, op).epoch != s.epoch
  {
    match op
    case Refresh(info) =>
    case Switch(m) =>
    case Follow(d) =>
    case Request(d) =>
  }

  /**
   * Exactly when the epoch moves: when another geometry becomes active, and with a refresh also when the catalogue
   * changes or nothing was ever shown.
   */
  lemma {:induction false} TicksExactly(s: State, op: Op)
    requires s.epoch <= U32_MAX
    ensures Step(s, op).epoch != s.epoch <==>
            || Active(Step(s, op)) != Active(s)
            || (op.Refresh? && (Step(s, op).displays != s.displays || s.epoch == 0))
  {
    match op
    case Refresh(info) =>
    case Switch(m) =>
    case Follow(d) =>
    case Request(d) =>
  }

  /** How often the epoch moved. */
  function Ticks(s: State, ops: seq<Op>): (r: nat)
    ensures r <= |ops|
  {
    if ops == [] then 0
    else
      var init := ops[..|ops| - 1];
      Ticks(s, init) + if Run(s, ops).epoch != Run(s, init).epoch then 1 else 0
  }

  /** Where the epoch stands after t ticks. */
  function EpochAfter(epoch: nat, t: nat): nat {
    if t == 0 then epoch else NextEpoch(EpochAfter(epoch, t - 1))
  }

  /** That many ticks lie between the two, and none only if the geometry is the same. */
  ghost predicate Ticked(start: State, now: State, t: nat) {
    now.epoch == EpochAfter(start.epoch, t) && (t == 0 ==> Active(now) == Active(start))
  }

  lemma {:induction false} TickOnce(start: State, before: State, now: State, t: nat)
    requires Ticked(start, before, t) && before.epoch <= U32_MAX
    requires now.epoch == before.epoch || now.epoch == NextEpoch(before.epoch)
    requires Active(now) != Active(before) ==> now.epoch != before.epoch
    ensures Ticked(start, now, t + if now.epoch != before.epoch then 1 else 0)
  {
  }

  lemma {:induction false} RunTicks(s: State, ops: seq<Op>)
    requires Inv(s)
    ensures Ticked(s, Run(s, ops), Ticks(s, ops))
  {
    if ops != [] {
      var init, last := ops[..|ops| - 1], ops[|ops| - 1];
      var before := Run(s, init);
      RunTicks(s, init);
      RunKeepsInv(s, init);
      StepTicks(before, last);
      TickOnce(s, before, Step(before, last), Ticks(s, init));
    }
  }

  /** The epoch runs through 1 .. 2^32 - 1 and never returns to 0. */
  lemma {:induction false} EpochOnCircle(epoch: nat, t: nat)
    requires 1 <= epoch <= U32_MAX
    ensures EpochAfter(epoch, t) == (epoch - 1 + t) % U32_MAX + 1
  {
    if t > 0 {
      EpochOnCircle(epoch, t - 1);
      CircleNext(epoch - 1 + t - 1);
    }
  }

  lemma {:induction false} CircleNext(a: nat)
    ensures (a + 1) % U32_MAX == if a % U32_MAX == U32_MAX - 1 then 0 else a % U32_MAX + 1
  {
  }

  lemma {:induction false} BackAgain(epoch: nat, t: nat)
    requires 1 <= epoch <= U32_MAX
    ensures EpochAfter(epoch, t) == epoch <==> t % U32_MAX == 0
  {
    EpochOnCircle(epoch, t);
    CircleFrom(epoch - 1, t);
  }

  lemma {:induction false} CircleFrom(a: nat, t: nat)
    requires a < U32_MAX
    ensures (a + t) % U32_MAX == a <==> t % U32_MAX == 0
  {
    assert (a + t) % U32_MAX == (a + t % U32_MAX) % U32_MAX;
  }

  /** Less than a full wrap apart, equal epochs mean no tick at all. */
  lemma {:induction false} NoTickBetween(epoch: nat, t: nat)
    requires epoch <= U32_MAX && t < U32_MAX && EpochAfter(epoch, t) == epoch
    ensures t == 0
  {
    if epoch > 0 {
      BackAgain(epoch, t);
    }
  }

  /** Between two moments of equal epoch, less than a full wrap apart, the active geometry is the same. */
  lemma {:induction false} SameEpochSameGeometry(s: State, ops: seq<Op>)
    requires Inv(s) && Ticks(s, ops) < U32_MAX
    requires Run(s, ops).epoch == s.epoch
    ensures Active(Run(s, ops)) == Active(s)
  {
    RunTicks(s, ops);
    NoTickBetween(s.epoch, Ticks(s, ops));
  }

  /** Equal epochs, that many ticks apart, with different geometries. */
  ghost predicate Hides(s: State, ops: seq<Op>, ticks: nat) {
    && Inv(s) && s.epoch >= 1 && Ticks(s, ops) == ticks
    && Run(s, ops).epoch == s.epoch && Active(Run(s, ops)) != Active(s)
  }

  /** A state that follows the peer freely. */
  predicate Free(s: State) {
    s.displays == [] && s.desired.None? && s.epoch <= U32_MAX
  }

  lemma {:induction false} FollowMoves(s: State, display: int)
    requires Free(s) && ValidIndex(display) && s.current != display
    ensures var next := Step(s, Follow(display));
            Free(next) && next.current == display && next.epoch != s.epoch
  {
  }

  lemma {:induction false} TicksSnoc(s: State, ops: seq<Op>, op: Op)
    ensures Ticks(s, ops + [op]) == Ticks(s, ops) + if Run(s, ops + [op]).epoch != Run(s, ops).epoch then 1 else 0
  {
    assert (ops + [op])[..|ops + [op]| - 1] == ops;
  }

  lemma {:induction false} MoveOn(s: State, before: seq<Op>, display: int)
    requires Free(Run(s, before)) && ValidIndex(display) && Run(s, before).current != display
    ensures var ops := before + [Follow(display)];
            && Free(Run(s, ops)) && Run(s, ops).current == display && Ticks(s, ops) == Ticks(s, before) + 1
  {
    RunSnoc(s, before, Follow(display));
    TicksSnoc(s, before, Follow(display));
    FollowMoves(Run(s, before), display);
  }

  /** A peer without a catalogue can move between displays 0 and 1 any number of times. */
  lemma {:induction false} MovesAbout(s: State, n: nat) returns (ops: seq<Op>)
    requires Free(s) && 0 <= s.current <= 1
    ensures Free(Run(s, ops)) && 0 <= Run(s, ops).current <= 1 && Ticks(s, ops) == n
  {
    ops := [];
    if n > 0 {
      var before := MovesAbout(s, n - 1);
      var display := 1 - Run(s, before).current;
      MoveOn(s, before, display);
      ops := before + [Follow(display)];
    }
  }

  /** Any positive number of full wraps brings back an epoch, at another display. */
  lemma {:induction false} WrapHides(s: State, ticks: nat) returns (ops: seq<Op>)
    requires Free(s) && Inv(s) && 0 <= s.current <= 1 && s.epoch >= 1
    requires ticks > 0 && ticks % U32_MAX == 0
    ensures Hides(s, ops, ticks)
  {
    var before := MovesAbout(s, ticks - 1);
    MoveOn(s, before, 2);
    ops := before + [Follow(2)];
    RunTicks(s, ops);
    BackAgain(s.epoch, ticks);
  }

  /** Exactly how many ticks apart equal epochs can hide a change of geometry: any positive number of full wraps. */
  lemma {:induction false} EpochRepeatsExactly(ticks: nat)
    ensures (exists s, ops :: Hides(s, ops, ticks)) <==> ticks > 0 && ticks % U32_MAX == 0
  {
    forall s, ops | Hides(s, ops, ticks) ensures ticks > 0 && ticks % U32_MAX == 0 {
      RunTicks(s, ops);
      BackAgain(s.epoch, ticks);
    }
    if ticks > 0 && ticks % U32_MAX == 0 {
      var ops := WrapHides(WithEpoch(INITIAL, 1), ticks);
    }
  }

  // ---------------------------------------------------------------- switches and their acknowledgements

  /** The display a message reports as the one now shown. */
  predicate Acknowledges(op: Op, display: int) {
    (op.Switch? && op.message.display == display) || (op.Follow? && op.display == display)
  }

  /** Whether an acknowledgement takes effect; a caller sees it from the state before. */
  predicate InForce(s: State, op: Op) {
    match op
    case Switch(m) => ValidIndex(m.display) && !Stale(s, m.display)
    case Follow(d) => ValidIndex(d) && !Stale(s, d) && (s.displays == [] || IndexOf(s.displays, d).Some?)
    case _ => false
  }

  /** An acknowledgement of any display but the wanted one changes nothing at all. */
  lemma {:induction false} StaleAcknowledgementIgnored(s: State, op: Op, display: int)
    requires s.desired.Some? && s.desired.value != display && Acknowledges(op, display)
    ensures Step(s, op) == s
  {
  }

  /** A pending switch ends exactly with an acknowledgement in force, which is then of the wanted display. */
  lemma {:induction false} PendingEndsExactly(s: State, op: Op)
    requires Inv(s) && s.pending.Some?
    ensures Step(s, op).pending.None? <==> InForce(s, op)
    ensures InForce(s, op) ==>
              && Acknowledges(op, s.desired.value) && Step(s, op).current == s.desired.value
              && Step(s, op).confirmed == s.generation
    ensures !InForce(s, op) ==> Step(s, op).confirmed == s.confirmed
  {
  }

  /** Operation i asked for that display and got that generation, and nobody asked since. */
  predicate LastAsked(s: State, ops: seq<Op>, i: nat, display: int, generation: nat) {
    && i < |ops| && ops[i] == Request(display) && ValidIndex(display)
    && Run(s, ops[..i + 1]).generation == generation
    && forall k | i < k < |ops| :: ops[k].Request? ==> !ValidIndex(ops[k].display)
  }

  /** Operation j acknowledged the display that operation i had asked for under that generation. */
  predicate Answered(s: State, ops: seq<Op>, i: nat, j: nat, display: int, generation: nat) {
    i < j < |ops| && LastAsked(s, ops[..j], i, display, generation) && Acknowledges(ops[j], display)
  }

  lemma {:induction false} LastAskedSnoc(s: State, ops: seq<Op>, op: Op, i: nat, display: int, generation: nat)
    requires LastAsked(s, ops, i, display, generation) && (op.Request? ==> !ValidIndex(op.display))
    ensures LastAsked(s, ops + [op], i, display, generation)
  {
    assert (ops + [op])[..i + 1] == ops[..i + 1];
  }

  lemma {:induction false} JustAsked(s: State, ops: seq<Op>, display: int)
    requires ValidIndex(display)
    ensures LastAsked(s, ops + [Request(display)], |ops|, display, Run(s, ops + [Request(display)]).generation)
  {
    assert (ops + [Request(display)])[..|ops| + 1] == ops + [Request(display)];
  }

  lemma {:induction false} AnsweredSnoc(s: State, ops: seq<Op>, op: Op, i: nat, j: nat, display: int, generation: nat)
    requires Answered(s, ops, i, j, display, generation)
    ensures Answered(s, ops + [op], i, j, display, generation)
  {
    assert (ops + [op])[..j] == ops[..j];
  }

  lemma {:induction false} JustAnswered(s: State, ops: seq<Op>, op: Op, i: nat, display: int, generation: nat)
    requires LastAsked(s, ops, i, display, generation) && Acknowledges(op, display)
    ensures Answered(s, ops + [op], i, |ops|, display, generation)
  {
    assert (ops + [op])[..|ops|] == ops;
  }

  /** A pending generation belongs to the latest request, which asked for the wanted display. */
  ghost predicate PendingIsLatest(s: State, ops: seq<Op>) {
    var now := Run(s, ops);
    now.pending.Some? ==>
      now.desired.Some? && exists i :: LastAsked(s, ops, i, now.desired.value, now.pending.value)
  }

  lemma {:induction false} PendingStaysLatest(s: State, ops: seq<Op>)
    requires Inv(s) && s.pending.None?
    ensures PendingIsLatest(s, ops)
  {
    if ops != [] {
      var init, op := ops[..|ops| - 1], ops[|ops| - 1];
      assert ops == init + [op];
      PendingStaysLatest(s, init);
      RunKeepsInv(s, init);
      var before, now := Run(s, init), Run(s, ops);
      if op.Request? && ValidIndex(op.display) {
        JustAsked(s, init, op.display);
      } else if now.pending.Some? {
        assert now.pending == before.pending && now.desired == before.desired;
        var i :| LastAsked(s, init, i, before.desired.value, before.pending.value);
        LastAskedSnoc(s, init, op, i, before.desired.value, before.pending.value);
      }
    }
  }

  /**
   * A confirmed generation is honest: it was handed out to a request, and confirmed by a later acknowledgement of
   * that very display with no other request in between.
   */
  lemma {:induction false} ConfirmedIsAnswered(s: State, ops: seq<Op>)
    requires Inv(s) && s.pending.None?
    ensures Run(s, ops).confirmed == s.confirmed
         || exists i, j, d :: Answered(s, ops, i, j, d, Run(s, ops).confirmed)
  {
    if ops != [] {
      var init, op := ops[..|ops| - 1], ops[|ops| - 1];
      assert ops == init + [op];
      ConfirmedIsAnswered(s, init);
      RunKeepsInv(s, init);
      var before := Run(s, init);
      if before.pending.Some? && InForce(before, op) {
        PendingStaysLatest(s, init);
        PendingEndsExactly(before, op);
        var i :| LastAsked(s, init, i, before.desired.value, before.pending.value);
        JustAnswered(s, init, op, i, before.desired.value, before.pending.value);
      } else if before.confirmed != s.confirmed {
        var i, j, d :| Answered(s, init, i, j, d, before.confirmed);
        AnsweredSnoc(s, init, op, i, j, d, before.confirmed);
      }
    }
  }

  // ---------------------------------------------------------------- a switch that lasts

  /** The peer's refresh lists the display among the first sixteen, online. */
  predicate ListsOnline(info: PeerInfo, display: int) {
    0 <= display < Count(info) && info.displays[display].online
  }

  lemma {:induction false} OnlineInCatalogue(previous: seq<Info>, info: PeerInfo, display: int)
    ensures Online(Catalogue(previous, info), display) <==> ListsOnline(info, display)
  {
    var built := Catalogue(previous, info);
    if ListsOnline(info, display) {
      assert built[display].display == display && built[display].online;
    }
  }

  predicate Settled(s: State, display: int) {
    s.desired == Some(display) && s.current == display
  }

  /** Nothing but a request, or a refresh without the display, moves the session away from a reached target. */
  lemma {:induction false} SwitchLasts(s: State, ops: seq<Op>, display: int)
    requires Settled(s, display)
    requires forall k | 0 <= k < |ops| :: !ops[k].Request? && (ops[k].Refresh? ==> ListsOnline(ops[k].info, display))
    ensures Settled(Run(s, ops), display)
  {
    if ops != [] {
      var init, op := ops[..|ops| - 1], ops[|ops| - 1];
      SwitchLasts(s, init, display);
      if op.Refresh? {
        OnlineInCatalogue(Run(s, init).displays, op.info, display);
      }
    }
  }

  /** After a confirmed switch, a refresh keeps the target exactly when it lists it online. */
  lemma {:induction false} RefreshReleasesExactly(s: State, info: PeerInfo, display: int)
    requires Settled(s, display) && s.pending.None?
    ensures Settled(OnPeerInfo(s, info), display) <==> ListsOnline(info, display)
    ensures !ListsOnline(info, display) ==> OnPeerInfo(s, info).desired.None?
  {
    OnlineInCatalogue(s.displays, info, display);
  }

  /** While a switch is pending its target stays wanted, whatever the peer lists. */
  lemma {:induction false} PendingTargetStays(s: State, ops: seq<Op>)
    requires Inv(s) && s.pending.Some?
    requires forall k | 0 <= k < |ops| :: !ops[k].Request?
    ensures Run(s, ops).pending.Some? ==> Run(s, ops).pending == s.pending && Run(s, ops).desired == s.desired
    ensures Run(s, ops).pending.None? ==> Run(s, ops).confirmed == s.pending.value
  {
    if ops != [] {
      var init, op := ops[..|ops| - 1], ops[|ops| - 1];
      PendingTargetStays(s, init);
      RunKeepsInv(s, init);
      if Run(s, init).pending.Some? {
        PendingEndsExactly(Run(s, init), op);
      }
    }
  }

  // ---------------------------------------------------------------- what a message shows

  /** The first entry is the only one in a catalogue of distinct displays. */
  lemma {:induction false} IndexUnique(displays: seq<Info>, k: nat)
    requires Distinct(displays) && k < |displays|
    ensures IndexOf(displays, displays[k].display) == Some(k)
  {
  }

  /** A switch in force shows the display and the sizes it describes. */
  lemma {:induction false} SwitchTakesEffect(s: State, m: SwitchDisplay)
    requires Inv(s) && ValidIndex(m.display) && !Stale(s, m.display)
    ensures var t := OnSwitch(s, m);
            && t.current == m.display && Online(t.displays, m.display)
            && (m.width > 0 ==> t.shape.width == m.width) && (m.height > 0 ==> t.shape.height == m.height)
            && (m.original.Some? ==> t.shape.originalWidth == Positive(m.original.value.width)
                                     && t.shape.originalHeight == Positive(m.original.value.height))
            && (Collect(m.resolutions) != [] ==> t.shape.resolutions == Collect(m.resolutions))
            && var e := t.displays[IndexOf(t.displays, m.display).value];
               && e.x == m.x && e.y == m.y && e.cursorEmbedded == m.cursorEmbedded && e.online && e.shape == t.shape
  {
    DescribedListsIt(s, m);
    var displays, at := Described(s, m), IndexOf(s.displays, m.display);
    assert displays[IndexOf(displays, m.display).value].online;
    if at.Some? {
      DescribedIsGood(s, m);
      assert displays[at.value].display == m.display;
      IndexUnique(displays, at.value);
    }
  }

  /** What a switch leaves out stays as it was: a size that is not positive, an original size, a list of resolutions. */
  lemma {:induction false} SwitchKeepsTheRest(s: State, m: SwitchDisplay)
    requires Inv(s) && ValidIndex(m.display) && !Stale(s, m.display) && IndexOf(s.displays, m.display).Some?
    ensures var t, before := OnSwitch(s, m), ShapeOf(s.displays, m.display);
            && (m.width <= 0 ==> t.shape.width == before.width) && (m.height <= 0 ==> t.shape.height == before.height)
            && (m.original.None? ==> t.shape.originalWidth == before.originalWidth
                                     && t.shape.originalHeight == before.originalHeight)
            && (Collect(m.resolutions) == [] ==> t.shape.resolutions == before.resolutions)
            && t.shape.scaleMilli == before.scaleMilli && |t.displays| == |s.displays|
            && var k := IndexOf(s.displays, m.display).value;
               t.displays[k].display == m.display && t.displays[k].name == s.displays[k].name
  {
    var displays, at := Described(s, m), IndexOf(s.displays, m.display).value;
    DescribedIsGood(s, m);
    assert displays[at].display == m.display;
    IndexUnique(displays, at);
  }

  /**
   * A display that no refresh listed is added behind the others, without a name, at the scale on show if it is the current
   * one and at 1000 thousandths if not.
   */
  lemma {:induction false} SwitchAdds(s: State, m: SwitchDisplay)
    requires Inv(s) && ValidIndex(m.display) && !Stale(s, m.display) && IndexOf(s.displays, m.display).None?
    ensures var t, n := OnSwitch(s, m), |s.displays|;
            && |t.displays| == n + 1 && t.displays[..n] == s.displays
            && t.displays[n].display == m.display && t.displays[n].name == "" && t.shape == t.displays[n].shape
            && t.shape.scaleMilli == (if m.display == s.current then s.shape.scaleMilli else 1000)
            && t.shape.resolutions == Collect(m.resolutions)
            && (m.width <= 0 ==> t.shape.width == 0) && (m.height <= 0 ==> t.shape.height == 0)
            && (m.original.None? ==> t.shape.originalWidth == 0 && t.shape.originalHeight == 0)
  {
    var displays, n := Described(s, m), |s.displays|;
    DescribedIsGood(s, m);
    assert displays[n].display == m.display;
    IndexUnique(displays, n);
  }

  /** It leaves every other entry alone. */
  lemma {:induction false} SwitchSparesOthers(s: State, m: SwitchDisplay, other: int)
    requires Inv(s) && ValidIndex(m.display) && other != m.display
    ensures IndexOf(OnSwitch(s, m).displays, other) == IndexOf(s.displays, other)
    ensures ShapeOf(OnSwitch(s, m).displays, other) == ShapeOf(s.displays, other)
  {
    var displays, at := Described(s, m), IndexOf(s.displays, other);
    DescribedIsGood(s, m);
    if at.Some? {
      assert displays[at.value] == s.displays[at.value];
      IndexUnique(displays, at.value);
    } else {
      StillAbsent(s, m, other);
    }
  }

  lemma {:induction false} StillAbsent(s: State, m: SwitchDisplay, other: int)
    requires IndexOf(s.displays, other).None? && other != m.display
    ensures IndexOf(Described(s, m), other).None?
  {
    var displays := Described(s, m);
    forall k | 0 <= k < |displays| ensures displays[k].display != other {
      assert k < |s.displays| ==> displays[k].display == s.displays[k].display;
    }
  }

  /** A refresh shows one of the displays it lists, with the sizes it gives. */
  lemma {:induction false} RefreshTakesEffect(s: State, info: PeerInfo)
    requires info.displays != []
    ensures var t := OnPeerInfo(s, info);
            && 0 <= t.current < Count(info) && |t.displays| == Count(info)
            && var d := info.displays[t.current];
               && t.shape.width == Positive(d.width) && t.shape.height == Positive(d.height)
               && t.shape.originalWidth == Positive(d.originalWidth)
               && t.shape.originalHeight == Positive(d.originalHeight)
               && t.shape.scaleMilli == (if d.scale.Some? then d.scale.value else 1000)
  {
    var displays := Catalogue(s.displays, info);
    ChosenIsListed(displays, s.desired, info.current);
    var at := IndexOf(displays, Choose(displays, s.desired, info.current)).value;
    assert displays[at].display == at;
  }

  /** The refresh lists the display, and as online. */
  predicate ListedOnline(info: PeerInfo, display: int) {
    0 <= display < Count(info) && info.displays[display].online
  }

  lemma {:induction false} OnlineIsListed(previous: seq<Info>, info: PeerInfo, display: int)
    ensures Online(Catalogue(previous, info), display) <==> ListedOnline(info, display)
  {
    var built := Catalogue(previous, info);
    if ListedOnline(info, display) {
      assert built[display].display == display && built[display].online;
    }
  }

  /** The first display a catalogue has online is the first the refresh lists so. */
  lemma {:induction false} FirstIsListed(previous: seq<Info>, info: PeerInfo)
    ensures var first := FirstOnline(Catalogue(previous, info));
            if first.Some? then
              && first.value < Count(info) && Catalogue(previous, info)[first.value].display == first.value
              && ListedOnline(info, first.value) && forall k | 0 <= k < first.value :: !ListedOnline(info, k)
            else forall k :: !ListedOnline(info, k)
  {
    var built := Catalogue(previous, info);
    assert forall k | 0 <= k < |built| :: built[k].display == k && built[k].online == info.displays[k].online;
  }

  /**
   * Which display a refresh shows: the wanted one if it is online, else the peer's current one if that is, else the
   * first that is, else the first.
   */
  lemma {:induction false} RefreshChooses(s: State, info: PeerInfo)
    ensures var shown := OnPeerInfo(s, info).current;
            if s.desired.Some? && ListedOnline(info, s.desired.value) then shown == s.desired.value
            else if ListedOnline(info, info.current) then shown == info.current
            else if exists k :: ListedOnline(info, k) then
              ListedOnline(info, shown) && forall k | 0 <= k < shown :: !ListedOnline(info, k)
            else shown == 0
  {
    OnlineIsListed(s.displays, info, info.current);
    if s.desired.Some? {
      OnlineIsListed(s.displays, info, s.desired.value);
    }
    FirstIsListed(s.displays, info);
    if Count(info) > 0 {
      assert Catalogue(s.displays, info)[0].display == 0;
    }
  }

  /** Every entry of a refreshed catalogue says what the peer says of the display at its position. */
  lemma {:induction false} RefreshDescribes(s: State, info: PeerInfo, k: nat)
    requires k < Count(info)
    ensures |OnPeerInfo(s, info).displays| == Count(info)
    ensures var e, d := OnPeerInfo(s, info).displays[k], info.displays[k];
            && e.display == k && e.x == d.x && e.y == d.y && e.name == d.name && e.online == d.online
            && e.cursorEmbedded == d.cursorEmbedded
            && e.shape.width == Positive(d.width) && e.shape.height == Positive(d.height)
            && e.shape.originalWidth == Positive(d.originalWidth) && e.shape.originalHeight == Positive(d.originalHeight)
            && e.shape.scaleMilli == (if d.scale.Some? then d.scale.value else 1000)
  {
  }

  // ---------------------------------------------------------------- the number of a request

  /** How many requests of a display in range there were. */
  function Requests(ops: seq<Op>): nat {
    if ops == [] then 0
    else
      var last := ops[|ops| - 1];
      Requests(ops[..|ops| - 1]) + if last.Request? && 0 <= last.display < 16 then 1 else 0
  }

  /** Where the generation stands after t requests. */
  function GenerationAfter(t: nat): nat {
    if t == 0 then 0 else (t - 1) % 0xffff_ffff_ffff_ffff + 1
  }

  lemma {:induction false} NextOnCircle(t: nat)
    ensures NextGeneration(GenerationAfter(t)) == GenerationAfter(t + 1)
  {
    if t > 0 {
      var a := (t - 1) % 0xffff_ffff_ffff_ffff;
      assert t % 0xffff_ffff_ffff_ffff == (a + 1) % 0xffff_ffff_ffff_ffff;
    }
  }

  lemma {:induction false} OnlyRequestsCount(s: State, op: Op)
    ensures Step(s, op).generation ==
            if op.Request? && 0 <= op.display < 16 then NextGeneration(s.generation) else s.generation
  {
    match op
    case Refresh(info) =>
    case Switch(m) =>
    case Follow(d) =>
    case Request(d) =>
  }

  /** Over every run from the start the generation counts the requests, from 1 to 2^64 - 1 and from 1 again. */
  lemma {:induction false} GenerationCounts(ops: seq<Op>)
    ensures Run(INITIAL, ops).generation == GenerationAfter(Requests(ops))
  {
    if ops != [] {
      var before, last := ops[..|ops| - 1], ops[|ops| - 1];
      GenerationCounts(before);
      OnlyRequestsCount(Run(INITIAL, before), last);
      NextOnCircle(Requests(before));
    }
  }

  // ---------------------------------------------------------------- learned resolutions

  predicate Usable(r: Resolution) {
    r.width > 0 && r.height > 0
  }

  /** The positions of the usable resolutions, in order. */
  ghost predicate UsablePositions(resolutions: seq<Resolution>, positions: seq<nat>) {
    && (forall i, j | 0 <= i < j < |positions| :: positions[i] < positions[j])
    && (forall p: nat :: p in positions <==> p < |resolutions| && Usable(resolutions[p]))
  }

  lemma {:induction false} PositionsSnoc(resolutions: seq<Resolution>, earlier: seq<nat>)
    requires resolutions != [] && UsablePositions(resolutions[..|resolutions| - 1], earlier)
    ensures var n := |resolutions| - 1;
            UsablePositions(resolutions, if Usable(resolutions[n]) then earlier + [n] else earlier)
  {
    var n := |resolutions| - 1;
    var positions := if Usable(resolutions[n]) then earlier + [n] else earlier;
    forall k | 0 <= k < |earlier| ensures earlier[k] < n {
      assert earlier[k] in earlier;
    }
    forall p: nat ensures p in positions <==> p < |resolutions| && Usable(resolutions[p]) {
      if p < n {
        assert resolutions[..n][p] == resolutions[p];
      }
      assert p in earlier + [n] <==> p in earlier || p == n;
    }
  }

  /** The k-th of the list stands at the k-th position. */
  ghost predicate Standing(list: seq<Resolution>, resolutions: seq<Resolution>, positions: seq<nat>) {
    && |list| <= |positions|
    && forall k | 0 <= k < |list| :: positions[k] < |resolutions| && list[k] == resolutions[positions[k]]
  }

  lemma {:induction false} StandingSnoc(list: seq<Resolution>, resolutions: seq<Resolution>, last: Resolution,
                                        positions: seq<nat>, taken: bool)
    requires Standing(list, resolutions, positions) && |list| == |positions|
    ensures Standing(if taken then list + [last] else list, resolutions + [last],
                     if taken then positions + [|resolutions|] else positions)
  {
  }

  lemma {:induction false} FilteredByPosition(resolutions: seq<Resolution>) returns (positions: seq<nat>)
    ensures UsablePositions(resolutions, positions)
    ensures |Filtered(resolutions)| == |positions| && Standing(Filtered(resolutions), resolutions, positions)
  {
    if resolutions == [] {
      positions := [];
    } else {
      var n, init := |resolutions| - 1, resolutions[..|resolutions| - 1];
      var earlier := FilteredByPosition(init);
      PositionsSnoc(resolutions, earlier);
      positions := if Usable(resolutions[n]) then earlier + [n] else earlier;
      FilteredSnoc(resolutions, earlier, positions);
    }
  }

  lemma {:induction false} FilteredSnoc(resolutions: seq<Resolution>, earlier: seq<nat>, positions: seq<nat>)
    requires resolutions != []
    requires var init, kept := resolutions[..|resolutions| - 1], Filtered(resolutions[..|resolutions| - 1]);
             |kept| == |earlier| && Standing(kept, init, earlier)
    requires positions == if Usable(resolutions[|resolutions| - 1]) then earlier + [|resolutions| - 1] else earlier
    ensures |Filtered(resolutions)| == |positions| && Standing(Filtered(resolutions), resolutions, positions)
  {
    var n, init := |resolutions| - 1, resolutions[..|resolutions| - 1];
    var kept := Filtered(init);
    assert init + [resolutions[n]] == resolutions;
    if Usable(resolutions[n]) {
      StandingSnoc(kept, init, resolutions[n], earlier, true);
      assert Filtered(resolutions) == kept + [resolutions[n]];
    } else {
      StandingSnoc(kept, init, resolutions[n], earlier, false);
      assert Filtered(resolutions) == kept;
    }
  }

  /** The list a message brings: its usable resolutions in their order, the first 32 of them. */
  lemma {:induction false} CollectsFirstUsable(resolutions: seq<Resolution>) returns (positions: seq<nat>)
    ensures UsablePositions(resolutions, positions)
    ensures |Collect(resolutions)| == if |positions| <= 32 then |positions| else 32
    ensures Standing(Collect(resolutions), resolutions, positions)
  {
    positions := FilteredByPosition(resolutions);
  }

  /** A refresh gives the list it brings, if any of it is usable, to the display the peer says is its current one. */
  lemma {:induction false} RefreshBringsResolutions(s: State, info: PeerInfo)
    requires 0 <= info.current < Count(info) && exists r :: r in info.resolutions && Usable(r)
    ensures Collect(info.resolutions) != []
    ensures ShapeOf(OnPeerInfo(s, info).displays, info.current).resolutions == Collect(info.resolutions)
  {
    var built := Catalogue(s.displays, info);
    FilteredIsPositive(info.resolutions);
    var r :| r in info.resolutions && Usable(r);
    assert r in Filtered(info.resolutions);
    assert built[info.current].display == info.current;
    var at := IndexOf(built, info.current);
    assert at.Some? && built[at.value].display == at.value;
  }

  /** A refresh loses no resolution list learned for a display it still lists, unless it brings a new one for it. */
  lemma {:induction false} RefreshKeepsLearned(s: State, info: PeerInfo, display: int)
    requires IndexOf(s.displays, display).Some? && 0 <= display < Count(info)
    requires display != info.current || Collect(info.resolutions) == []
    ensures IndexOf(OnPeerInfo(s, info).displays, display) == Some(display)
    ensures ShapeOf(OnPeerInfo(s, info).displays, display).resolutions == ShapeOf(s.displays, display).resolutions
  {
    var built := Catalogue(s.displays, info);
    assert built[display].display == display;
  }
}
