/** Gitlink names with a NUL: which of them let one tree object stand for two different components. */
module LinkNames {
  import opened Prelude
  import opened WireFormat
  import opened GitTree
  import opened GitObjects
  import opened VendorTree

  // ---------------------------------------------------------------- components of gitlinks alone

  function Links(links: seq<LinkSpec>): Component {
    Component([], {}, links)
  }

  function LinkItem(l: LinkSpec): Item {
    Item(l.path, File(LinkEntry(l).leaf))
  }

  function LinkItems(links: seq<LinkSpec>): (r: seq<Item>)
    ensures |r| == |links| && forall k | 0 <= k < |r| :: r[k] == LinkItem(links[k])
  {
    seq(|links|, k requires 0 <= k < |links| => LinkItem(links[k]))
  }

  /** Gitlinks as the code accepts them, and 20 bytes in each revision. */
  ghost predicate GoodLinks(links: seq<LinkSpec>) {
    && (forall l :: l in links ==> ValidLink(l) && |l.revision.value| == ID_LENGTH)
    && (forall i, j | 0 <= i < j < |links| :: links[i].path != links[j].path)
  }

  /** The entries of such a component, one for each gitlink. */
  ghost predicate EntriesOf(all: seq<Entry>, links: seq<LinkSpec>) {
    |all| == |links| && forall k | 0 <= k < |links| :: all[k] == LinkEntry(links[k])
  }

  lemma {:induction false} LinkEntriesOnly(sha1: Sha1, links: seq<LinkSpec>)
    ensures EntriesOf(AllEntries(sha1, Links(links)), links)
  {
    forall k | 0 <= k < |links| ensures AllEntries(sha1, Links(links))[k] == LinkEntry(links[k]) {
      LinkAt(sha1, Links(links), k);
    }
  }

  lemma {:induction false} DistinctCompatible(all: seq<Entry>, links: seq<LinkSpec>)
    requires EntriesOf(all, links) && GoodLinks(links)
    ensures Compatible(all)
  {
    forall i, j | 0 <= i < j < |all| ensures !Collide(all[i].path, all[j].path) {
      assert links[i].path != links[j].path;
      assert all[i].path[0] == links[i].path && all[j].path[0] == links[j].path;
    }
  }

  lemma {:induction false} LinksAccepted(sha1: Sha1, links: seq<LinkSpec>)
    requires GoodLinks(links)
    ensures OnDisk(Links(links)) && Accepted(sha1, Links(links))
  {
    LinkEntriesOnly(sha1, links);
    DistinctCompatible(AllEntries(sha1, Links(links)), links);
    assert Passes(Links(links));
  }

  lemma {:induction false} EntryHeld(all: seq<Entry>, links: seq<LinkSpec>, e: Entry)
    requires EntriesOf(all, links) && GoodLinks(links) && e in all
    ensures Lookup(LinkItems(links), e.path) == Some(e.leaf)
  {
    var items := LinkItems(links);
    var k :| 0 <= k < |links| && all[k] == e;
    LookupAt(items, k, e.path);
  }

  lemma {:induction false} PathHasEntry(all: seq<Entry>, links: seq<LinkSpec>, p: Path)
    requires EntriesOf(all, links) && GoodLinks(links) && Lookup(LinkItems(links), p).Some?
    ensures exists e :: e in all && e.path == p
  {
    var items := LinkItems(links);
    FindFacts(items, p[0]);
    var k := Find(items, p[0]).value;
    LookupAt(items, k, p);
    assert p == [p[0]];
    assert all[k].path == p && all[k] in all;
  }

  /** The tree of such a component is the list of its gitlinks. */
  lemma {:induction false} LinksHeld(sha1: Sha1, links: seq<LinkSpec>)
    requires GoodLinks(links)
    ensures Holds(LinkItems(links), AllEntries(sha1, Links(links)))
  {
    var all, items := AllEntries(sha1, Links(links)), LinkItems(links);
    LinkEntriesOnly(sha1, links);
    forall e | e in all ensures Lookup(items, e.path) == Some(e.leaf) {
      EntryHeld(all, links, e);
    }
    forall p | Lookup(items, p).Some? ensures exists e :: e in all && e.path == p {
      PathHasEntry(all, links, p);
    }
  }

  function LinkLine(l: LinkSpec): Line {
    Line(l.path, Stored(Gitlink), LinkEntry(l).leaf.id)
  }

  // ---------------------------------------------------------------- one name, two readings

  function GitlinkText(): Bytes {
    ModeBytes(Stored(Gitlink)) + [SPACE]
  }

  /** Behind the name x, its NUL and 20 bytes, the name goes on as a gitlink line of y would. */
  predicate SplitsInto(n: Name, x: Name, u: Bytes, y: Name) {
    n == x + [NUL] + (u + (GitlinkText() + y)) && x != [] && |u| == ID_LENGTH && y != [] && Before(x, y)
  }

  ghost predicate Splits(n: Name) {
    exists x, u, y :: SplitsInto(n, x, u, y)
  }

  lemma {:induction false} SortPair(first: Line, second: Line)
    requires Before(SortKey(first), SortKey(second))
    ensures SortLines([first, second]) == [first, second]
    ensures SortLines([second, first]) == [first, second]
  {
    BeforeTotal(SortKey(first), SortKey(second));
    BeforeTotal(SortKey(second), SortKey(first));
    assert SortLines([first]) == [first] by { assert [first][..0] == []; }
    assert SortLines([second]) == [second] by { assert [second][..0] == []; }
    assert [first, second][..1] == [first] && [second, first][..1] == [second];
    assert InsertLine(second, [first]) == [first] + InsertLine(second, [first][1..]);
  }

  lemma {:induction false} SortOne(line: Line)
    ensures SortLines([line]) == [line] && Serialize([line]) == LineBytes(line)
  {
    assert [line][..0] == [] && [line][1..] == [];
    assert LineBytes(line) + [] == LineBytes(line);
  }

  lemma {:induction false} SerializePair(first: Line, second: Line)
    ensures Serialize([first, second]) == LineBytes(first) + LineBytes(second)
  {
    SortOne(second);
    assert [first, second][1..] == [second];
  }

  /** The bytes of the long gitlink are those of the two short ones. */
  lemma {:induction false} SplitBytes(n: Name, x: Name, u: Bytes, y: Name, r: Bytes)
    requires SplitsInto(n, x, u, y)
    ensures LineBytes(Line(n, Stored(Gitlink), r))
         == LineBytes(Line(x, Stored(Gitlink), u)) + LineBytes(Line(y, Stored(Gitlink), r))
  {
    var g := GitlinkText();
    assert LineBytes(Line(n, Stored(Gitlink), r)) == g + n + [NUL] + r;
    assert LineBytes(Line(x, Stored(Gitlink), u)) == g + x + [NUL] + u;
    assert LineBytes(Line(y, Stored(Gitlink), r)) == g + y + [NUL] + r;
    assert g + (x + [NUL] + (u + (g + y))) + [NUL] + r == g + x + [NUL] + u + (g + y + [NUL] + r);
  }

  /** A gitlink whose name splits, and the two gitlinks it also stands for. */
  lemma {:induction false} SplitTwin(sha1: Sha1, l: LinkSpec, x: Name, u: Bytes, y: Name) returns (twin: seq<LinkSpec>)
    requires GoodLinks([l]) && SplitsInto(l.path, x, u, y)
    ensures GoodLinks(twin) && l !in twin
    ensures WriteTree(sha1, LinkItems(twin)) == WriteTree(sha1, LinkItems([l]))
  {
    assert l in [l];
    var first, second := LinkSpec(x, Some(u)), LinkSpec(y, l.revision);
    twin := [first, second];
    PartsHoldNoSlash(l.path, x, u, y);
    BeforeIrreflexive(x);
    assert |x| < |l.path| && |y| < |l.path|;
    var lines := LinesOf(sha1, LinkItems(twin));
    assert lines == [LinkLine(first), LinkLine(second)];
    assert LinesOf(sha1, LinkItems([l])) == [LinkLine(l)];
    SortPair(LinkLine(first), LinkLine(second));
    SerializePair(LinkLine(first), LinkLine(second));
    SortOne(LinkLine(l));
    SplitBytes(l.path, x, u, y, l.revision.value);
  }

  lemma {:induction false} PartsHoldNoSlash(n: Name, x: Name, u: Bytes, y: Name)
    requires SplitsInto(n, x, u, y) && NoSlash(n)
    ensures NoSlash(x) && NoSlash(y)
  {
    assert forall b :: b in x ==> b in n;
    var rest := u + (GitlinkText() + y);
    assert forall b :: b in y ==> b in rest;
    assert n[|x| + 1..] == rest;
    assert forall b :: b in rest ==> b in n;
  }

  // ---------------------------------------------------------------- from a twin back to the split

  lemma {:induction false} BeforeExtends(a: Bytes, b: Bytes, more: Bytes)
    requires Before(a, b)
    ensures Before(a, b + more)
    decreases |a|
  {
    assert (b + more)[1..] == b[1..] + more;
    if a != [] && a[0] == b[0] {
      BeforeExtends(a[1..], b[1..], more);
    }
  }

  /** Gitlink lines as the code makes them: their names are not empty, their ids have 20 bytes. */
  ghost predicate LinkLines(x: seq<Line>) {
    && Ascending(x)
    && forall k | 0 <= k < |x| :: x[k].mode == Stored(Gitlink) && x[k].name != [] && |x[k].id| == ID_LENGTH
  }

  /** A common end of at least 21 bytes holds the NUL and the id, and all before it belongs to the name. */
  lemma {:induction false} SharedEnd(name: Name, id: Bytes, front: Bytes, q: Bytes)
    requires |id| == ID_LENGTH && |q| >= 21 && front + q == name + [NUL] + id
    ensures name == front + q[..|q| - 21]
  {
    var all := front + q;
    assert all[..|all| - 21] == front + q[..|q| - 21];
    assert (name + [NUL] + id)[..|all| - 21] == name;
  }

  /** All but the last 21 bytes of a line's name, NUL and what follows start with the name. */
  lemma {:induction false} FrontOfTail(name: Name, more: Bytes, q: Bytes)
    requires q == name + [NUL] + more && |more| >= ID_LENGTH && name != []
    ensures |q| >= 22 && q[..|q| - 21] != [] && q[..|q| - 21] == name + q[|name|..|q| - 21]
  {
  }

  /** What stands behind the mode of the second line: its name first, and more than a NUL and an id behind that. */
  lemma {:induction false} SecondLine(x: seq<Line>) returns (q: Bytes)
    requires LinkLines(x) && |x| >= 2
    ensures Serialize(x[1..]) == GitlinkText() + q
    ensures |q| >= 22 && q[..|q| - 21] != [] && q[..|q| - 21] == x[1].name + q[|x[1].name|..|q| - 21]
  {
    var second := x[1];
    SerializeSplits(x[1..]);
    var more := second.id + Serialize(x[1..][1..]);
    q := second.name + [NUL] + more;
    assert Serialize(x[1..]) == GitlinkText() + q;
    FrontOfTail(second.name, more, q);
  }

  /** A gitlink line that reads as several lines has a name that splits. */
  lemma {:induction false} SeveralLinesSplit(line: Line, x: seq<Line>)
    requires LinkLines([line]) && LinkLines(x) && |x| >= 2 && Serialize(x) == Serialize([line])
    ensures Splits(line.name)
  {
    var first, second, g := x[0], x[1], GitlinkText();
    var q := SecondLine(x);
    SameFirstMode(x, [line]);
    assert line.id + Serialize([line][1..]) == line.id;
    SplitAtEnd(line.name, line.id, first.name, first.id, g, q);
    assert Before(SortKey(x[0]), SortKey(x[1]));
    BeforeExtends(first.name, second.name, q[|second.name|..|q| - 21]);
    assert SplitsInto(line.name, first.name, first.id, q[..|q| - 21]);
  }

  lemma {:induction false} SplitAtEnd(name: Name, id: Bytes, x: Name, u: Bytes, g: Bytes, q: Bytes)
    requires |id| == ID_LENGTH && |q| >= 21
    requires x + [NUL] + (u + (g + q)) == name + [NUL] + id
    ensures name == x + [NUL] + (u + (g + q[..|q| - 21]))
  {
    var front, y := x + [NUL] + (u + g), q[..|q| - 21];
    assert x + [NUL] + (u + (g + q)) == front + q;
    SharedEnd(name, id, front, q);
    assert front + y == x + [NUL] + (u + (g + y));
  }

  /** What the lines of a component of gitlinks alone are. */
  lemma {:induction false} LinesAreLinks(sha1: Sha1, links: seq<LinkSpec>, tree: seq<Item>)
    requires GoodLinks(links) && Holds(tree, AllEntries(sha1, Links(links)))
    ensures forall line :: line in LinesOf(sha1, tree) <==> exists l :: l in links && line == LinkLine(l)
  {
    var lines := LinesOf(sha1, tree);
    LinkEntriesOnly(sha1, links);
    forall line | line in lines ensures exists l :: l in links && line == LinkLine(l) {
      var k :| 0 <= k < |tree| && lines[k] == line;
      LineIsLink(sha1, AllEntries(sha1, Links(links)), links, tree, k);
    }
    forall l | l in links ensures LinkLine(l) in lines {
      LinkHasLine(sha1, AllEntries(sha1, Links(links)), links, tree, l);
    }
  }

  lemma {:induction false} LineIsLink(sha1: Sha1, all: seq<Entry>, links: seq<LinkSpec>, tree: seq<Item>, k: nat)
    requires GoodLinks(links) && EntriesOf(all, links) && Holds(tree, all) && k < |tree|
    ensures exists l :: l in links && LineOf(sha1, tree[k]) == LinkLine(l)
  {
    var p := LeafPath(tree, k);
    var e :| e in all && e.path == p;
    var i :| 0 <= i < |links| && all[i] == e;
    assert |p| == 1 && p[0] == links[i].path;
    assert links[i] in links && LineOf(sha1, tree[k]) == LinkLine(links[i]);
  }

  /** A path to some leaf of an item; of length one only if the item is that leaf. */
  lemma {:induction false} LeafPath(tree: seq<Item>, k: nat) returns (p: Path)
    requires WellFormed(tree) && k < |tree|
    ensures p != [] && p[0] == tree[k].name && Lookup(tree, p).Some?
    ensures |p| == 1 ==> tree[k].node == File(Lookup(tree, p).value)
  {
    p := [tree[k].name];
    if tree[k].node.Dir? {
      var rest := SomeLeaf(tree[k].node.items);
      p := p + rest;
      assert p[1..] == rest;
    }
    LookupAt(tree, k, p);
  }

  lemma {:induction false} LinkHasLine(sha1: Sha1, all: seq<Entry>, links: seq<LinkSpec>, tree: seq<Item>, l: LinkSpec)
    requires GoodLinks(links) && EntriesOf(all, links) && Holds(tree, all) && l in links
    ensures LinkLine(l) in LinesOf(sha1, tree)
  {
    var i :| 0 <= i < |links| && links[i] == l;
    assert all[i] == LinkEntry(l) && all[i] in all;
    assert Lookup(tree, [l.path]) == Some(LinkEntry(l).leaf);
    FindFacts(tree, l.path);
    var k := Find(tree, l.path).value;
    LookupAt(tree, k, [l.path]);
    assert LinesOf(sha1, tree)[k] == LinkLine(l);
  }

  /** The sorted lines of such a component. */
  lemma {:induction false} SortedLinks(sha1: Sha1, links: seq<LinkSpec>, tree: seq<Item>)
    requires GoodLinks(links) && Holds(tree, AllEntries(sha1, Links(links)))
    ensures LinkLines(SortLines(LinesOf(sha1, tree)))
    ensures forall line :: line in SortLines(LinesOf(sha1, tree)) <==> exists l :: l in links && line == LinkLine(l)
  {
    LinksAccepted(sha1, links);
    AcceptedTreeSlashFree(sha1, Links(links), tree);
    TreeKeysDiffer(sha1, tree);
    LinesAreLinks(sha1, links, tree);
    SortLinesSorts(LinesOf(sha1, tree));
    var sorted := SortLines(LinesOf(sha1, tree));
    forall k | 0 <= k < |sorted|
      ensures sorted[k].mode == Stored(Gitlink) && sorted[k].name != [] && |sorted[k].id| == ID_LENGTH
    {
      assert sorted[k] in sorted;
    }
  }

  /** Other gitlinks with the tree object of a single one exist only if its name splits. */
  lemma {:induction false} TwinSplits(sha1: Sha1, l: LinkSpec, twin: seq<LinkSpec>, tree: seq<Item>)
    requires GoodLinks([l]) && GoodLinks(twin) && Holds(tree, AllEntries(sha1, Links(twin)))
    requires WriteTree(sha1, tree) == WriteTree(sha1, LinkItems([l]))
    requires twin != [l]
    ensures Splits(l.path)
  {
    var x := SortLines(LinesOf(sha1, tree));
    LinksHeld(sha1, [l]);
    SortedLinks(sha1, [l], LinkItems([l]));
    SortedLinks(sha1, twin, tree);
    assert LinesOf(sha1, LinkItems([l])) == [LinkLine(l)];
    SortOne(LinkLine(l));
    assert Serialize(x) == Serialize([LinkLine(l)]);
    NonEmptySerializes(x);
    NonEmptySerializes([LinkLine(l)]);
    if |x| >= 2 {
      SeveralLinesSplit(LinkLine(l), x);
    } else {
      OneLineSame(l, twin, x);
    }
  }

  lemma {:induction false} AllAlike(twin: seq<LinkSpec>, l: LinkSpec)
    requires GoodLinks(twin) && forall m :: m in twin ==> m == l
    ensures |twin| <= 1
  {
    forall i | 0 <= i < |twin| ensures twin[i] == l {
      assert twin[i] in twin;
    }
    assert |twin| >= 2 ==> twin[0].path == twin[1].path;
  }

  lemma {:induction false} OneLineSame(l: LinkSpec, twin: seq<LinkSpec>, x: seq<Line>)
    requires GoodLinks([l]) && GoodLinks(twin) && |x| == 1 && |x[0].id| == ID_LENGTH
    requires forall line :: line in x <==> exists m :: m in twin && line == LinkLine(m)
    requires Serialize(x) == Serialize([LinkLine(l)])
    ensures twin == [l]
  {
    assert l in [l];
    assert x == [x[0]] && x[0] in x;
    SortOne(x[0]);
    SortOne(LinkLine(l));
    SameFirstMode(x, [LinkLine(l)]);
    SameFirstLine(x, [LinkLine(l)]);
    forall m | m in twin ensures m == l {
      assert LinkLine(m) in x;
    }
    var m :| m in twin && x[0] == LinkLine(m);
    AllAlike(twin, l);
  }

  /**
   * Exactly which names are ambiguous among gitlinks: the tree object of a single gitlink is also the one of other
   * gitlinks if and only if its name splits.
   */
  lemma {:induction false} AmbiguousExactly(sha1: Sha1, l: LinkSpec)
    requires GoodLinks([l])
    ensures Splits(l.path) <==>
            exists twin, tree :: GoodLinks(twin) && twin != [l] && Holds(tree, AllEntries(sha1, Links(twin)))
                                 && WriteTree(sha1, tree) == WriteTree(sha1, LinkItems([l]))
  {
    if Splits(l.path) {
      var x, u, y :| SplitsInto(l.path, x, u, y);
      var twin := SplitTwin(sha1, l, x, u, y);
      LinksHeld(sha1, twin);
      assert l in [l];
    }
    forall twin, tree | GoodLinks(twin) && twin != [l] && Holds(tree, AllEntries(sha1, Links(twin)))
                        && WriteTree(sha1, tree) == WriteTree(sha1, LinkItems([l]))
      ensures Splits(l.path)
    {
      TwinSplits(sha1, l, twin, tree);
    }
  }

  lemma {:induction false} NothingBelow(sha1: Sha1, items: seq<Item>)
    requires forall k | 0 <= k < |items| :: items[k].node.File?
    ensures HashedBelow(sha1, items) == {}
  {
    if items != [] {
      NothingBelow(sha1, items[1..]);
    }
  }

  /** Of gitlinks alone only the root is hashed. */
  lemma {:induction false} OnlyRootHashed(sha1: Sha1, links: seq<LinkSpec>)
    ensures Hashed(sha1, Links(links), LinkItems(links)) == {Framed(Tree, WriteTree(sha1, LinkItems(links)))}
  {
    NothingBelow(sha1, LinkItems(links));
  }

  /** Every name that splits breaks the identification of sources: same root id, no collision, different gitlinks. */
  lemma {:induction false} SplitNameConfuses(sha1: Sha1, l: LinkSpec) returns (twin: seq<LinkSpec>)
    requires TwentyBytes(sha1) && GoodLinks([l]) && Splits(l.path)
    ensures SameRoot(sha1, Links([l]), Links(twin), LinkItems([l]), LinkItems(twin))
    ensures !SameSources(Links([l]), Links(twin))
  {
    var x, u, y :| SplitsInto(l.path, x, u, y);
    twin := SplitTwin(sha1, l, x, u, y);
    SameRootOfLinks(sha1, [l], twin);
    assert l in Links([l]).gitlinks;
  }

  lemma {:induction false} OneObjectHashed(sha1: Sha1, a: seq<LinkSpec>, b: seq<LinkSpec>)
    requires WriteTree(sha1, LinkItems(a)) == WriteTree(sha1, LinkItems(b))
    ensures InjectiveOn(sha1, Hashed(sha1, Links(a), LinkItems(a)) + Hashed(sha1, Links(b), LinkItems(b)))
    ensures RootId(sha1, LinkItems(a)) == RootId(sha1, LinkItems(b))
  {
    OnlyRootHashed(sha1, a);
    OnlyRootHashed(sha1, b);
  }

  lemma {:induction false} SameRootOfLinks(sha1: Sha1, a: seq<LinkSpec>, b: seq<LinkSpec>)
    requires TwentyBytes(sha1) && GoodLinks(a) && GoodLinks(b)
    requires WriteTree(sha1, LinkItems(a)) == WriteTree(sha1, LinkItems(b))
    ensures SameRoot(sha1, Links(a), Links(b), LinkItems(a), LinkItems(b))
  {
    LinksAccepted(sha1, a);
    LinksAccepted(sha1, b);
    LinksHeld(sha1, a);
    LinksHeld(sha1, b);
    OneObjectHashed(sha1, a, b);
  }

  // ---------------------------------------------------------------- how much may follow a NUL

  /** Different sources with the same root id, without a collision and with at most k bytes behind any NUL. */
  ghost predicate Confused(sha1: Sha1, c: Component, d: Component, a: seq<Item>, b: seq<Item>, k: nat) {
    SameRoot(sha1, c, d, a, b) && LinkTails(c, k) && LinkTails(d, k) && !SameSources(c, d)
  }

  /** Root ids tell sources apart among components in whose gitlink names at most k bytes follow any NUL. */
  ghost predicate Identifies(k: nat) {
    forall sha1, c, d, a, b :: !Confused(sha1, c, d, a, b, k)
  }

  lemma {:induction false} FewerTails(c: Component, j: nat, k: nat)
    requires j <= k && LinkTails(c, j)
    ensures LinkTails(c, k)
  {
    forall l | l in c.gitlinks ensures Tails(l.path, k) {
      assert Tails(l.path, j);
    }
  }

  lemma {:induction false} ShortTailsIdentify(sha1: Sha1, c: Component, d: Component, a: seq<Item>, b: seq<Item>,
                                              k: nat)
    requires k <= SAFE_TAIL
    ensures !Confused(sha1, c, d, a, b, k)
  {
    if SameRoot(sha1, c, d, a, b) && LinkTails(c, k) && LinkTails(d, k) {
      FewerTails(c, k, SAFE_TAIL);
      FewerTails(d, k, SAFE_TAIL);
      SameRootSameSources(sha1, c, d, a, b);
    }
  }

  /** Exactly how much: four bytes behind a NUL are harmless, five are not. */
  lemma {:induction false} TailsExact(k: nat)
    ensures Identifies(k) <==> k <= SAFE_TAIL
  {
    if k <= SAFE_TAIL {
      forall sha1, c, d, a, b ensures !Confused(sha1, c, d, a, b, k) {
        ShortTailsIdentify(sha1, c, d, a, b, k);
      }
    } else {
      FiveConfuse(k);
    }
  }

  /** One file in a directory, and one gitlink. */
  function FileAndLink(dir: Name, link: LinkSpec): Component {
    Component([SourceFile([dir, FILE_NAME], false, [])], {}, [link])
  }

  const FILE_NAME: Name := [102]

  function DirItems(sha1: Sha1): seq<Item> {
    [Item(FILE_NAME, File(Leaf.Leaf(Regular, ObjectId(sha1, Blob, []))))]
  }

  function TreeOf(sha1: Sha1, dir: Name, link: LinkSpec): seq<Item> {
    [Item(dir, Dir(DirItems(sha1))), LinkItem(link)]
  }

  ghost predicate GoodPair(dir: Name, link: LinkSpec) {
    PlainName(dir) && GoodLinks([link]) && dir != link.path
  }

  lemma {:induction false} PairEntries(sha1: Sha1, dir: Name, link: LinkSpec)
    ensures var leaf := Leaf.Leaf(Regular, ObjectId(sha1, Blob, []));
            AllEntries(sha1, FileAndLink(dir, link)) == [Entry([dir, FILE_NAME], leaf), LinkEntry(link)]
  {
    FileAt(sha1, FileAndLink(dir, link), 0);
    LinkAt(sha1, FileAndLink(dir, link), 0);
  }

  lemma {:induction false} PairAccepted(sha1: Sha1, dir: Name, link: LinkSpec)
    requires GoodPair(dir, link)
    ensures OnDisk(FileAndLink(dir, link)) && Accepted(sha1, FileAndLink(dir, link))
  {
    PairEntries(sha1, dir, link);
    assert link in [link];
    assert [dir, FILE_NAME][0] != [link.path][0];
    assert Passes(FileAndLink(dir, link));
  }

  lemma {:induction false} PairLookup(sha1: Sha1, dir: Name, link: LinkSpec, p: Path)
    requires dir != link.path
    ensures Lookup(TreeOf(sha1, dir, link), p)
         == if p == [dir, FILE_NAME] then Some(Leaf.Leaf(Regular, ObjectId(sha1, Blob, [])))
            else if p == [link.path] then Some(LinkEntry(link).leaf) else None
  {
    var tree, sub := TreeOf(sha1, dir, link), DirItems(sha1);
    if p != [] && p[0] == dir {
      LookupAt(tree, 0, p);
      var q := p[1..];
      if q != [] && q[0] == FILE_NAME {
        LookupAt(sub, 0, q);
        assert |q| == 1 ==> p == [dir, FILE_NAME];
      } else if q != [] {
        LookupAbsent(sub, q);
      }
    } else if p != [] && p[0] == link.path {
      LookupAt(tree, 1, p);
      assert |p| == 1 ==> p == [link.path];
    } else if p != [] {
      LookupAbsent(tree, p);
    }
  }

  lemma {:induction false} PairHeld(sha1: Sha1, dir: Name, link: LinkSpec)
    requires GoodPair(dir, link)
    ensures Holds(TreeOf(sha1, dir, link), AllEntries(sha1, FileAndLink(dir, link)))
  {
    var all := AllEntries(sha1, FileAndLink(dir, link));
    PairEntries(sha1, dir, link);
    forall p ensures Lookup(TreeOf(sha1, dir, link), p)
                  == if p == [dir, FILE_NAME] then Some(Leaf.Leaf(Regular, ObjectId(sha1, Blob, [])))
                     else if p == [link.path] then Some(LinkEntry(link).leaf) else None
    {
      PairLookup(sha1, dir, link, p);
    }
    assert all[0] in all && all[1] in all;
  }

  /** The tree object, when the gitlink sorts before the directory. */
  lemma {:induction false} PairBytes(sha1: Sha1, dir: Name, link: LinkSpec)
    requires Before(link.path, dir + [SLASH])
    ensures WriteTree(sha1, TreeOf(sha1, dir, link))
         == LineBytes(LinkLine(link)) + LineBytes(Line(dir, Directory, ObjectId(sha1, Tree, WriteTree(sha1, DirItems(sha1)))))
  {
    var tree := TreeOf(sha1, dir, link);
    var below := Line(dir, Directory, ObjectId(sha1, Tree, WriteTree(sha1, DirItems(sha1))));
    assert LinesOf(sha1, tree) == [below, LinkLine(link)];
    SortPair(LinkLine(link), below);
    SerializePair(LinkLine(link), below);
  }

  // The witnesses: "1" and "40000 b" against "1", NUL, "wwwww" and "b".

  const PAD: Bytes := [119, 119, 119, 119, 119, 119, 119, 119, 119, 119, 119, 119, 119, 119]
  const DIR_TEXT: Bytes := [52, 48, 48, 48, 48, 32]
  const LONG_DIR: Name := [98]
  const SHORT_DIR: Name := [52, 48, 48, 48, 48, 32, 98]
  const LONG_LINK: LinkSpec := LinkSpec([49, 0, 119, 119, 119, 119, 119], Some(PAD + DIR_TEXT))
  const SHORT_LINK: LinkSpec := LinkSpec([49], Some([119, 119, 119, 119, 119, 0] + PAD))
  const LONG: Component := FileAndLink(LONG_DIR, LONG_LINK)
  const SHORT: Component := FileAndLink(SHORT_DIR, SHORT_LINK)

  /** A hash that keeps inputs of different lengths apart. */
  function LengthHash(x: Bytes): Bytes {
    ToBytes(|x|, ID_LENGTH)
  }

  lemma {:induction false} WitnessesGood()
    ensures GoodPair(LONG_DIR, LONG_LINK) && GoodPair(SHORT_DIR, SHORT_LINK)
    ensures LinkTails(LONG, 5) && LinkTails(SHORT, 5)
    ensures !SameSources(LONG, SHORT)
  {
    assert LONG_LINK in LONG.gitlinks;
    assert LONG_LINK.path[0] == SHORT_LINK.path[0] && |LONG_LINK.path| != |SHORT_LINK.path|;
  }

  /** Both witnesses have the same tree object. */
  lemma {:induction false} WitnessBytes(sha1: Sha1)
    ensures WriteTree(sha1, TreeOf(sha1, LONG_DIR, LONG_LINK)) == WriteTree(sha1, TreeOf(sha1, SHORT_DIR, SHORT_LINK))
  {
    var id := ObjectId(sha1, Tree, WriteTree(sha1, DirItems(sha1)));
    PairBytes(sha1, LONG_DIR, LONG_LINK);
    PairBytes(sha1, SHORT_DIR, SHORT_LINK);
    SameBytes(id);
  }

  lemma {:induction false} Regroup(g: Bytes, a: Bytes, n: Bytes, w: Bytes, p: Bytes, t: Bytes, b: Bytes, id: Bytes)
    ensures (g + (a + n + w) + n + (p + t)) + (t + b + n + id) == (g + a + n + (w + n + p)) + (t + (t + b) + n + id)
  {
  }

  lemma {:induction false} SameBytes(id: Bytes)
    ensures LineBytes(LinkLine(LONG_LINK)) + LineBytes(Line(LONG_DIR, Directory, id))
         == LineBytes(LinkLine(SHORT_LINK)) + LineBytes(Line(SHORT_DIR, Directory, id))
  {
    var w := [119, 119, 119, 119, 119];
    assert LONG_LINK.path == [49] + [NUL] + w;
    assert SHORT_LINK.revision.value == w + [NUL] + PAD;
    assert ModeBytes(Directory) + [SPACE] == DIR_TEXT && SHORT_DIR == DIR_TEXT + LONG_DIR;
    Regroup(GitlinkText(), [49], [NUL], w, PAD, DIR_TEXT, LONG_DIR, id);
  }

  /** What is hashed for either witness: the file, its directory and the root, of different lengths. */
  lemma {:induction false} WitnessHashes(dir: Name, link: LinkSpec, root: Bytes)
    requires root == WriteTree(LengthHash, TreeOf(LengthHash, dir, link))
    ensures Hashed(LengthHash, FileAndLink(dir, link), TreeOf(LengthHash, dir, link))
         == {Framed(Tree, root), Framed(Tree, WriteTree(LengthHash, DirItems(LengthHash))), Framed(Blob, [])}
  {
    var tree, sub := TreeOf(LengthHash, dir, link), DirItems(LengthHash);
    assert HashedBelow(LengthHash, sub) == {} by {
      NothingBelow(LengthHash, sub);
    }
    assert tree[1..] == [LinkItem(link)];
    NothingBelow(LengthHash, tree[1..]);
    assert HashedBelow(LengthHash, tree) == {Framed(Tree, WriteTree(LengthHash, sub))};
    var files := FileAndLink(dir, link).files;
    assert files == [files[0]] && files[0].content == [];
    assert (set f | f in files :: Framed(Blob, f.content)) == {Framed(Blob, [])} by {
      assert files[0] in files;
    }
  }

  lemma {:induction false} DirLength(sha1: Sha1)
    requires TwentyBytes(sha1)
    ensures |WriteTree(sha1, DirItems(sha1))| == 29
  {
    var line := Line(FILE_NAME, Stored(Regular), ObjectId(sha1, Blob, []));
    assert LinesOf(sha1, DirItems(sha1)) == [line];
    SortOne(line);
  }

  lemma {:induction false} RootLength(sha1: Sha1)
    requires TwentyBytes(sha1)
    ensures |WriteTree(sha1, TreeOf(sha1, LONG_DIR, LONG_LINK))| == 63
  {
    PairBytes(sha1, LONG_DIR, LONG_LINK);
    var below := Line(LONG_DIR, Directory, ObjectId(sha1, Tree, WriteTree(sha1, DirItems(sha1))));
    assert |LineBytes(below)| == 28;
    assert |LineBytes(LinkLine(LONG_LINK))| == 35;
  }

  lemma {:induction false} FramedLength(kind: Kind, payload: Bytes)
    requires |payload| < 100
    ensures |Framed(kind, payload)| == |payload| + (if |payload| < 10 then 7 else 8)
  {
    assert |payload| >= 10 ==> |Decimal(|payload|)| == 2;
  }

  lemma {:induction false} FiveConfuse(k: nat)
    requires k >= 5
    ensures Confused(LengthHash, LONG, SHORT, TreeOf(LengthHash, LONG_DIR, LONG_LINK),
                     TreeOf(LengthHash, SHORT_DIR, SHORT_LINK), k)
  {
    WitnessesGood();
    FewerTails(LONG, 5, k);
    FewerTails(SHORT, 5, k);
    PairAccepted(LengthHash, LONG_DIR, LONG_LINK);
    PairAccepted(LengthHash, SHORT_DIR, SHORT_LINK);
    PairHeld(LengthHash, LONG_DIR, LONG_LINK);
    PairHeld(LengthHash, SHORT_DIR, SHORT_LINK);
    WitnessBytes(LengthHash);
    WitnessInjective();
  }

  lemma {:induction false} WitnessInjective()
    requires WriteTree(LengthHash, TreeOf(LengthHash, LONG_DIR, LONG_LINK))
          == WriteTree(LengthHash, TreeOf(LengthHash, SHORT_DIR, SHORT_LINK))
    ensures InjectiveOn(LengthHash, Hashed(LengthHash, LONG, TreeOf(LengthHash, LONG_DIR, LONG_LINK))
                                    + Hashed(LengthHash, SHORT, TreeOf(LengthHash, SHORT_DIR, SHORT_LINK)))
  {
    var root := WriteTree(LengthHash, TreeOf(LengthHash, LONG_DIR, LONG_LINK));
    var sub := WriteTree(LengthHash, DirItems(LengthHash));
    WitnessHashes(LONG_DIR, LONG_LINK, root);
    WitnessHashes(SHORT_DIR, SHORT_LINK, root);
    RootLength(LengthHash);
    DirLength(LengthHash);
    FramedLength(Tree, root);
    FramedLength(Tree, sub);
    FramedLength(Blob, []);
    LengthsKeepApart(Hashed(LengthHash, LONG, TreeOf(LengthHash, LONG_DIR, LONG_LINK))
                     + Hashed(LengthHash, SHORT, TreeOf(LengthHash, SHORT_DIR, SHORT_LINK)),
                     Framed(Tree, root), Framed(Tree, sub), Framed(Blob, []));
  }

  lemma {:induction false} LengthsKeepApart(inputs: set<Bytes>, x: Bytes, y: Bytes, z: Bytes)
    requires inputs == {x, y, z} && |x| < 256 && |y| < 256 && |z| < 256
    requires |x| != |y| && |y| != |z| && |x| != |z|
    ensures InjectiveOn(LengthHash, inputs)
  {
    assert LengthHash(x)[0] == |x| && LengthHash(y)[0] == |y| && LengthHash(z)[0] == |z|;
  }
}
