/** Git object ids of a rebuilt tree: independent of insertion order, and injective up to hash collisions. */
module GitObjects {
  import opened Prelude
  import opened WireFormat
  import opened GitTree

  const SPACE: Byte := 32
  const NUL: Byte := 0
  const SLASH: Byte := 47
  const ID_LENGTH: nat := 20

  /** The hash, as any function to 20 bytes; collisions are a hypothesis of the theorems, not of the model. */
  type Sha1 = Bytes -> Bytes

  // ---------------------------------------------------------------- objects

  datatype Kind = Blob | Tree

  function KindBytes(kind: Kind): Bytes {
    if kind.Blob? then [98, 108, 111, 98] else [116, 114, 101, 101]
  }

  /** A number in decimal ASCII. */
  function Decimal(n: nat): (r: Bytes)
    ensures forall k | 0 <= k < |r| :: 48 <= r[k] <= 57
  {
    if n < 10 then [48 + n] else Decimal(n / 10) + [48 + n % 10]
  }

  /** What is hashed for an object. */
  function Framed(kind: Kind, payload: Bytes): Bytes {
    KindBytes(kind) + [SPACE] + Decimal(|payload|) + [NUL] + payload
  }

  function ObjectId(sha1: Sha1, kind: Kind, payload: Bytes): Bytes {
    sha1(Framed(kind, payload))
  }

  /** A list split at the first separator is split uniquely. */
  lemma {:induction false} SplitOnce(x: Bytes, a: Bytes, y: Bytes, b: Bytes, separator: Byte)
    requires separator !in x && separator !in y
    requires x + [separator] + a == y + [separator] + b
    ensures x == y && a == b
  {
    var u, v := x + [separator] + a, y + [separator] + b;
    assert u[|x|] == separator && v[|y|] == separator;
    assert forall i | 0 <= i < |x| :: u[i] == x[i] && x[i] in x;
    assert forall i | 0 <= i < |y| :: v[i] == y[i] && y[i] in y;
    assert |x| == |y|;
    assert u[..|x|] == x && v[..|y|] == y;
    assert u[|x| + 1..] == a && v[|y| + 1..] == b;
  }

  /** The framing determines kind and payload. */
  lemma {:induction false} FramedInjective(k1: Kind, p1: Bytes, k2: Kind, p2: Bytes)
    requires Framed(k1, p1) == Framed(k2, p2)
    ensures k1 == k2 && p1 == p2
  {
    assert Framed(k1, p1)[0] == KindBytes(k1)[0] && Framed(k2, p2)[0] == KindBytes(k2)[0];
    SplitOnce(KindBytes(k1) + [SPACE] + Decimal(|p1|), p1, KindBytes(k2) + [SPACE] + Decimal(|p2|), p2, NUL);
  }

  // ---------------------------------------------------------------- tree entries

  datatype EntryMode = Directory | Stored(mode: Mode)

  /** One line of a tree object. */
  datatype Line = Line(name: Name, mode: EntryMode, id: Bytes)

  /** "40000", "100644", "100755" and "160000". */
  function ModeBytes(mode: EntryMode): Bytes {
    match mode
    case Directory => [52, 48, 48, 48, 48]
    case Stored(Regular) => [49, 48, 48, 54, 52, 52]
    case Stored(Executable) => [49, 48, 48, 55, 53, 53]
    case Stored(Gitlink) => [49, 54, 48, 48, 48, 48]
  }

  /** Directories sort as if their name ended in a slash. */
  function SortKey(l: Line): Bytes {
    if l.mode.Directory? then l.name + [SLASH] else l.name
  }

  /** Byte-wise order. */
  predicate Before(a: Bytes, b: Bytes)
    decreases |a|
  {
    if b == [] then false
    else if a == [] then true
    else a[0] < b[0] || (a[0] == b[0] && Before(a[1..], b[1..]))
  }

  /** A stable insertion: behind every line whose key is not greater. */
  function InsertLine(l: Line, sorted: seq<Line>): seq<Line> {
    if sorted == [] then [l]
    else if Before(SortKey(l), SortKey(sorted[0])) then [l] + sorted
    else [sorted[0]] + InsertLine(l, sorted[1..])
  }

  function SortLines(lines: seq<Line>): seq<Line> {
    if lines == [] then [] else InsertLine(lines[|lines| - 1], SortLines(lines[..|lines| - 1]))
  }

  function LineBytes(l: Line): Bytes {
    ModeBytes(l.mode) + [SPACE] + l.name + [NUL] + l.id
  }

  function Serialize(lines: seq<Line>): Bytes {
    if lines == [] then [] else LineBytes(lines[0]) + Serialize(lines[1..])
  }

  /** The line of one item; a directory's id is the hash of its own tree object. */
  function LineOf(sha1: Sha1, item: Item): Line
    decreases item, 0
  {
    match item.node
    case File(leaf) => Line(item.name, Stored(leaf.mode), leaf.id)
    case Dir(items) => Line(item.name, Directory, ObjectId(sha1, Tree, WriteTree(sha1, items)))
  }

  function LinesOf(sha1: Sha1, items: seq<Item>): (r: seq<Line>)
    ensures |r| == |items|
    ensures forall k | 0 <= k < |items| :: r[k] == LineOf(sha1, items[k])
    decreases items, 0
  {
    if items == [] then []
    else
      assert forall k | 0 <= k < |items[1..]| :: items[1..][k] == items[k + 1];
      [LineOf(sha1, items[0])] + LinesOf(sha1, items[1..])
  }

  /** write_tree */
  function WriteTree(sha1: Sha1, items: seq<Item>): Bytes
    decreases items, 1
  {
    Serialize(SortLines(LinesOf(sha1, items)))
  }

  function RootId(sha1: Sha1, items: seq<Item>): Bytes {
    ObjectId(sha1, Tree, WriteTree(sha1, items))
  }

  // ---------------------------------------------------------------- the sort

  lemma {:induction false} BeforeTotal(a: Bytes, b: Bytes)
    ensures a != b ==> Before(a, b) || Before(b, a)
    ensures !(Before(a, b) && Before(b, a)) && !Before(a, a)
    decreases |a|
  {
    if a != [] && b != [] {
      assert a == [a[0]] + a[1..] && b == [b[0]] + b[1..];
      BeforeTotal(a[1..], b[1..]);
    }
    BeforeIrreflexive(a);
  }

  lemma {:induction false} BeforeIrreflexive(a: Bytes)
    ensures !Before(a, a)
  {
    if a != [] {
      BeforeIrreflexive(a[1..]);
    }
  }

  lemma {:induction false} BeforeTransitive(a: Bytes, b: Bytes, c: Bytes)
    requires Before(a, b) && Before(b, c)
    ensures Before(a, c)
    decreases |a|
  {
    if a != [] && a[0] == b[0] && b[0] == c[0] {
      BeforeTransitive(a[1..], b[1..], c[1..]);
    }
  }

  ghost predicate Ascending(lines: seq<Line>) {
    forall i, j | 0 <= i < j < |lines| :: Before(SortKey(lines[i]), SortKey(lines[j]))
  }

  ghost predicate KeysDiffer(lines: seq<Line>) {
    forall i, j | 0 <= i < j < |lines| :: SortKey(lines[i]) != SortKey(lines[j])
  }

  lemma {:induction false} InsertLineSorts(l: Line, sorted: seq<Line>)
    requires Ascending(sorted) && forall x :: x in sorted ==> SortKey(x) != SortKey(l)
    ensures Ascending(InsertLine(l, sorted))
    ensures forall x :: x in InsertLine(l, sorted) <==> x in sorted || x == l
  {
    if sorted != [] {
      var head, rest := sorted[0], sorted[1..];
      assert sorted == [head] + rest && head in sorted;
      assert forall x :: x in rest ==> x in sorted;
      BeforeTotal(SortKey(l), SortKey(head));
      if Before(SortKey(l), SortKey(head)) {
        forall j | 0 <= j < |sorted| ensures Before(SortKey(l), SortKey(sorted[j])) {
          if j > 0 {
            BeforeTransitive(SortKey(l), SortKey(head), SortKey(sorted[j]));
          }
        }
      } else {
        InsertLineSorts(l, rest);
        var tail := InsertLine(l, rest);
        forall j | 0 <= j < |tail| ensures Before(SortKey(head), SortKey(tail[j])) {
          assert tail[j] in tail;
          if tail[j] in rest {
            var k :| 0 <= k < |rest| && rest[k] == tail[j];
            assert sorted[k + 1] == rest[k];
          }
        }
      }
    }
  }

  /** Lines with different keys are sorted strictly, none lost and none made up. */
  lemma {:induction false} SortLinesSorts(lines: seq<Line>)
    requires KeysDiffer(lines)
    ensures Ascending(SortLines(lines))
    ensures forall x :: x in SortLines(lines) <==> x in lines
  {
    if lines != [] {
      var init, last := lines[..|lines| - 1], lines[|lines| - 1];
      assert lines == init + [last];
      SortLinesSorts(init);
      forall x | x in SortLines(init) ensures SortKey(x) != SortKey(last) {
        assert x in init;
        var i :| 0 <= i < |init| && init[i] == x;
        assert lines[i] == x;
      }
      InsertLineSorts(last, SortLines(init));
    }
  }

  /** A strictly sorted list is determined by its elements. */
  lemma {:induction false} AscendingUnique(a: seq<Line>, b: seq<Line>)
    requires Ascending(a) && Ascending(b) && forall x :: x in a <==> x in b
    ensures a == b
  {
    EmptyTogether(a, b);
    if a != [] {
      HeadIsLeast(a, b);
      HeadIsLeast(b, a);
      BeforeTotal(SortKey(a[0]), SortKey(b[0]));
      TailMembers(a);
      TailMembers(b);
      AscendingUnique(a[1..], b[1..]);
      assert a == [a[0]] + a[1..] && b == [b[0]] + b[1..];
    }
  }

  lemma {:induction false} EmptyTogether(a: seq<Line>, b: seq<Line>)
    requires forall x :: x in a <==> x in b
    ensures a == [] <==> b == []
  {
    if a != [] {
      assert a[0] in a;
    }
    if b != [] {
      assert b[0] in b;
    }
  }

  lemma {:induction false} HeadIsLeast(a: seq<Line>, b: seq<Line>)
    requires Ascending(b) && a != [] && b != [] && forall x :: x in a ==> x in b
    ensures a[0] == b[0] || Before(SortKey(b[0]), SortKey(a[0]))
  {
    assert a[0] in a;
    var k :| 0 <= k < |b| && b[k] == a[0];
  }

  lemma {:induction false} TailMembers(a: seq<Line>)
    requires Ascending(a) && a != []
    ensures forall x :: x in a[1..] <==> x in a && x != a[0]
  {
    BeforeTotal(SortKey(a[0]), SortKey(a[0]));
    assert a == [a[0]] + a[1..];
    forall x | x in a[1..] ensures x != a[0] {
      var k :| 0 <= k < |a[1..]| && a[1..][k] == x;
      assert a[k + 1] == x;
    }
  }

  // ---------------------------------------------------------------- lines of a tree

  predicate NoSlash(name: Name) {
    SLASH !in name
  }

  /** A component as a file system allows it. */
  predicate PlainName(name: Name) {
    NUL !in name && NoSlash(name)
  }

  /** Every NUL of the name has at most `k` bytes behind it. */
  predicate Tails(name: Name, k: nat) {
    forall i | 0 <= i < |name| :: name[i] == NUL ==> |name| - i - 1 <= k
  }

  /** With tails this short a tree object can be read back in one way only. */
  const SAFE_TAIL: nat := 4

  predicate ShortTails(name: Name) {
    Tails(name, SAFE_TAIL)
  }

  /** Every name of the tree satisfies a condition. */
  ghost predicate AllNames(items: seq<Item>, ok: Name -> bool) {
    forall i | 0 <= i < |items| ::
      ok(items[i].name) && (items[i].node.Dir? ==> AllNames(items[i].node.items, ok))
  }

  /** Every leaf carries a 20-byte id. */
  ghost predicate LeafIds(items: seq<Item>) {
    forall i | 0 <= i < |items| ::
      match items[i].node
      case File(leaf) => |leaf.id| == ID_LENGTH
      case Dir(sub) => LeafIds(sub)
  }

  /** A tree whose object can be read back. */
  ghost predicate Plain(items: seq<Item>) {
    AllNames(items, NoSlash) && AllNames(items, ShortTails) && LeafIds(items)
  }

  lemma {:induction false} KeysOfDistinctNames(a: Line, b: Line)
    requires a.name != b.name && SLASH !in a.name && SLASH !in b.name
    ensures SortKey(a) != SortKey(b)
  {
    assert SortKey(a)[..|a.name|] == a.name && SortKey(b)[..|b.name|] == b.name;
    assert a.mode.Directory? ==> SLASH in SortKey(a) by {
      assert a.mode.Directory? ==> SortKey(a)[|a.name|] == SLASH;
    }
    assert b.mode.Directory? ==> SLASH in SortKey(b) by {
      assert b.mode.Directory? ==> SortKey(b)[|b.name|] == SLASH;
    }
    assert !a.mode.Directory? ==> SortKey(a) == a.name;
    assert !b.mode.Directory? ==> SortKey(b) == b.name;
  }

  lemma {:induction false} TreeKeysDiffer(sha1: Sha1, items: seq<Item>)
    requires WellFormed(items) && AllNames(items, NoSlash)
    ensures KeysDiffer(LinesOf(sha1, items))
  {
    var lines := LinesOf(sha1, items);
    forall i, j | 0 <= i < j < |lines| ensures SortKey(lines[i]) != SortKey(lines[j]) {
      assert items[i].name != items[j].name;
      assert lines[i] == LineOf(sha1, items[i]) && lines[j] == LineOf(sha1, items[j]);
      KeysOfDistinctNames(lines[i], lines[j]);
    }
  }

  ghost predicate SameLeaves(a: seq<Item>, b: seq<Item>) {
    forall p :: Lookup(a, p) == Lookup(b, p)
  }

  // ---------------------------------------------------------------- canonical form

  /** Below a name that both trees have as a directory, they still have the same leaves. */
  lemma {:induction false} SameBelow(a: seq<Item>, b: seq<Item>, i: nat, j: nat)
    requires WellFormed(a) && WellFormed(b) && SameLeaves(a, b)
    requires i < |a| && j < |b| && a[i].name == b[j].name && a[i].node.Dir? && b[j].node.Dir?
    ensures SameLeaves(a[i].node.items, b[j].node.items)
  {
    forall q ensures Lookup(a[i].node.items, q) == Lookup(b[j].node.items, q) {
      var p := [a[i].name] + q;
      assert p[1..] == q;
      LookupAt(a, i, p);
      LookupAt(b, j, p);
      assert Lookup(a, p) == Lookup(b, p);
    }
  }

  /** A name of one tree is a name of the other, of the same kind. */
  lemma {:induction false} Counterpart(a: seq<Item>, b: seq<Item>, i: nat) returns (j: nat)
    requires WellFormed(a) && WellFormed(b) && SameLeaves(a, b) && i < |a|
    ensures j < |b| && a[i].name == b[j].name
    ensures a[i].node.File? ==> b[j].node == a[i].node
    ensures a[i].node.Dir? ==> b[j].node.Dir?
  {
    var name := a[i].name;
    FindFacts(b, name);
    match a[i].node
    case File(leaf) =>
      var p := [name];
      LookupAt(a, i, p);
      assert Lookup(b, p) == Some(leaf);
      j := Find(b, name).value;
      LookupAt(b, j, p);
    case Dir(sub) =>
      var rest := SomeLeaf(sub);
      var p := [name] + rest;
      assert p[1..] == rest;
      LookupAt(a, i, p);
      assert Lookup(b, p).Some?;
      j := Find(b, name).value;
      LookupAt(b, j, p);
  }

  /** The tree object depends on the leaves only, not on the order in which the directories were filled. */
  lemma {:induction false} TreeIsCanonical(sha1: Sha1, a: seq<Item>, b: seq<Item>)
    requires WellFormed(a) && WellFormed(b) && AllNames(a, NoSlash) && AllNames(b, NoSlash) && SameLeaves(a, b)
    ensures WriteTree(sha1, a) == WriteTree(sha1, b)
    decreases a
  {
    var x, y := LinesOf(sha1, a), LinesOf(sha1, b);
    forall i | 0 <= i < |a| ensures x[i] in y {
      var j := Counterpart(a, b, i);
      if a[i].node.Dir? {
        SameBelow(a, b, i, j);
        TreeIsCanonical(sha1, a[i].node.items, b[j].node.items);
      }
      assert x[i] == LineOf(sha1, a[i]) == LineOf(sha1, b[j]) == y[j];
    }
    forall j | 0 <= j < |b| ensures y[j] in x {
      var i := Counterpart(b, a, j);
      if b[j].node.Dir? {
        SameBelow(a, b, i, j);
        TreeIsCanonical(sha1, a[i].node.items, b[j].node.items);
      }
      assert y[j] == LineOf(sha1, b[j]) == LineOf(sha1, a[i]) == x[i];
    }
    SameElements(x, y);
    TreeKeysDiffer(sha1, a);
    TreeKeysDiffer(sha1, b);
    SortLinesSorts(x);
    SortLinesSorts(y);
    AscendingUnique(SortLines(x), SortLines(y));
  }

  lemma {:induction false} SameElements(x: seq<Line>, y: seq<Line>)
    requires forall i | 0 <= i < |x| :: x[i] in y
    requires forall j | 0 <= j < |y| :: y[j] in x
    ensures forall l :: l in x <==> l in y
  {
  }

  // ---------------------------------------------------------------- injectivity

  ghost predicate PlainLine(l: Line) {
    ShortTails(l.name) && |l.id| == ID_LENGTH
  }

  lemma {:induction false} ModeBytesInjective(a: EntryMode, b: EntryMode)
    ensures ModeBytes(a) == ModeBytes(b) ==> a == b
    ensures SPACE !in ModeBytes(a)
  {
    assert ModeBytes(Stored(Regular))[3] != ModeBytes(Stored(Executable))[3];
    assert ModeBytes(Stored(Regular))[1] != ModeBytes(Stored(Gitlink))[1];
    assert ModeBytes(Stored(Executable))[1] != ModeBytes(Stored(Gitlink))[1];
    assert |ModeBytes(Directory)| == 5;
    match a
    case Directory =>
    case Stored(Regular) =>
    case Stored(Executable) =>
    case Stored(Gitlink) =>
  }

  lemma {:induction false} SerializeSplits(x: seq<Line>)
    requires x != []
    ensures Serialize(x) == ModeBytes(x[0].mode) + [SPACE] + (x[0].name + [NUL] + (x[0].id + Serialize(x[1..])))
  {
  }

  /** Two tree objects that agree agree on the first mode and on everything behind it. */
  lemma {:induction false} SameFirstMode(x: seq<Line>, y: seq<Line>)
    requires x != [] && y != [] && Serialize(x) == Serialize(y)
    ensures x[0].mode == y[0].mode
    ensures x[0].name + [NUL] + (x[0].id + Serialize(x[1..])) == y[0].name + [NUL] + (y[0].id + Serialize(y[1..]))
  {
    SerializeSplits(x);
    SerializeSplits(y);
    ModeBytesInjective(x[0].mode, y[0].mode);
    ModeBytesInjective(y[0].mode, x[0].mode);
    SplitOnce(ModeBytes(x[0].mode), x[0].name + [NUL] + (x[0].id + Serialize(x[1..])),
              ModeBytes(y[0].mode), y[0].name + [NUL] + (y[0].id + Serialize(y[1..])), SPACE);
  }

  /** A shorter name ends at a NUL of the longer one, and what is behind that NUL starts with the shorter one's id. */
  lemma {:induction false} NameCut(a: Name, rest: Bytes, b: Name, tail: Bytes)
    requires a + [NUL] + rest == b + [NUL] + tail && |a| < |b|
    ensures b[|a|] == NUL && a == b[..|a|] && rest == b[|a| + 1..] + [NUL] + tail
  {
    var u, v := a + [NUL] + rest, b + [NUL] + tail;
    assert u[|a|] == NUL && v[|a|] == b[|a|];
    assert u[..|a|] == a && v[..|a|] == b[..|a|];
    assert u[|a| + 1..] == rest && v[|a| + 1..] == b[|a| + 1..] + [NUL] + tail;
  }

  /** The text of a mode does not start inside another one. */
  lemma {:induction false} ModesApart(m: EntryMode, n: EntryMode, text: Bytes, from: nat)
    requires |ModeBytes(m)| < |text| && text[..|ModeBytes(m)|] == ModeBytes(m) && text[|ModeBytes(m)|] == SPACE
    requires 1 <= from <= 5 && from + 2 <= |text|
    ensures text[from] != ModeBytes(n)[0] || text[from + 1] != ModeBytes(n)[1]
  {
    var bytes := ModeBytes(m);
    assert forall k | 0 <= k < |bytes| :: text[k] == bytes[k];
    match m
    case Directory =>
    case Stored(Regular) =>
    case Stored(Executable) =>
    case Stored(Gitlink) =>
  }

  /** So a cut leaves at least five bytes behind it. */
  lemma {:induction false} CutTail(x: seq<Line>, y: seq<Line>)
    requires x != [] && y != [] && Serialize(x) == Serialize(y) && |x[0].name| < |y[0].name|
    requires |x[0].id| == |y[0].id| == ID_LENGTH && (x[1..] != [] ==> |x[1].id| == ID_LENGTH)
    ensures !ShortTails(y[0].name)
  {
    SameFirstMode(x, y);
    var more, others := Serialize(x[1..]), Serialize(y[1..]);
    NameCut(x[0].name, x[0].id + more, y[0].name, y[0].id + others);
    var w := y[0].name[|x[0].name| + 1..];
    if |w| <= SAFE_TAIL {
      LeftOver(x[0].id, more, w, y[0].id, others);
      ShortLeftOver(x[1..], y[0].id[ID_LENGTH - 1 - |w|..], y[1..]);
    }
    assert y[0].name[|x[0].name|] == NUL;
  }

  lemma {:induction false} LeftOver(id: Bytes, more: Bytes, w: Bytes, other: Bytes, others: Bytes)
    requires |id| == |other| == ID_LENGTH && |w| < ID_LENGTH && id + more == w + [NUL] + (other + others)
    ensures more == other[ID_LENGTH - 1 - |w|..] + others
  {
    var all := w + [NUL] + (other + others);
    assert (id + more)[ID_LENGTH..] == more;
    assert all[ID_LENGTH..] == other[ID_LENGTH - 1 - |w|..] + others;
  }

  /** One to five bytes in front of a tree object never make another one. */
  lemma {:induction false} ShortLeftOver(x: seq<Line>, t: Bytes, y: seq<Line>)
    requires 1 <= |t| <= 5 && (x != [] ==> |x[0].id| == ID_LENGTH)
    ensures Serialize(x) != t + Serialize(y)
  {
    var text := t + Serialize(y);
    if x != [] && y != [] {
      SerializeSplits(x);
      SerializeSplits(y);
      var mode := ModeBytes(x[0].mode);
      assert Serialize(x)[..|mode|] == mode && Serialize(x)[|mode|] == SPACE;
      assert text[|t|] == ModeBytes(y[0].mode)[0] && text[|t| + 1] == ModeBytes(y[0].mode)[1];
      if |mode| < |text| && text[..|mode|] == mode && text[|mode|] == SPACE {
        ModesApart(x[0].mode, y[0].mode, text, |t|);
      }
    } else if x != [] {
      SerializeSplits(x);
      assert |Serialize(x)| >= 27;
    }
  }

  lemma {:induction false} SameFirstLine(x: seq<Line>, y: seq<Line>)
    requires x != [] && y != [] && Serialize(x) == Serialize(y) && |x[0].name| == |y[0].name|
    requires |x[0].id| == |y[0].id| == ID_LENGTH
    ensures x[0] == y[0] && Serialize(x[1..]) == Serialize(y[1..])
  {
    SameFirstMode(x, y);
    var u, v := x[0].id + Serialize(x[1..]), y[0].id + Serialize(y[1..]);
    assert (x[0].name + [NUL] + u)[..|x[0].name|] == x[0].name && (y[0].name + [NUL] + v)[..|x[0].name|] == y[0].name;
    assert (x[0].name + [NUL] + u)[|x[0].name| + 1..] == u && (y[0].name + [NUL] + v)[|x[0].name| + 1..] == v;
    assert u[..ID_LENGTH] == x[0].id && v[..ID_LENGTH] == y[0].id;
    assert u[ID_LENGTH..] == Serialize(x[1..]) && v[ID_LENGTH..] == Serialize(y[1..]);
  }

  /** A tree object with short tails reads back as one list of lines only. */
  lemma {:induction false} SerializeInjective(x: seq<Line>, y: seq<Line>)
    requires forall l :: l in x || l in y ==> PlainLine(l)
    requires Serialize(x) == Serialize(y)
    ensures x == y
  {
    NonEmptySerializes(x);
    NonEmptySerializes(y);
    if x != [] && y != [] {
      HeadsPlain(x);
      HeadsPlain(y);
      if |x[0].name| < |y[0].name| {
        CutTail(x, y);
      } else if |y[0].name| < |x[0].name| {
        CutTail(y, x);
      }
      SameFirstLine(x, y);
      SerializeInjective(x[1..], y[1..]);
      assert x == [x[0]] + x[1..] && y == [y[0]] + y[1..];
    }
  }

  lemma {:induction false} HeadsPlain(x: seq<Line>)
    requires x != [] && forall l :: l in x ==> PlainLine(l)
    ensures PlainLine(x[0]) && (x[1..] != [] ==> PlainLine(x[1]))
  {
    assert x[0] in x;
    if |x| > 1 {
      assert x[1] in x;
    }
  }

  lemma {:induction false} NonEmptySerializes(x: seq<Line>)
    ensures x != [] <==> Serialize(x) != []
  {
    if x != [] {
      assert Serialize(x)[|ModeBytes(x[0].mode)|] == SPACE;
    }
  }

  /** Every tree object hashed below a directory. */
  ghost function HashedBelow(sha1: Sha1, items: seq<Item>): set<Bytes>
    decreases items
  {
    if items == [] then {}
    else
      (match items[0].node
       case File(_) => {}
       case Dir(sub) => {Framed(Tree, WriteTree(sha1, sub))} + HashedBelow(sha1, sub))
      + HashedBelow(sha1, items[1..])
  }

  /** Every tree object hashed for a root. */
  ghost function HashedTrees(sha1: Sha1, items: seq<Item>): set<Bytes> {
    {Framed(Tree, WriteTree(sha1, items))} + HashedBelow(sha1, items)
  }

  lemma {:induction false} SubtreeHashed(sha1: Sha1, items: seq<Item>, i: nat)
    requires i < |items| && items[i].node.Dir?
    ensures HashedTrees(sha1, items[i].node.items) <= HashedBelow(sha1, items)
  {
    if i > 0 {
      assert items[1..][i - 1] == items[i];
      SubtreeHashed(sha1, items[1..], i - 1);
    }
  }

  /** The hash has no collision among these inputs. */
  ghost predicate InjectiveOn(sha1: Sha1, inputs: set<Bytes>) {
    forall x, y | x in inputs && y in inputs && sha1(x) == sha1(y) :: x == y
  }

  ghost predicate TwentyBytes(sha1: Sha1) {
    forall x :: |sha1(x)| == ID_LENGTH
  }

  lemma {:induction false} PlainLines(sha1: Sha1, items: seq<Item>)
    requires Plain(items) && TwentyBytes(sha1)
    ensures forall l :: l in LinesOf(sha1, items) ==> PlainLine(l)
  {
    var lines := LinesOf(sha1, items);
    forall l | l in lines ensures PlainLine(l) {
      var k :| 0 <= k < |lines| && lines[k] == l;
      assert l == LineOf(sha1, items[k]) && ShortTails(items[k].name);
    }
  }

  /** Equal tree objects have the same lines. */
  lemma {:induction false} EqualTreesEqualLines(sha1: Sha1, a: seq<Item>, b: seq<Item>)
    requires WellFormed(a) && WellFormed(b) && Plain(a) && Plain(b) && TwentyBytes(sha1)
    requires WriteTree(sha1, a) == WriteTree(sha1, b)
    ensures forall l :: l in LinesOf(sha1, a) <==> l in LinesOf(sha1, b)
  {
    TreeKeysDiffer(sha1, a);
    TreeKeysDiffer(sha1, b);
    SortLinesSorts(LinesOf(sha1, a));
    SortLinesSorts(LinesOf(sha1, b));
    PlainLines(sha1, a);
    PlainLines(sha1, b);
    SerializeInjective(SortLines(LinesOf(sha1, a)), SortLines(LinesOf(sha1, b)));
  }

  lemma {:induction false} EqualIdsEqualTrees(sha1: Sha1, a: seq<Item>, b: seq<Item>, hashed: set<Bytes>)
    requires InjectiveOn(sha1, hashed) && HashedTrees(sha1, a) <= hashed && HashedTrees(sha1, b) <= hashed
    requires RootId(sha1, a) == RootId(sha1, b)
    ensures WriteTree(sha1, a) == WriteTree(sha1, b)
  {
    assert Framed(Tree, WriteTree(sha1, a)) in HashedTrees(sha1, a);
    assert Framed(Tree, WriteTree(sha1, b)) in HashedTrees(sha1, b);
    FramedInjective(Tree, WriteTree(sha1, a), Tree, WriteTree(sha1, b));
  }

  /** Where one tree has an item, a tree with the same id has its equal. */
  lemma {:induction false} MatchingItem(sha1: Sha1, a: seq<Item>, b: seq<Item>, i: nat) returns (j: nat)
    requires forall l :: l in LinesOf(sha1, a) <==> l in LinesOf(sha1, b)
    requires i < |a|
    ensures j < |b| && LineOf(sha1, a[i]) == LineOf(sha1, b[j])
  {
    assert LinesOf(sha1, a)[i] in LinesOf(sha1, a);
    j :| 0 <= j < |LinesOf(sha1, b)| && LinesOf(sha1, b)[j] == LinesOf(sha1, a)[i];
  }

  /** Without a collision among what was hashed, trees with the same id have the same leaves. */
  lemma {:induction false} TreeIsInjective(sha1: Sha1, a: seq<Item>, b: seq<Item>, hashed: set<Bytes>)
    requires WellFormed(a) && WellFormed(b) && Plain(a) && Plain(b) && TwentyBytes(sha1)
    requires InjectiveOn(sha1, hashed) && HashedTrees(sha1, a) <= hashed && HashedTrees(sha1, b) <= hashed
    requires RootId(sha1, a) == RootId(sha1, b)
    ensures SameLeaves(a, b)
    decreases a
  {
    EqualIdsEqualTrees(sha1, a, b, hashed);
    EqualTreesEqualLines(sha1, a, b);
    forall p ensures Lookup(a, p) == Lookup(b, p) {
      if p != [] {
        FindFacts(a, p[0]);
        FindFacts(b, p[0]);
        if Find(a, p[0]).Some? {
          var i := Find(a, p[0]).value;
          var j := MatchingItem(sha1, a, b, i);
          LookupAt(a, i, p);
          LookupAt(b, j, p);
          if a[i].node.Dir? {
            SubtreeHashed(sha1, a, i);
            SubtreeHashed(sha1, b, j);
            TreeIsInjective(sha1, a[i].node.items, b[j].node.items, hashed);
          }
        } else if Find(b, p[0]).Some? {
          var i := MatchingItem(sha1, b, a, Find(b, p[0]).value);
        }
      }
    }
  }
}
