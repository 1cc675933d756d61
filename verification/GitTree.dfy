/** Rebuilding a Git tree from paths: the nested directories, and when a set of paths is accepted. */
module GitTree {
  import opened Prelude
  import opened WireFormat

  /** A path component, as its bytes. */
  type Name = Bytes
  type Path = seq<Name>

  datatype Mode = Regular | Executable | Gitlink

  /** What a path leads to: a mode and an object id. */
  datatype Leaf = Leaf(mode: Mode, id: Bytes)

  /** A directory is a list of items in insertion order, as a Python dict is. */
  datatype Node = File(leaf: Leaf) | Dir(items: seq<Item>)
  datatype Item = Item(name: Name, node: Node)

  function Find(items: seq<Item>, name: Name): Option<nat> {
    if items == [] then None
    else if items[0].name == name then Some(0)
    else
      var i := Find(items[1..], name);
      if i.None? then None else Some(i.value + 1)
  }

  lemma {:induction false} FindFacts(items: seq<Item>, name: Name)
    ensures var i := Find(items, name);
            && (i.Some? ==> i.value < |items| && items[i.value].name == name)
            && (i.None? ==> forall k | 0 <= k < |items| :: items[k].name != name)
  {
    if items != [] && items[0].name != name {
      FindFacts(items[1..], name);
    }
  }

  /** The leaf a path leads to, if any. */
  function Lookup(items: seq<Item>, path: Path): Option<Leaf>
    decreases |path|
  {
    if path == [] then None
    else
      FindFacts(items, path[0]);
      var i := Find(items, path[0]);
      if i.None? then None
      else
        match items[i.value].node
        case File(leaf) => if |path| == 1 then Some(leaf) else None
        case Dir(sub) => Lookup(sub, path[1..])
  }

  /** Distinct names at every level, and no empty directory below the root. */
  ghost predicate WellFormed(items: seq<Item>) {
    && (forall i, j | 0 <= i < j < |items| :: items[i].name != items[j].name)
    && (forall i | 0 <= i < |items| :: items[i].node.Dir? ==>
          items[i].node.items != [] && WellFormed(items[i].node.items))
  }

  /** Puts a leaf at a path, making directories on the way; refused when the path collides with one there. */
  function Insert(items: seq<Item>, path: Path, leaf: Leaf): Option<seq<Item>>
    requires path != []
    decreases |path|
  {
    FindFacts(items, path[0]);
    var i := Find(items, path[0]);
    if |path| == 1 then
      (if i.Some? then None else Some(items + [Item(path[0], File(leaf))]))
    else if i.None? then
      var sub := Insert([], path[1..], leaf);
      if sub.None? then None else Some(items + [Item(path[0], Dir(sub.value))])
    else
      match items[i.value].node
      case File(_) => None
      case Dir(present) =>
        var sub := Insert(present, path[1..], leaf);
        if sub.None? then None else Some(items[i.value := Item(path[0], Dir(sub.value))])
  }

  // ---------------------------------------------------------------- lookups

  lemma {:induction false} FindUnique(items: seq<Item>, name: Name, k: nat)
    requires k < |items| && items[k].name == name
    requires forall i, j | 0 <= i < j < |items| :: items[i].name != items[j].name
    ensures Find(items, name) == Some(k)
  {
    FindFacts(items, name);
  }

  lemma {:induction false} LookupAt(items: seq<Item>, k: nat, path: Path)
    requires k < |items| && path != [] && items[k].name == path[0]
    requires forall i, j | 0 <= i < j < |items| :: items[i].name != items[j].name
    ensures Lookup(items, path) ==
              match items[k].node
              case File(leaf) => (if |path| == 1 then Some(leaf) else None)
              case Dir(sub) => Lookup(sub, path[1..])
  {
    FindUnique(items, path[0], k);
  }

  lemma {:induction false} LookupAbsent(items: seq<Item>, path: Path)
    requires path != [] && forall k | 0 <= k < |items| :: items[k].name != path[0]
    ensures Lookup(items, path) == None
  {
    FindFacts(items, path[0]);
  }

  /** A directory that is not empty leads to some leaf. */
  lemma {:induction false} SomeLeaf(items: seq<Item>) returns (path: Path)
    requires WellFormed(items) && items != []
    ensures path != [] && Lookup(items, path).Some?
  {
    match items[0].node
    case File(leaf) =>
      path := [items[0].name];
      LookupAt(items, 0, path);
    case Dir(sub) =>
      var rest := SomeLeaf(sub);
      path := [items[0].name] + rest;
      assert path[1..] == rest;
      LookupAt(items, 0, path);
  }

  /** Two paths collide when one is the other, or leads through it. */
  predicate Collide(a: Path, b: Path) {
    a <= b || b <= a
  }

  /** Nothing in the tree collides with this path. */
  ghost predicate Free(items: seq<Item>, path: Path) {
    forall p :: Lookup(items, p).Some? ==> !Collide(p, path)
  }

  lemma {:induction false} LookupAppend(items: seq<Item>, added: Item, p: Path)
    requires WellFormed(items) && p != []
    requires forall k | 0 <= k < |items| :: items[k].name != added.name
    ensures Lookup(items + [added], p) ==
              if p[0] != added.name then Lookup(items, p)
              else match added.node
                   case File(leaf) => (if |p| == 1 then Some(leaf) else None)
                   case Dir(sub) => Lookup(sub, p[1..])
  {
    var grown := items + [added];
    if p[0] == added.name {
      LookupAt(grown, |items|, p);
    } else {
      FindFacts(items, p[0]);
      if Find(items, p[0]).Some? {
        var k := Find(items, p[0]).value;
        assert grown[k] == items[k];
        LookupAt(grown, k, p);
        LookupAt(items, k, p);
      } else {
        LookupAbsent(items, p);
        LookupAbsent(grown, p);
      }
    }
  }

  lemma {:induction false} LookupUpdate(items: seq<Item>, k: nat, changed: Item, p: Path)
    requires WellFormed(items) && p != [] && k < |items| && items[k].name == changed.name
    ensures Lookup(items[k := changed], p) ==
              if p[0] != changed.name then Lookup(items, p)
              else match changed.node
                   case File(leaf) => (if |p| == 1 then Some(leaf) else None)
                   case Dir(sub) => Lookup(sub, p[1..])
  {
    var after := items[k := changed];
    if p[0] == changed.name {
      LookupAt(after, k, p);
    } else {
      FindFacts(items, p[0]);
      if Find(items, p[0]).Some? {
        var j := Find(items, p[0]).value;
        assert after[j] == items[j];
        LookupAt(after, j, p);
        LookupAt(items, j, p);
      } else {
        LookupAbsent(items, p);
        LookupAbsent(after, p);
      }
    }
  }

  // ---------------------------------------------------------------- insertion

  /** What a successful insertion changes: exactly the one path. */
  ghost predicate Adds(before: seq<Item>, after: seq<Item>, path: Path, leaf: Leaf) {
    && WellFormed(after) && after != []
    && forall p :: Lookup(after, p) == if p == path then Some(leaf) else Lookup(before, p)
  }

  lemma {:induction false} InsertAdds(items: seq<Item>, path: Path, leaf: Leaf)
    requires WellFormed(items) && path != [] && Insert(items, path, leaf).Some?
    ensures Adds(items, Insert(items, path, leaf).value, path, leaf)
    decreases |path|
  {
    FindFacts(items, path[0]);
    var i := Find(items, path[0]);
    var after := Insert(items, path, leaf).value;
    if i.None? {
      var added := after[|items|];
      if |path| > 1 {
        InsertAdds([], path[1..], leaf);
      }
      forall p ensures Lookup(after, p) == if p == path then Some(leaf) else Lookup(items, p) {
        if p != [] {
          LookupAppend(items, added, p);
          if p[0] == path[0] {
            LookupAbsent(items, p);
            assert p == [p[0]] + p[1..] && path == [path[0]] + path[1..];
            assert |path| > 1 ==> Lookup([], p[1..]) == None;
          }
        }
      }
    } else {
      var k := i.value;
      InsertAdds(items[k].node.items, path[1..], leaf);
      forall p ensures Lookup(after, p) == if p == path then Some(leaf) else Lookup(items, p) {
        if p != [] {
          LookupUpdate(items, k, after[k], p);
          if p[0] == path[0] {
            LookupAt(items, k, p);
            assert p == [p[0]] + p[1..] && path == [path[0]] + path[1..];
          }
        }
      }
    }
  }

  /** An insertion is refused exactly when a path in the tree collides with the new one. */
  lemma {:induction false} InsertExactlyWhenFree(items: seq<Item>, path: Path, leaf: Leaf)
    requires WellFormed(items) && path != []
    ensures Insert(items, path, leaf).Some? <==> Free(items, path)
    decreases |path|
  {
    FindFacts(items, path[0]);
    var i := Find(items, path[0]);
    if i.None? {
      if |path| > 1 {
        InsertExactlyWhenFree([], path[1..], leaf);
        assert forall p :: Lookup([], p) == None;
      }
      forall p | Lookup(items, p).Some? ensures !Collide(p, path) {
        if p[0] == path[0] {
          LookupAbsent(items, p);
        }
      }
    } else {
      match items[i.value].node
      case File(there) =>
        LookupAt(items, i.value, [path[0]]);
        assert [path[0]] <= path;
      case Dir(sub) =>
        if |path| == 1 {
          var rest := SomeLeaf(sub);
          var p := [path[0]] + rest;
          assert p[1..] == rest;
          LookupAt(items, i.value, p);
          assert path <= p;
        } else {
          InsertExactlyWhenFree(sub, path[1..], leaf);
          FreeBelow(items, i.value, path);
        }
    }
  }

  /** Two longer paths with the same first name collide exactly when their rests do. */
  lemma {:induction false} CollideBelow(p: Path, q: Path)
    requires |p| > 1 && |q| > 1 && p[0] == q[0]
    ensures Collide(p, q) <==> Collide(p[1..], q[1..])
  {
    assert p == [p[0]] + p[1..] && q == [q[0]] + q[1..];
  }

  lemma {:induction false} FreeBelow(items: seq<Item>, k: nat, path: Path)
    requires WellFormed(items) && |path| > 1 && k < |items| && items[k].name == path[0] && items[k].node.Dir?
    ensures Free(items, path) <==> Free(items[k].node.items, path[1..])
  {
    if Free(items, path) {
      forall q | Lookup(items[k].node.items, q).Some? ensures !Collide(q, path[1..]) {
        var p := [path[0]] + q;
        assert p[1..] == q;
        LookupAt(items, k, p);
        CollideBelow(p, path);
      }
    }
    if Free(items[k].node.items, path[1..]) {
      forall p | Lookup(items, p).Some? ensures !Collide(p, path) {
        if p[0] == path[0] {
          LookupAt(items, k, p);
          if |p| > 1 {
            CollideBelow(p, path);
          }
        }
      }
    }
  }

  // ---------------------------------------------------------------- all files

  /** A path and what it leads to. */
  datatype Entry = Entry(path: Path, leaf: Leaf)

  /** Inserts entries one by one, in order. */
  function BuildAll(entries: seq<Entry>): Option<seq<Item>>
    requires forall e :: e in entries ==> e.path != []
  {
    if entries == [] then Some([])
    else
      var before := BuildAll(entries[..|entries| - 1]);
      if before.None? then None
      else Insert(before.value, entries[|entries| - 1].path, entries[|entries| - 1].leaf)
  }

  /** No two entries collide. */
  ghost predicate Compatible(entries: seq<Entry>) {
    forall i, j | 0 <= i < j < |entries| :: !Collide(entries[i].path, entries[j].path)
  }

  /** The tree leads exactly to the entries: no path is lost, none is made up. */
  ghost predicate Holds(items: seq<Item>, entries: seq<Entry>) {
    && WellFormed(items)
    && (forall e :: e in entries ==> Lookup(items, e.path) == Some(e.leaf))
    && (forall p :: Lookup(items, p).Some? ==> exists e :: e in entries && e.path == p)
  }

  lemma {:induction false} BuildHolds(entries: seq<Entry>)
    requires forall e :: e in entries ==> e.path != []
    ensures BuildAll(entries).Some? <==> Compatible(entries)
    ensures BuildAll(entries).Some? ==> Holds(BuildAll(entries).value, entries)
  {
    if entries != [] {
      var init, e := entries[..|entries| - 1], entries[|entries| - 1];
      BuildHolds(init);
      assert entries == init + [e];
      CompatiblePrefix(init, e);
      if Compatible(init) {
        BuildOne(BuildAll(init).value, init, e);
      }
    }
  }

  lemma {:induction false} CompatiblePrefix(init: seq<Entry>, e: Entry)
    ensures Compatible(init + [e]) ==> Compatible(init)
  {
    forall i, j | 0 <= i < j < |init| && Compatible(init + [e]) ensures !Collide(init[i].path, init[j].path) {
      assert (init + [e])[i] == init[i] && (init + [e])[j] == init[j];
    }
  }

  lemma {:induction false} BuildOne(tree: seq<Item>, init: seq<Entry>, e: Entry)
    requires Holds(tree, init) && Compatible(init) && e.path != []
    ensures Insert(tree, e.path, e.leaf).Some? <==> Compatible(init + [e])
    ensures Insert(tree, e.path, e.leaf).Some? ==> Holds(Insert(tree, e.path, e.leaf).value, init + [e])
  {
    InsertExactlyWhenFree(tree, e.path, e.leaf);
    FreeMeansCompatible(tree, init, e);
    if Insert(tree, e.path, e.leaf).Some? {
      InsertAdds(tree, e.path, e.leaf);
      GrownHolds(tree, Insert(tree, e.path, e.leaf).value, init, e, init + [e]);
    }
  }

  lemma {:induction false} FreeMeansCompatible(tree: seq<Item>, init: seq<Entry>, e: Entry)
    requires Holds(tree, init) && Compatible(init)
    ensures Free(tree, e.path) <==> Compatible(init + [e])
  {
    var all := init + [e];
    if Free(tree, e.path) {
      forall i, j | 0 <= i < j < |all| ensures !Collide(all[i].path, all[j].path) {
        if j == |init| {
          assert all[i] in init;
        }
      }
    }
    if Compatible(all) {
      forall p | Lookup(tree, p).Some? ensures !Collide(p, e.path) {
        var x :| x in init && x.path == p;
        var i :| 0 <= i < |init| && init[i] == x;
        assert all[i] == x && all[|init|] == e;
      }
    }
  }

  lemma {:induction false} GrownHolds(tree: seq<Item>, grown: seq<Item>, init: seq<Entry>, e: Entry,
                                      entries: seq<Entry>)
    requires Holds(tree, init) && Adds(tree, grown, e.path, e.leaf) && Free(tree, e.path)
    requires forall x :: x in entries <==> x in init || x == e
    ensures Holds(grown, entries)
  {
    forall x | x in entries ensures Lookup(grown, x.path) == Some(x.leaf) {
      if x in init {
        assert !Collide(x.path, e.path);
      }
    }
    forall p | Lookup(grown, p).Some? ensures exists x :: x in entries && x.path == p {
      if p != e.path {
        var x :| x in init && x.path == p;
      } else {
        assert e in entries;
      }
    }
  }

  /** Two inputs with the same entries, in whatever order, lead to trees with the same leaves. */
  lemma {:induction false} SameEntriesSameLeaves(a: seq<Item>, b: seq<Item>, x: seq<Entry>, y: seq<Entry>)
    requires Holds(a, x) && Holds(b, y)
    requires forall e :: e in x <==> e in y
    ensures forall p :: Lookup(a, p) == Lookup(b, p)
  {
    forall p ensures Lookup(a, p) == Lookup(b, p) {
      if Lookup(a, p).Some? {
        var e :| e in x && e.path == p;
      }
      if Lookup(b, p).Some? {
        var e :| e in y && e.path == p;
      }
    }
  }
}
