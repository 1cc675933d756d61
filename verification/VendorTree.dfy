/** The vendored-source check: from a component's files and gitlinks to one Git tree id. */
module VendorTree {
  import opened Prelude
  import opened WireFormat
  import opened GitTree
  import opened GitObjects

  /** A file below the component's base directory. */
  datatype SourceFile = SourceFile(path: Path, symlink: bool, content: Bytes)

  /** A gitlink of the lock; its revision as bytes, or missing when it is not 40 hex digits. */
  datatype LinkSpec = LinkSpec(path: Name, revision: Option<Bytes>)

  datatype Component = Component(files: seq<SourceFile>, executables: set<Path>, gitlinks: seq<LinkSpec>)

  datatype TreeError = UnknownExecutable | SymbolicLink | PathCollision | InvalidGitlink | GitlinkCollision

  function Paths(files: seq<SourceFile>): set<Path> {
    set f | f in files :: f.path
  }

  function FileEntry(sha1: Sha1, executables: set<Path>, f: SourceFile): Entry {
    Entry(f.path, Leaf.Leaf(if f.path in executables then Executable else Regular, ObjectId(sha1, Blob, f.content)))
  }

  function FileEntries(sha1: Sha1, executables: set<Path>, files: seq<SourceFile>): (r: seq<Entry>)
    ensures |r| == |files| && forall k | 0 <= k < |r| :: r[k] == FileEntry(sha1, executables, files[k])
  {
    seq(|files|, k requires 0 <= k < |files| => FileEntry(sha1, executables, files[k]))
  }

  predicate ValidLink(l: LinkSpec) {
    l.path != [] && SLASH !in l.path && l.revision.Some?
  }

  function LinkEntry(l: LinkSpec): Entry {
    Entry([l.path], Leaf.Leaf(Gitlink, if l.revision.Some? then l.revision.value else []))
  }

  function LinkEntries(links: seq<LinkSpec>): (r: seq<Entry>)
    ensures |r| == |links| && forall k | 0 <= k < |r| :: r[k] == LinkEntry(links[k])
  {
    seq(|links|, k requires 0 <= k < |links| => LinkEntry(links[k]))
  }

  /** Everything the tree will hold: the files, then the gitlinks. */
  function AllEntries(sha1: Sha1, c: Component): seq<Entry> {
    FileEntries(sha1, c.executables, c.files) + LinkEntries(c.gitlinks)
  }

  /**
   * What the file system and the pattern for revisions guarantee: non-empty paths of components without slash or NUL,
   * and 20 bytes in every revision.
   */
  ghost predicate OnDisk(c: Component) {
    && (forall f :: f in c.files ==> f.path != [] && forall n :: n in f.path ==> PlainName(n))
    && (forall l :: l in c.gitlinks && l.revision.Some? ==> |l.revision.value| == ID_LENGTH)
  }

  /** The gitlink names of a lock: each NUL in them has at most `k` bytes behind it. */
  ghost predicate LinkTails(c: Component, k: nat) {
    forall l :: l in c.gitlinks ==> Tails(l.path, k)
  }

  predicate NoSymlinks(files: seq<SourceFile>) {
    forall f :: f in files ==> !f.symlink
  }

  predicate AllValid(links: seq<LinkSpec>) {
    forall l :: l in links ==> ValidLink(l)
  }

  predicate Passes(c: Component) {
    c.executables <= Paths(c.files) && NoSymlinks(c.files) && AllValid(c.gitlinks)
  }

  /** When a component is accepted. */
  ghost predicate Accepted(sha1: Sha1, c: Component) {
    && Passes(c)
    && Compatible(AllEntries(sha1, c))
  }

  lemma {:induction false} EntriesHavePaths(sha1: Sha1, c: Component)
    requires OnDisk(c)
    ensures forall e :: e in AllEntries(sha1, c) ==> e.path != []
  {
    forall e | e in AllEntries(sha1, c) ensures e.path != [] {
      var k :| 0 <= k < |AllEntries(sha1, c)| && AllEntries(sha1, c)[k] == e;
      if k < |c.files| {
        assert c.files[k] in c.files;
      }
    }
  }

  lemma {:induction false} TakeMore<T>(all: seq<T>, k: nat)
    requires k < |all|
    ensures all[..k + 1] == all[..k] + [all[k]]
    ensures all[..k + 1][..k] == all[..k]
  {
  }

  /** The tree after the first k entries. */
  ghost function BuiltTo(all: seq<Entry>, k: nat): Option<seq<Item>>
    requires (forall e :: e in all ==> e.path != []) && k <= |all|
  {
    BuildAll(all[..k])
  }

  /** One more entry goes through Insert; a refusal there refuses the whole list. */
  lemma {:induction false} BuildStep(all: seq<Entry>, k: nat, tree: seq<Item>)
    requires forall e :: e in all ==> e.path != []
    requires k < |all| && BuiltTo(all, k) == Some(tree)
    ensures all[k].path != [] && BuiltTo(all, k + 1) == Insert(tree, all[k].path, all[k].leaf)
    ensures BuiltTo(all, k + 1).None? ==> BuildAll(all).None?
  {
    assert all[k] in all;
    BuildGrows(all, k);
    if BuiltTo(all, k + 1).None? {
      RefusedStays(all, k + 1);
    }
  }

  lemma {:induction false} BuildNext(all: seq<Entry>, k: nat, tree: seq<Item>, entry: Entry)
    requires forall e :: e in all ==> e.path != []
    requires k < |all| && BuiltTo(all, k) == Some(tree) && all[k] == entry
    ensures entry.path != [] && BuiltTo(all, k + 1) == Insert(tree, entry.path, entry.leaf)
    ensures Insert(tree, entry.path, entry.leaf).None? ==> BuildAll(all).None?
  {
    BuildStep(all, k, tree);
  }

  lemma {:induction false} BuildGrows(all: seq<Entry>, k: nat)
    requires forall e :: e in all ==> e.path != []
    requires k < |all| && all[k].path != []
    ensures BuiltTo(all, k + 1)
         == if BuiltTo(all, k).None? then None else Insert(BuiltTo(all, k).value, all[k].path, all[k].leaf)
  {
    TakeMore(all, k);
  }

  /** Once a beginning is refused, so is the whole. */
  lemma {:induction false} RefusedStays(all: seq<Entry>, k: nat)
    requires forall e :: e in all ==> e.path != []
    requires k <= |all| && BuiltTo(all, k).None?
    ensures BuildAll(all).None?
    decreases |all| - k
  {
    if k == |all| {
      assert all[..k] == all;
    } else {
      assert all[k] in all;
      BuildGrows(all, k);
      RefusedStays(all, k + 1);
    }
  }

  lemma {:induction false} FileAt(sha1: Sha1, c: Component, k: nat)
    requires k < |c.files|
    ensures k < |AllEntries(sha1, c)| && AllEntries(sha1, c)[k] == FileEntry(sha1, c.executables, c.files[k])
  {
  }

  lemma {:induction false} LinkAt(sha1: Sha1, c: Component, k: nat)
    requires k < |c.gitlinks|
    ensures |c.files| + k < |AllEntries(sha1, c)| && AllEntries(sha1, c)[|c.files| + k] == LinkEntry(c.gitlinks[k])
  {
  }

  ghost predicate FilesFirst(sha1: Sha1, executables: set<Path>, files: seq<SourceFile>, all: seq<Entry>) {
    |files| <= |all| && forall k | 0 <= k < |files| :: all[k] == FileEntry(sha1, executables, files[k])
  }

  // ---------------------------------------------------------------- the first fault

  /** The first k files are no links, and no two of them collide. */
  ghost predicate CleanFiles(files: seq<SourceFile>, k: nat)
    requires k <= |files|
  {
    && (forall i | 0 <= i < k :: !files[i].symlink)
    && (forall i, j | 0 <= i < j < k :: !Collide(files[i].path, files[j].path))
  }

  /** File k is the first that is a link or collides with one before it, and this is the error it causes. */
  ghost predicate FileFault(files: seq<SourceFile>, k: nat, e: TreeError) {
    && k < |files| && CleanFiles(files, k)
    && if files[k].symlink then e.SymbolicLink?
       else e.PathCollision? && exists i: nat :: i < k && Collide(files[i].path, files[k].path)
  }

  predicate Repeats(links: seq<LinkSpec>, k: nat) {
    k < |links| && exists i: nat :: i < k && links[i].path == links[k].path
  }

  predicate HitsFile(files: seq<SourceFile>, l: LinkSpec) {
    exists i: nat :: i < |files| && Collide(files[i].path, [l.path])
  }

  /** The first k gitlinks are valid, have new names, and collide with no file. */
  ghost predicate GoodLinks(files: seq<SourceFile>, links: seq<LinkSpec>, k: nat) {
    k <= |links| && forall i: nat :: i < k ==> ValidLink(links[i]) && !Repeats(links, i) && !HitsFile(files, links[i])
  }

  ghost predicate SeenNames(seen: set<Name>, links: seq<LinkSpec>, k: nat) {
    k <= |links| && forall p :: p in seen <==> exists i: nat :: i < k && links[i].path == p
  }

  lemma {:induction false} SeenGrows(seen: set<Name>, links: seq<LinkSpec>, k: nat)
    requires SeenNames(seen, links, k) && k < |links|
    ensures SeenNames(seen + {links[k].path}, links, k + 1)
    ensures links[k].path in seen <==> Repeats(links, k)
  {
    forall p ensures p in seen + {links[k].path} <==> exists i: nat :: i < k + 1 && links[i].path == p {
      if p == links[k].path {
        assert k < k + 1 && links[k].path == p;
      } else if p in seen {
        var i: nat :| i < k && links[i].path == p;
        assert i < k + 1 && links[i].path == p;
      }
    }
  }

  /** Gitlink k is the first that is invalid, repeats a name or collides with a file, and this is the error it causes. */
  ghost predicate LinkFault(files: seq<SourceFile>, links: seq<LinkSpec>, k: nat, e: TreeError) {
    && k < |links| && CleanFiles(files, |files|)
    && GoodLinks(files, links, k)
    && if !ValidLink(links[k]) || Repeats(links, k) then e.InvalidGitlink?
       else e.GitlinkCollision? && HitsFile(files, links[k])
  }

  /** What each refusal is due to: the first fault there is, in the order of the checks. */
  ghost predicate RefusedFor(c: Component, e: TreeError) {
    if !(c.executables <= Paths(c.files)) then e.UnknownExecutable?
    else (exists k: nat :: FileFault(c.files, k, e)) || (exists k: nat :: LinkFault(c.files, c.gitlinks, k, e))
  }

  lemma {:induction false} BuiltIsCompatible(all: seq<Entry>, k: nat)
    requires (forall e :: e in all ==> e.path != []) && k <= |all| && BuiltTo(all, k).Some?
    ensures forall i, j | 0 <= i < j < k :: !Collide(all[i].path, all[j].path)
  {
    BuildHolds(all[..k]);
    forall i, j | 0 <= i < j < k ensures !Collide(all[i].path, all[j].path) {
      assert all[..k][i] == all[i] && all[..k][j] == all[j];
    }
  }

  /** An entry that cannot be inserted collides with an earlier one. */
  lemma {:induction false} NewCollision(all: seq<Entry>, k: nat) returns (i: nat)
    requires (forall e :: e in all ==> e.path != []) && k < |all|
    requires BuiltTo(all, k).Some? && BuiltTo(all, k + 1).None?
    ensures i < k && Collide(all[i].path, all[k].path)
  {
    BuiltIsCompatible(all, k);
    BuildHolds(all[..k + 1]);
    var i', j' :| 0 <= i' < j' < k + 1 && Collide(all[..k + 1][i'].path, all[..k + 1][j'].path);
    i := i';
    assert all[..k + 1][i'] == all[i'] && all[..k + 1][j'] == all[j'];
  }

  /** The file that cannot be inserted is the first fault. */
  lemma {:induction false} FileFaultFound(sha1: Sha1, executables: set<Path>, files: seq<SourceFile>, all: seq<Entry>,
                                          k: nat)
    requires (forall e :: e in all ==> e.path != []) && FilesFirst(sha1, executables, files, all) && k < |files|
    requires (forall i | 0 <= i < k :: !files[i].symlink) && BuiltTo(all, k).Some?
    ensures files[k].symlink ==> FileFault(files, k, SymbolicLink)
    ensures !files[k].symlink && BuiltTo(all, k + 1).None? ==> FileFault(files, k, PathCollision)
  {
    BuiltIsCompatible(all, k);
    forall i, j | 0 <= i < j < k ensures !Collide(files[i].path, files[j].path) {
      assert !Collide(all[i].path, all[j].path);
    }
    if BuiltTo(all, k + 1).None? {
      var i := NewCollision(all, k);
      assert all[i].path == files[i].path && all[k].path == files[k].path;
    }
  }

  lemma {:induction false} FilesAreClean(sha1: Sha1, executables: set<Path>, files: seq<SourceFile>, all: seq<Entry>)
    requires (forall e :: e in all ==> e.path != []) && FilesFirst(sha1, executables, files, all)
    requires NoSymlinks(files) && BuiltTo(all, |files|).Some?
    ensures CleanFiles(files, |files|)
  {
    BuiltIsCompatible(all, |files|);
    forall i, j | 0 <= i < j < |files| ensures !Collide(files[i].path, files[j].path) {
      assert !Collide(all[i].path, all[j].path);
    }
  }

  /** The first loop: every file, or the first refusal. */
  method AddFiles(sha1: Sha1, executables: set<Path>, files: seq<SourceFile>, ghost all: seq<Entry>)
    returns (root: Result<seq<Item>, TreeError>)
    requires (forall e :: e in all ==> e.path != []) && FilesFirst(sha1, executables, files, all)
    ensures root.Ok? ==> BuiltTo(all, |files|) == Some(root.value) && NoSymlinks(files)
    ensures root.Err? ==> !NoSymlinks(files) || BuildAll(all).None?
    ensures root.Err? ==> exists k: nat :: FileFault(files, k, root.error)
  {
    var tree: seq<Item> := [];
    var k := 0;
    assert all[..0] == [];
    while k < |files|
      invariant 0 <= k <= |files|
      invariant forall j | 0 <= j < k :: !files[j].symlink
      invariant BuiltTo(all, k) == Some(tree)
    {
      if files[k].symlink {
        FileFaultFound(sha1, executables, files, all, k);
        return Err(SymbolicLink);
      }
      var entry := FileEntry(sha1, executables, files[k]);
      BuildNext(all, k, tree, entry);
      var grown := Insert(tree, entry.path, entry.leaf);
      if grown.None? {
        FileFaultFound(sha1, executables, files, all, k);
        return Err(PathCollision);
      }
      tree := grown.value;
      k := k + 1;
    }
    root := Ok(tree);
  }

  ghost predicate LinksFrom(all: seq<Entry>, base: nat, links: seq<LinkSpec>) {
    |all| == base + |links| && forall k | 0 <= k < |links| :: all[base + k] == LinkEntry(links[k])
  }

  lemma {:induction false} FilesAreFirst(sha1: Sha1, c: Component)
    ensures FilesFirst(sha1, c.executables, c.files, AllEntries(sha1, c))
  {
    forall k | 0 <= k < |c.files|
      ensures k < |AllEntries(sha1, c)| && AllEntries(sha1, c)[k] == FileEntry(sha1, c.executables, c.files[k])
    {
      FileAt(sha1, c, k);
    }
  }

  lemma {:induction false} LinksFollowFiles(sha1: Sha1, c: Component)
    ensures LinksFrom(AllEntries(sha1, c), |c.files|, c.gitlinks)
  {
    forall k | 0 <= k < |c.gitlinks| ensures AllEntries(sha1, c)[|c.files| + k] == LinkEntry(c.gitlinks[k]) {
      LinkAt(sha1, c, k);
    }
  }

  /** A gitlink that repeats a name cannot be inserted. */
  lemma {:induction false} RepeatIsRefused(all: seq<Entry>, base: nat, links: seq<LinkSpec>, k: nat)
    requires (forall e :: e in all ==> e.path != []) && LinksFrom(all, base, links) && Repeats(links, k)
    ensures BuildAll(all).None?
  {
    var i: nat :| i < k && links[i].path == links[k].path;
    assert all[base + i] == LinkEntry(links[i]) && all[base + k] == LinkEntry(links[k]);
    BuildHolds(all);
  }

  lemma {:induction false} InvalidIsFault(all: seq<Entry>, files: seq<SourceFile>, links: seq<LinkSpec>, k: nat)
    requires (forall e :: e in all ==> e.path != []) && LinksFrom(all, |files|, links) && k < |links|
    requires CleanFiles(files, |files|) && GoodLinks(files, links, k)
    requires !ValidLink(links[k]) || Repeats(links, k)
    ensures LinkFault(files, links, k, InvalidGitlink) && (!AllValid(links) || BuildAll(all).None?)
  {
    if Repeats(links, k) {
      RepeatIsRefused(all, |files|, links, k);
    } else {
      assert links[k] in links;
    }
  }

  lemma {:induction false} MoreGoodLinks(files: seq<SourceFile>, links: seq<LinkSpec>, k: nat)
    requires GoodLinks(files, links, k) && k < |links|
    requires ValidLink(links[k]) && !Repeats(links, k) && !HitsFile(files, links[k])
    ensures GoodLinks(files, links, k + 1)
  {
  }

  /** What a gitlink collides with is an earlier one of its name, or a file. */
  lemma {:induction false} CollidesEarlier(files: seq<SourceFile>, all: seq<Entry>, links: seq<LinkSpec>, i: nat, k: nat)
    requires LinksFrom(all, |files|, links) && k < |links| && i < |files| + k
    requires Collide(all[i].path, all[|files| + k].path)
    ensures i < |files| || Repeats(links, k)
  {
    if i >= |files| {
      var j := i - |files|;
      assert all[|files| + j] == LinkEntry(links[j]) && all[|files| + k] == LinkEntry(links[k]);
      OneNameCollides(links[j].path, links[k].path);
    }
  }

  /** A valid, new gitlink that cannot be inserted collides with a file. */
  lemma {:induction false} LinkHitsFile(files: seq<SourceFile>, all: seq<Entry>, links: seq<LinkSpec>, k: nat)
    requires (forall e :: e in all ==> e.path != []) && LinksFrom(all, |files|, links) && k < |links|
    requires forall i | 0 <= i < |files| :: all[i].path == files[i].path
    requires BuiltTo(all, |files| + k).Some? && BuiltTo(all, |files| + k + 1).None? && !Repeats(links, k)
    ensures HitsFile(files, links[k])
  {
    var i := NewCollision(all, |files| + k);
    assert all[|files| + k] == LinkEntry(links[k]);
    CollidesEarlier(files, all, links, i, k);
  }

  /** An inserted gitlink hits no file. */
  lemma {:induction false} LinkMissesFiles(files: seq<SourceFile>, all: seq<Entry>, links: seq<LinkSpec>, k: nat)
    requires (forall e :: e in all ==> e.path != []) && LinksFrom(all, |files|, links) && k < |links|
    requires forall i | 0 <= i < |files| :: all[i].path == files[i].path
    requires BuiltTo(all, |files| + k + 1).Some?
    ensures !HitsFile(files, links[k])
  {
    BuiltIsCompatible(all, |files| + k + 1);
    assert all[|files| + k] == LinkEntry(links[k]);
    forall i: nat | i < |files| ensures !Collide(files[i].path, [links[k].path]) {
      assert !Collide(all[i].path, all[|files| + k].path);
    }
  }

  /** The second loop: every gitlink on top of the files, or the first refusal. */
  method AddLinks(ghost all: seq<Entry>, ghost files: seq<SourceFile>, start: seq<Item>, links: seq<LinkSpec>)
    returns (root: Result<seq<Item>, TreeError>)
    requires (forall e :: e in all ==> e.path != []) && LinksFrom(all, |files|, links)
    requires forall i | 0 <= i < |files| :: all[i].path == files[i].path
    requires BuiltTo(all, |files|) == Some(start) && CleanFiles(files, |files|)
    ensures root.Ok? ==> BuildAll(all) == Some(root.value) && AllValid(links)
    ensures root.Err? ==> !AllValid(links) || BuildAll(all).None?
    ensures root.Err? ==> exists k: nat :: LinkFault(files, links, k, root.error)
  {
    var tree := start;
    var seen: set<Name> := {};
    var n := 0;
    while n < |links|
      invariant 0 <= n <= |links|
      invariant GoodLinks(files, links, n) && SeenNames(seen, links, n)
      invariant BuiltTo(all, |files| + n) == Some(tree)
    {
      SeenGrows(seen, links, n);
      if !ValidLink(links[n]) || links[n].path in seen {
        InvalidIsFault(all, files, links, n);
        return Err(InvalidGitlink);
      }
      var entry := LinkEntry(links[n]);
      assert all[|files| + n] == entry;
      BuildStep(all, |files| + n, tree);
      var grown := Insert(tree, entry.path, entry.leaf);
      if grown.None? {
        LinkHitsFile(files, all, links, n);
        assert LinkFault(files, links, n, GitlinkCollision);
        return Err(GitlinkCollision);
      }
      LinkMissesFiles(files, all, links, n);
      MoreGoodLinks(files, links, n);
      seen := seen + {links[n].path};
      tree := grown.value;
      n := n + 1;
    }
    assert all[..|files| + n] == all;
    root := Ok(tree);
  }

  lemma {:induction false} AcceptedWhenBuilt(sha1: Sha1, c: Component)
    requires OnDisk(c)
    ensures forall e :: e in AllEntries(sha1, c) ==> e.path != []
    ensures Accepted(sha1, c) <==> Passes(c) && BuildAll(AllEntries(sha1, c)).Some?
    ensures BuildAll(AllEntries(sha1, c)).Some? ==> Holds(BuildAll(AllEntries(sha1, c)).value, AllEntries(sha1, c))
  {
    EntriesHavePaths(sha1, c);
    BuildHolds(AllEntries(sha1, c));
  }

  /** The checks and the two loops in their order. */
  method BuildTree(sha1: Sha1, c: Component, ghost all: seq<Entry>) returns (tree: Result<seq<Item>, TreeError>)
    requires all == AllEntries(sha1, c) && |all| == |c.files| + |c.gitlinks| && forall e :: e in all ==> e.path != []
    ensures tree.Ok? <==> Passes(c) && BuildAll(all).Some?
    ensures tree.Ok? ==> BuildAll(all) == Some(tree.value)
    ensures tree.Err? ==> RefusedFor(c, tree.error)
  {
    if !(c.executables <= Paths(c.files)) {
      return Err(UnknownExecutable);
    }
    FilesAreFirst(sha1, c);
    tree := AddFiles(sha1, c.executables, c.files, all);
    if tree.Ok? {
      LinksFollowFiles(sha1, c);
      FilesAreClean(sha1, c.executables, c.files, all);
      tree := AddLinks(all, c.files, tree.value, c.gitlinks);
    }
  }

  /**
   * reconstructed_git_tree: succeeds exactly on accepted components, with the id of a tree that holds exactly their
   * files and gitlinks.
   */
  method Reconstruct(sha1: Sha1, c: Component) returns (id: Result<Bytes, TreeError>, ghost tree: seq<Item>)
    requires OnDisk(c)
    ensures id.Ok? <==> Accepted(sha1, c)
    ensures id.Ok? ==> Holds(tree, AllEntries(sha1, c)) && id.value == RootId(sha1, tree)
    ensures id.Err? ==> RefusedFor(c, id.error)
  {
    AcceptedWhenBuilt(sha1, c);
    var root := BuildTree(sha1, c, AllEntries(sha1, c));
    tree := if root.Ok? then root.value else [];
    id := if root.Ok? then Ok(RootId(sha1, root.value)) else Err(root.error);
  }

  /** No two paths of the component collide: files, gitlinks among themselves, and gitlinks with files. */
  ghost predicate Apart(c: Component) {
    && (forall i, j | 0 <= i < j < |c.files| :: !Collide(c.files[i].path, c.files[j].path))
    && forall k: nat :: k < |c.gitlinks| ==> !Repeats(c.gitlinks, k) && !HitsFile(c.files, c.gitlinks[k])
  }

  lemma {:induction false} CompatibleApart(sha1: Sha1, c: Component)
    requires Compatible(AllEntries(sha1, c))
    ensures Apart(c)
  {
    var all, n := AllEntries(sha1, c), |c.files|;
    forall i, j | 0 <= i < j < n ensures !Collide(c.files[i].path, c.files[j].path) {
      assert !Collide(all[i].path, all[j].path);
    }
    forall k: nat | k < |c.gitlinks| ensures !Repeats(c.gitlinks, k) && !HitsFile(c.files, c.gitlinks[k]) {
      assert all[n + k] == LinkEntry(c.gitlinks[k]);
      forall i: nat | i < k ensures c.gitlinks[i].path != c.gitlinks[k].path {
        assert all[n + i] == LinkEntry(c.gitlinks[i]) && !Collide(all[n + i].path, all[n + k].path);
      }
      forall i: nat | i < n ensures !Collide(c.files[i].path, [c.gitlinks[k].path]) {
        assert !Collide(all[i].path, all[n + k].path);
      }
    }
  }

  lemma {:induction false} OneNameCollides(a: Name, b: Name)
    requires Collide([a], [b])
    ensures a == b
  {
    assert [a][0] == [b][0];
  }

  lemma {:induction false} ApartCompatible(sha1: Sha1, c: Component)
    ensures Apart(c) ==> Compatible(AllEntries(sha1, c))
  {
    var all, n := AllEntries(sha1, c), |c.files|;
    forall i, j | 0 <= i < j < |all| && Apart(c) ensures !Collide(all[i].path, all[j].path) {
      if j < n {
        assert !Collide(c.files[i].path, c.files[j].path);
      } else {
        var k := j - n;
        assert all[j] == LinkEntry(c.gitlinks[k]) && !Repeats(c.gitlinks, k) && !HitsFile(c.files, c.gitlinks[k]);
        if i < n {
          assert all[i].path == c.files[i].path;
        } else {
          assert all[i] == LinkEntry(c.gitlinks[i - n]) && c.gitlinks[i - n].path != c.gitlinks[k].path;
          if Collide(all[i].path, all[j].path) {
            OneNameCollides(c.gitlinks[i - n].path, c.gitlinks[k].path);
          }
        }
      }
    }
  }

  /**
   * Exactly what is accepted: only known executables, no symbolic links, gitlinks in place, and no two paths of which one
   * is the other or leads through it.
   */
  lemma {:induction false} AcceptedExactly(sha1: Sha1, c: Component)
    ensures Accepted(sha1, c) <==>
            && (forall p :: p in c.executables ==> exists f :: f in c.files && f.path == p)
            && CleanFiles(c.files, |c.files|)
            && forall k: nat :: k < |c.gitlinks| ==>
                 var l := c.gitlinks[k];
                 && l.path != [] && 47 !in l.path && l.revision.Some?
                 && !Repeats(c.gitlinks, k) && !HitsFile(c.files, l)
  {
    if Compatible(AllEntries(sha1, c)) {
      CompatibleApart(sha1, c);
    }
    ApartCompatible(sha1, c);
    if c.executables <= Paths(c.files) {
      forall p | p in c.executables ensures exists f :: f in c.files && f.path == p {
        assert p in Paths(c.files);
      }
    }
    forall k: nat | k < |c.gitlinks| && AllValid(c.gitlinks) ensures ValidLink(c.gitlinks[k]) {
      assert c.gitlinks[k] in c.gitlinks;
    }
  }

  /**
   * What a tree that holds a component leads to: every file under its path, as executable exactly when the lock names it,
   * with the id of its bytes; every gitlink with its revision; and nothing else.
   */
  lemma {:induction false} TreeHoldsSources(sha1: Sha1, c: Component, tree: seq<Item>)
    requires Holds(tree, AllEntries(sha1, c)) && Passes(c)
    ensures forall f :: f in c.files ==>
              Lookup(tree, f.path) == Some(Leaf.Leaf(if f.path in c.executables then Executable else Regular,
                                                     sha1(Framed(Blob, f.content))))
    ensures forall l :: l in c.gitlinks ==>
              l.revision.Some? && Lookup(tree, [l.path]) == Some(Leaf.Leaf(Gitlink, l.revision.value))
    ensures forall p :: Lookup(tree, p).Some? ==>
              (exists f :: f in c.files && f.path == p) || (exists l :: l in c.gitlinks && [l.path] == p)
  {
    var all := AllEntries(sha1, c);
    forall f | f in c.files ensures FileEntry(sha1, c.executables, f) in all {
      var k :| 0 <= k < |c.files| && c.files[k] == f;
      FileAt(sha1, c, k);
    }
    forall l | l in c.gitlinks ensures LinkEntry(l) in all {
      var k :| 0 <= k < |c.gitlinks| && c.gitlinks[k] == l;
      LinkAt(sha1, c, k);
    }
    forall p | Lookup(tree, p).Some?
      ensures (exists f :: f in c.files && f.path == p) || (exists l :: l in c.gitlinks && [l.path] == p)
    {
      var e :| e in all && e.path == p;
      EntryComesFrom(sha1, c, e);
    }
  }

  lemma {:induction false} EntryComesFrom(sha1: Sha1, c: Component, e: Entry)
    requires e in AllEntries(sha1, c)
    ensures (exists f :: f in c.files && f.path == e.path) || (exists l :: l in c.gitlinks && [l.path] == e.path)
  {
    var k :| 0 <= k < |AllEntries(sha1, c)| && AllEntries(sha1, c)[k] == e;
    if k < |c.files| {
      assert c.files[k] in c.files && c.files[k].path == e.path;
    } else {
      assert c.gitlinks[k - |c.files|] in c.gitlinks && [c.gitlinks[k - |c.files|].path] == e.path;
    }
  }

  // ---------------------------------------------------------------- order independence

  /** Equal multisets agree on who occurs twice. */
  lemma {:induction false} TwiceMeansTwoPlaces(s: seq<Entry>, e: Entry)
    requires multiset(s)[e] >= 2
    ensures exists i, j :: 0 <= i < j < |s| && s[i] == e && s[j] == e
  {
    var rest := s[1..];
    assert s == [s[0]] + rest;
    if s[0] == e {
      assert multiset(rest)[e] >= 1;
      assert e in rest;
      var j :| 0 <= j < |rest| && rest[j] == e;
      assert s[0] == e && s[j + 1] == e;
    } else {
      TwiceMeansTwoPlaces(rest, e);
      var i, j :| 0 <= i < j < |rest| && rest[i] == e && rest[j] == e;
      assert s[i + 1] == e && s[j + 1] == e;
    }
  }

  lemma {:induction false} TwoPlacesMeansTwice(s: seq<Entry>, i: nat, j: nat)
    requires i < j < |s| && s[i] == s[j]
    ensures multiset(s)[s[i]] >= 2
  {
    assert s == s[..i] + [s[i]] + s[i + 1..j] + [s[j]] + s[j + 1..];
  }

  lemma {:induction false} CompatibleOnce(x: seq<Entry>, e: Entry)
    requires Compatible(x)
    ensures multiset(x)[e] <= 1
  {
    if multiset(x)[e] >= 2 {
      TwiceMeansTwoPlaces(x, e);
    }
  }

  /** Whether entries collide does not depend on their order. */
  lemma {:induction false} CompatibleUpToOrder(x: seq<Entry>, y: seq<Entry>)
    requires multiset(x) == multiset(y) && Compatible(x)
    ensures Compatible(y)
  {
    forall i, j | 0 <= i < j < |y| ensures !Collide(y[i].path, y[j].path) {
      assert y[i] in multiset(y) && y[j] in multiset(y);
      CompatibleOnce(x, y[i]);
      if y[i] == y[j] {
        TwoPlacesMeansTwice(y, i, j);
      } else {
        ApartInBoth(x, y[i], y[j]);
      }
    }
  }

  lemma {:induction false} ApartInBoth(x: seq<Entry>, d: Entry, e: Entry)
    requires Compatible(x) && d in x && e in x && d != e
    ensures !Collide(d.path, e.path)
  {
    var a :| 0 <= a < |x| && x[a] == d;
    var b :| 0 <= b < |x| && x[b] == e;
    if a < b {
      assert !Collide(x[a].path, x[b].path);
    } else {
      assert !Collide(x[b].path, x[a].path);
    }
  }

  ghost predicate SameInput(c: Component, d: Component) {
    && multiset(c.files) == multiset(d.files)
    && multiset(c.gitlinks) == multiset(d.gitlinks)
    && c.executables == d.executables
  }

  lemma {:induction false} RemoveOne<T>(s: seq<T>, k: nat)
    requires k < |s|
    ensures multiset(s) == multiset{s[k]} + multiset(s[..k] + s[k + 1..])
  {
    assert s == s[..k] + [s[k]] + s[k + 1..];
  }

  /** Mapping two reorderings of a list gives two reorderings of a list. */
  lemma {:induction false} MappedMultiset<T>(x: seq<T>, y: seq<T>, e: seq<Entry>, f: seq<Entry>, g: T -> Entry)
    requires multiset(x) == multiset(y) && |e| == |x| && |f| == |y|
    requires forall k | 0 <= k < |x| :: e[k] == g(x[k])
    requires forall k | 0 <= k < |y| :: f[k] == g(y[k])
    ensures multiset(e) == multiset(f)
  {
    if x == [] {
      assert |y| == |multiset(y)| == 0;
    } else {
      assert x[0] in multiset(y);
      var k :| 0 <= k < |y| && y[k] == x[0];
      SameRest(x, y, k);
      DropMapped(y, f, g, k);
      MappedMultiset(x[1..], y[..k] + y[k + 1..], e[1..], f[..k] + f[k + 1..], g);
      RemoveOne(f, k);
      assert e == [e[0]] + e[1..];
    }
  }

  lemma {:induction false} SameRest<T>(x: seq<T>, y: seq<T>, k: nat)
    requires multiset(x) == multiset(y) && x != [] && k < |y| && y[k] == x[0]
    ensures multiset(x[1..]) == multiset(y[..k] + y[k + 1..])
  {
    RemoveOne(y, k);
    assert x == [x[0]] + x[1..];
    assert multiset(x[1..]) == multiset(x) - multiset{x[0]};
  }

  lemma {:induction false} DropMapped<T>(y: seq<T>, f: seq<Entry>, g: T -> Entry, k: nat)
    requires |f| == |y| && k < |y| && forall j | 0 <= j < |y| :: f[j] == g(y[j])
    ensures var rest, others := y[..k] + y[k + 1..], f[..k] + f[k + 1..];
            |others| == |rest| && forall j | 0 <= j < |rest| :: others[j] == g(rest[j])
  {
  }

  lemma {:induction false} SameInputSameEntries(sha1: Sha1, c: Component, d: Component)
    requires SameInput(c, d)
    ensures multiset(AllEntries(sha1, c)) == multiset(AllEntries(sha1, d))
    ensures forall f :: f in c.files <==> f in d.files
    ensures forall l :: l in c.gitlinks <==> l in d.gitlinks
  {
    MappedMultiset(c.files, d.files, FileEntries(sha1, c.executables, c.files), FileEntries(sha1, d.executables, d.files),
                   f => FileEntry(sha1, c.executables, f));
    MappedMultiset(c.gitlinks, d.gitlinks, LinkEntries(c.gitlinks), LinkEntries(d.gitlinks), l => LinkEntry(l));
    assert forall f :: f in c.files <==> f in multiset(c.files);
    assert forall f :: f in d.files <==> f in multiset(d.files);
    assert forall l :: l in c.gitlinks <==> l in multiset(c.gitlinks);
    assert forall l :: l in d.gitlinks <==> l in multiset(d.gitlinks);
  }

  lemma {:induction false} AcceptedUpToOrder(sha1: Sha1, c: Component, d: Component)
    requires SameInput(c, d) && Accepted(sha1, c)
    ensures Accepted(sha1, d)
  {
    SameInputSameEntries(sha1, c, d);
    CompatibleUpToOrder(AllEntries(sha1, c), AllEntries(sha1, d));
  }

  /** A tree all of whose paths have names of a kind has no other names. */
  lemma {:induction false} HeldNames(items: seq<Item>, ok: Name -> bool)
    requires WellFormed(items)
    requires forall p :: Lookup(items, p).Some? ==> forall n :: n in p ==> ok(n)
    ensures AllNames(items, ok)
    decreases items
  {
    forall i | 0 <= i < |items|
      ensures ok(items[i].name) && (items[i].node.Dir? ==> AllNames(items[i].node.items, ok))
    {
      match items[i].node
      case File(leaf) =>
        var p := [items[i].name];
        LookupAt(items, i, p);
        assert items[i].name in p;
      case Dir(sub) =>
        var rest := SomeLeaf(sub);
        NameOnPath(items, i, rest);
        forall q | Lookup(sub, q).Some? ensures forall n :: n in q ==> ok(n) {
          NameOnPath(items, i, q);
        }
        HeldNames(sub, ok);
    }
  }

  /** A path below a directory is a path of the whole, by the directory's name. */
  lemma {:induction false} NameOnPath(items: seq<Item>, i: nat, q: Path)
    requires WellFormed(items) && i < |items| && items[i].node.Dir? && q != []
    ensures var p := [items[i].name] + q;
            && Lookup(items, p) == Lookup(items[i].node.items, q)
            && items[i].name in p && forall n :: n in q ==> n in p
  {
    var p := [items[i].name] + q;
    assert p[1..] == q;
    LookupAt(items, i, p);
  }

  lemma {:induction false} HeldIds(items: seq<Item>)
    requires WellFormed(items)
    requires forall p :: Lookup(items, p).Some? ==> |Lookup(items, p).value.id| == ID_LENGTH
    ensures LeafIds(items)
    decreases items
  {
    forall i | 0 <= i < |items|
      ensures match items[i].node
              case File(leaf) => |leaf.id| == ID_LENGTH
              case Dir(sub) => LeafIds(sub)
    {
      match items[i].node
      case File(leaf) => LookupAt(items, i, [items[i].name]);
      case Dir(sub) =>
        forall q | Lookup(sub, q).Some? ensures |Lookup(sub, q).value.id| == ID_LENGTH {
          NameOnPath(items, i, q);
        }
        HeldIds(sub);
    }
  }

  /** The names of an accepted component's tree hold no slash. */
  lemma {:induction false} AcceptedTreeSlashFree(sha1: Sha1, c: Component, tree: seq<Item>)
    requires OnDisk(c) && Accepted(sha1, c) && Holds(tree, AllEntries(sha1, c))
    ensures AllNames(tree, NoSlash)
  {
    forall p | Lookup(tree, p).Some? ensures forall n :: n in p ==> NoSlash(n) {
      var e :| e in AllEntries(sha1, c) && e.path == p;
      EntryOrigin(sha1, c, e);
    }
    HeldNames(tree, NoSlash);
  }

  /** The tree of an accepted component whose gitlink names have short tails serialises unambiguously. */
  lemma {:induction false} AcceptedTreeIsPlain(sha1: Sha1, c: Component, tree: seq<Item>)
    requires OnDisk(c) && LinkTails(c, SAFE_TAIL) && TwentyBytes(sha1) && Accepted(sha1, c)
    requires Holds(tree, AllEntries(sha1, c))
    ensures Plain(tree)
  {
    AcceptedTreeSlashFree(sha1, c, tree);
    forall p | Lookup(tree, p).Some?
      ensures |Lookup(tree, p).value.id| == ID_LENGTH && forall n :: n in p ==> ShortTails(n)
    {
      var e :| e in AllEntries(sha1, c) && e.path == p;
      EntryIsPlain(sha1, c, e);
    }
    HeldNames(tree, ShortTails);
    HeldIds(tree);
  }

  /** Where an entry comes from: a file or a gitlink of the component. */
  lemma {:induction false} EntryOrigin(sha1: Sha1, c: Component, e: Entry)
    requires e in AllEntries(sha1, c)
    ensures (exists f :: f in c.files && e == FileEntry(sha1, c.executables, f))
         || (exists l :: l in c.gitlinks && e == LinkEntry(l))
  {
    var k :| 0 <= k < |AllEntries(sha1, c)| && AllEntries(sha1, c)[k] == e;
    if k < |c.files| {
      assert c.files[k] in c.files;
    } else {
      assert c.gitlinks[k - |c.files|] in c.gitlinks;
    }
  }

  lemma {:induction false} EntryIsPlain(sha1: Sha1, c: Component, e: Entry)
    requires OnDisk(c) && LinkTails(c, SAFE_TAIL) && TwentyBytes(sha1) && Accepted(sha1, c)
    requires e in AllEntries(sha1, c)
    ensures |e.leaf.id| == ID_LENGTH && forall n :: n in e.path ==> ShortTails(n)
  {
    EntryOrigin(sha1, c, e);
  }

  /**
   * The root id depends on what the component holds, not on the order in which it is listed; neither does whether
   * the component is accepted.
   */
  lemma {:induction false} RootIdIgnoresOrder(sha1: Sha1, c: Component, d: Component, a: seq<Item>, b: seq<Item>)
    requires OnDisk(c) && SameInput(c, d)
    requires Accepted(sha1, c) && Holds(a, AllEntries(sha1, c)) && Holds(b, AllEntries(sha1, d))
    ensures Accepted(sha1, d)
    ensures RootId(sha1, a) == RootId(sha1, b)
  {
    AcceptedUpToOrder(sha1, c, d);
    SameInputSameEntries(sha1, c, d);
    var x, y := AllEntries(sha1, c), AllEntries(sha1, d);
    assert forall e :: e in x <==> e in multiset(x);
    assert forall e :: e in y <==> e in multiset(y);
    SameEntriesSameLeaves(a, b, x, y);
    AcceptedTreeSlashFree(sha1, c, a);
    AcceptedTreeSlashFree(sha1, d, b);
    TreeIsCanonical(sha1, a, b);
  }

  // ---------------------------------------------------------------- same id, same sources

  /** Everything hashed for a component. */
  ghost function Hashed(sha1: Sha1, c: Component, tree: seq<Item>): set<Bytes> {
    HashedTrees(sha1, tree) + set f | f in c.files :: Framed(Blob, f.content)
  }

  /** Every file and gitlink of one component is in the other, with the same mode and bytes. */
  ghost predicate Contains(c: Component, d: Component) {
    && (forall f :: f in c.files ==>
          exists g :: g in d.files && g.path == f.path && g.content == f.content
                      && (g.path in d.executables <==> f.path in c.executables))
    && (forall l :: l in c.gitlinks ==> l in d.gitlinks)
  }

  lemma {:induction false} FileContained(sha1: Sha1, c: Component, d: Component, a: seq<Item>, b: seq<Item>,
                                         hashed: set<Bytes>, f: SourceFile)
    requires Holds(a, AllEntries(sha1, c)) && Holds(b, AllEntries(sha1, d)) && SameLeaves(a, b)
    requires InjectiveOn(sha1, hashed) && Hashed(sha1, c, a) <= hashed && Hashed(sha1, d, b) <= hashed
    requires f in c.files
    ensures exists g :: g in d.files && g.path == f.path && g.content == f.content
                        && (g.path in d.executables <==> f.path in c.executables)
  {
    var k :| 0 <= k < |c.files| && c.files[k] == f;
    FileAt(sha1, c, k);
    var e := FileEntry(sha1, c.executables, f);
    HeldByBoth(a, b, AllEntries(sha1, c), AllEntries(sha1, d), e);
    EntryOrigin(sha1, d, e);
    var g :| g in d.files && e == FileEntry(sha1, d.executables, g);
    assert Framed(Blob, f.content) in Hashed(sha1, c, a) && Framed(Blob, g.content) in Hashed(sha1, d, b);
    FramedInjective(Blob, f.content, Blob, g.content);
  }

  lemma {:induction false} GitlinkOrigin(sha1: Sha1, c: Component, e: Entry)
    requires e in AllEntries(sha1, c) && e.leaf.mode == Gitlink
    ensures exists m :: m in c.gitlinks && e == LinkEntry(m)
  {
    EntryOrigin(sha1, c, e);
  }

  lemma {:induction false} LinkEntryInjective(l: LinkSpec, m: LinkSpec)
    requires LinkEntry(l) == LinkEntry(m) && ValidLink(l) && ValidLink(m)
    ensures l == m
  {
    assert [l.path][0] == [m.path][0];
  }

  lemma {:induction false} LinkContained(sha1: Sha1, c: Component, d: Component, a: seq<Item>, b: seq<Item>,
                                         l: LinkSpec)
    requires Accepted(sha1, c) && Accepted(sha1, d)
    requires Holds(a, AllEntries(sha1, c)) && Holds(b, AllEntries(sha1, d)) && SameLeaves(a, b)
    requires l in c.gitlinks
    ensures l in d.gitlinks
  {
    var k :| 0 <= k < |c.gitlinks| && c.gitlinks[k] == l;
    LinkAt(sha1, c, k);
    var e := LinkEntry(l);
    HeldByBoth(a, b, AllEntries(sha1, c), AllEntries(sha1, d), e);
    GitlinkOrigin(sha1, d, e);
    var m :| m in d.gitlinks && e == LinkEntry(m);
    LinkEntryInjective(l, m);
  }

  /** Trees with the same leaves hold the same entries. */
  lemma {:induction false} HeldByBoth(a: seq<Item>, b: seq<Item>, x: seq<Entry>, y: seq<Entry>, e: Entry)
    requires Holds(a, x) && Holds(b, y) && SameLeaves(a, b) && e in x
    ensures e in y
  {
    assert Lookup(b, e.path) == Some(e.leaf);
    var e' :| e' in y && e'.path == e.path;
    assert e' == e;
  }

  lemma {:induction false} SameLeavesContain(sha1: Sha1, c: Component, d: Component, a: seq<Item>, b: seq<Item>,
                                             hashed: set<Bytes>)
    requires Accepted(sha1, c) && Accepted(sha1, d)
    requires Holds(a, AllEntries(sha1, c)) && Holds(b, AllEntries(sha1, d)) && SameLeaves(a, b)
    requires InjectiveOn(sha1, hashed) && Hashed(sha1, c, a) <= hashed && Hashed(sha1, d, b) <= hashed
    ensures Contains(c, d)
  {
    forall f | f in c.files
      ensures exists g :: g in d.files && g.path == f.path && g.content == f.content
                          && (g.path in d.executables <==> f.path in c.executables)
    {
      FileContained(sha1, c, d, a, b, hashed, f);
    }
    forall l | l in c.gitlinks ensures l in d.gitlinks {
      LinkContained(sha1, c, d, a, b, l);
    }
  }

  /** Two accepted components with trees that hold them, the same root id, and no collision among what was hashed. */
  ghost predicate SameRoot(sha1: Sha1, c: Component, d: Component, a: seq<Item>, b: seq<Item>) {
    && TwentyBytes(sha1) && OnDisk(c) && OnDisk(d)
    && Accepted(sha1, c) && Holds(a, AllEntries(sha1, c))
    && Accepted(sha1, d) && Holds(b, AllEntries(sha1, d))
    && InjectiveOn(sha1, Hashed(sha1, c, a) + Hashed(sha1, d, b))
    && RootId(sha1, a) == RootId(sha1, b)
  }

  ghost predicate SameSources(c: Component, d: Component) {
    Contains(c, d) && Contains(d, c)
  }

  /**
   * Components with the same root id hold the same paths, modes, file bytes and gitlinks, if no gitlink name has more
   * than four bytes behind a NUL.
   */
  lemma {:induction false} SameRootSameSources(sha1: Sha1, c: Component, d: Component, a: seq<Item>, b: seq<Item>)
    requires SameRoot(sha1, c, d, a, b) && LinkTails(c, SAFE_TAIL) && LinkTails(d, SAFE_TAIL)
    ensures SameSources(c, d)
  {
    AcceptedTreeIsPlain(sha1, c, a);
    AcceptedTreeIsPlain(sha1, d, b);
    var hashed := Hashed(sha1, c, a) + Hashed(sha1, d, b);
    TreeIsInjective(sha1, a, b, hashed);
    SameLeavesContain(sha1, c, d, a, b, hashed);
    SameLeavesContain(sha1, d, c, b, a, hashed);
  }
}
