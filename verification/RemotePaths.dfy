/** Remote paths: splitting, joining, what may be removed, and why recursive removal stays inside its folder. */
module RemotePaths {
  import opened Prelude
  import opened WireFormat

  const NUL: Byte := 0
  const DOT: Byte := 46
  const SLASH: Byte := 47
  const COLON: Byte := 58
  const BACKSLASH: Byte := 92

  const MAX_NAME: nat := 4096
  const MAX_PATH: nat := 32768
  const MAX_ENTRIES: nat := 20000

  predicate Either(b: Byte) {
    b == SLASH || b == BACKSLASH
  }

  /** The characters that separate components on the peer: both slashes on Windows, only '/' elsewhere. */
  predicate Separates(b: Byte, windows: bool) {
    b == SLASH || (windows && b == BACKSLASH)
  }

  // ---------------------------------------------------------------- parts and components

  /** The last part grows by one byte. */
  function Extend(parts: seq<Bytes>, b: Byte): (r: seq<Bytes>)
    requires parts != []
    ensures |r| == |parts|
  {
    parts[..|parts| - 1] + [parts[|parts| - 1] + [b]]
  }

  /** str::split at every separator; n separators give n + 1 parts. */
  function Parts(s: Bytes, windows: bool): (r: seq<Bytes>)
    ensures r != []
  {
    if s == [] then [[]]
    else
      var before, last := Parts(s[..|s| - 1], windows), s[|s| - 1];
      if Separates(last, windows) then before + [[]] else Extend(before, last)
  }

  function NonEmpty(parts: seq<Bytes>): seq<Bytes> {
    if parts == [] then []
    else
      var before, last := NonEmpty(parts[..|parts| - 1]), parts[|parts| - 1];
      if last == [] then before else before + [last]
  }

  /** What the peer's file system makes of a path: its non-empty parts. */
  function Components(s: Bytes, windows: bool): seq<Bytes> {
    NonEmpty(Parts(s, windows))
  }

  predicate IsDots(part: Bytes) {
    part == [DOT] || part == [DOT, DOT]
  }

  predicate NoDots(parts: seq<Bytes>) {
    forall p :: p in parts ==> !IsDots(p)
  }

  predicate AllPlain(parts: seq<Bytes>) {
    forall p :: p in parts ==> p != [] && !IsDots(p)
  }

  lemma {:induction false} PartsSnoc(s: Bytes, last: Byte, windows: bool)
    ensures Parts(s + [last], windows)
         == if Separates(last, windows) then Parts(s, windows) + [[]] else Extend(Parts(s, windows), last)
  {
    assert (s + [last])[..|s|] == s;
  }

  lemma {:induction false} ExtendConcat(x: seq<Bytes>, y: seq<Bytes>, b: Byte)
    requires y != []
    ensures Extend(x + y, b) == x + Extend(y, b)
  {
    assert (x + y)[..|x + y| - 1] == x + y[..|y| - 1];
  }

  lemma {:induction false} NonEmptySnoc(parts: seq<Bytes>, last: Bytes)
    ensures NonEmpty(parts + [last]) == if last == [] then NonEmpty(parts) else NonEmpty(parts) + [last]
  {
    assert (parts + [last])[..|parts|] == parts;
  }

  lemma {:induction false} NonEmptyConcat(a: seq<Bytes>, b: seq<Bytes>)
    ensures NonEmpty(a + b) == NonEmpty(a) + NonEmpty(b)
  {
    if b == [] {
      assert a + b == a;
    } else {
      var init, last := b[..|b| - 1], b[|b| - 1];
      NonEmptyConcat(a, init);
      assert a + b == (a + init) + [last];
      NonEmptySnoc(a + init, last);
    }
  }

  /** Splitting at a known separator. */
  lemma {:induction false} PartsConcat(a: Bytes, sep: Byte, b: Bytes, windows: bool)
    requires Separates(sep, windows)
    ensures Parts(a + [sep] + b, windows) == Parts(a, windows) + Parts(b, windows)
  {
    if b == [] {
      assert a + [sep] + b == a + [sep];
      PartsSnoc(a, sep, windows);
    } else {
      var init, last := b[..|b| - 1], b[|b| - 1];
      PartsConcat(a, sep, init, windows);
      assert b == init + [last] && a + [sep] + b == (a + [sep] + init) + [last];
      PartsSnoc(a + [sep] + init, last, windows);
      PartsSnoc(init, last, windows);
      ExtendConcat(Parts(a, windows), Parts(init, windows), last);
      Associate(Parts(a, windows), Parts(init, windows), [[]]);
    }
  }

  lemma {:induction false} ComponentsConcat(a: Bytes, sep: Byte, b: Bytes, windows: bool)
    requires Separates(sep, windows)
    ensures Components(a + [sep] + b, windows) == Components(a, windows) + Components(b, windows)
  {
    PartsConcat(a, sep, b, windows);
    NonEmptyConcat(Parts(a, windows), Parts(b, windows));
  }

  lemma {:induction false} ComponentsSeparator(s: Bytes, sep: Byte, windows: bool)
    requires Separates(sep, windows)
    ensures Components(s + [sep], windows) == Components(s, windows)
  {
    PartsSnoc(s, sep, windows);
    NonEmptySnoc(Parts(s, windows), []);
  }

  /** Parts hold no separator, so a list of components is not one path in disguise. */
  lemma {:induction false} PartsHoldNoSeparator(s: Bytes, windows: bool)
    ensures forall p, b :: p in Parts(s, windows) && b in p ==> !Separates(b, windows)
  {
    if s != [] {
      var init, last := s[..|s| - 1], s[|s| - 1];
      PartsHoldNoSeparator(init, windows);
      var before := Parts(init, windows);
      assert before[|before| - 1] in before;
    }
  }

  /** Without a separator there is one part. */
  lemma {:induction false} OnePart(s: Bytes, windows: bool)
    requires forall b :: b in s ==> !Separates(b, windows)
    ensures Parts(s, windows) == [s]
  {
    if s != [] {
      var init, last := s[..|s| - 1], s[|s| - 1];
      OnePart(init, windows);
      assert s == init + [last];
      assert last in s;
    }
  }

  /** Without a backslash both kinds of peer read a path alike. */
  lemma {:induction false} StylesAgree(s: Bytes)
    requires BACKSLASH !in s
    ensures Parts(s, true) == Parts(s, false)
  {
    if s != [] {
      assert s[|s| - 1] in s;
      StylesAgree(s[..|s| - 1]);
    }
  }

  lemma {:induction false} KeptWhole(parts: seq<Bytes>)
    requires [] !in parts
    ensures NonEmpty(parts) == parts
  {
    if parts != [] {
      var init, last := parts[..|parts| - 1], parts[|parts| - 1];
      assert last in parts;
      KeptWhole(init);
      assert parts == init + [last];
    }
  }

  lemma {:induction false} NonEmptyMembers(parts: seq<Bytes>)
    ensures forall p :: p in NonEmpty(parts) <==> p in parts && p != []
  {
    if parts != [] {
      var init, last := parts[..|parts| - 1], parts[|parts| - 1];
      NonEmptyMembers(init);
      assert parts == init + [last];
    }
  }

  // ---------------------------------------------------------------- trimming

  /** str::trim_end_matches of both slashes. */
  function TrimEnd(s: Bytes): (r: Bytes)
    ensures r <= s && (r == [] || !Either(r[|r| - 1]))
  {
    if s != [] && Either(s[|s| - 1]) then TrimEnd(s[..|s| - 1]) else s
  }

  lemma {:induction false} TrimOnlySeparators(s: Bytes)
    ensures forall b :: b in s[|TrimEnd(s)|..] ==> Either(b)
  {
    if s != [] && Either(s[|s| - 1]) {
      var init := s[..|s| - 1];
      TrimOnlySeparators(init);
      assert s[|TrimEnd(s)|..] == init[|TrimEnd(s)|..] + [s[|s| - 1]];
    }
  }

  lemma {:induction false} TrimKeepsComponents(s: Bytes, windows: bool)
    requires windows || BACKSLASH !in s
    ensures Components(TrimEnd(s), windows) == Components(s, windows)
  {
    if s != [] && Either(s[|s| - 1]) {
      var init, last := s[..|s| - 1], s[|s| - 1];
      assert last in s;
      TrimKeepsComponents(init, windows);
      assert s == init + [last];
      ComponentsSeparator(init, last, windows);
    }
  }

  // ---------------------------------------------------------------- names from a listing

  datatype PathError = UnsafeName | TooManyEntries | Refused | NotFound | Peer

  /** str::replace of one byte by another. */
  function Replace(s: Bytes, from: Byte, to: Byte): (r: Bytes)
    ensures |r| == |s| && forall k | 0 <= k < |s| :: r[k] == if s[k] == from then to else s[k]
  {
    seq(|s|, k requires 0 <= k < |s| => if s[k] == from then to else s[k])
  }

  function SafeRelativeName(name: Bytes, windows: bool): Result<Bytes, PathError> {
    var normalized := if windows then Replace(name, BACKSLASH, SLASH) else name;
    if normalized == [] || |normalized| > MAX_NAME || NUL in normalized || normalized[0] == SLASH
       || (|normalized| > 1 && normalized[1] == COLON)
       || !AllPlain(Parts(normalized, false))
    then Err(UnsafeName)
    else Ok(normalized)
  }

  /** An accepted name is a path of plain components, and the peer reads it as exactly these. */
  lemma {:induction false} SafeNameIsPlain(name: Bytes, windows: bool)
    requires SafeRelativeName(name, windows).Ok?
    ensures var relative := SafeRelativeName(name, windows).value;
            && relative != [] && (windows ==> BACKSLASH !in relative)
            && Components(relative, windows) == Parts(relative, false) && NoDots(Parts(relative, false))
  {
    var relative := SafeRelativeName(name, windows).value;
    if windows {
      StylesAgree(relative);
    }
    KeptWhole(Parts(relative, false));
  }

  lemma {:induction false} NormalParts(s: Bytes)
    ensures Parts(Replace(s, BACKSLASH, SLASH), false) == Parts(s, true)
  {
    if s != [] {
      var init, last := s[..|s| - 1], s[|s| - 1];
      assert s == init + [last];
      NormalParts(init);
      ReplaceSnoc(init, last, BACKSLASH, SLASH);
      PartsSnoc(Replace(init, BACKSLASH, SLASH), if last == BACKSLASH then SLASH else last, false);
      PartsSnoc(init, last, true);
    }
  }

  lemma {:induction false} SomePart(parts: seq<Bytes>, k: nat)
    requires AllPlain(parts) && k < |parts|
    ensures parts[k] != []
  {
    assert parts[k] in parts;
  }

  /** A string that starts with a separator has an empty first part. */
  lemma {:induction false} LeadingSeparator(s: Bytes, windows: bool)
    requires s != [] && Separates(s[0], windows)
    ensures Parts(s, windows)[0] == []
  {
    var init, last := s[..|s| - 1], s[|s| - 1];
    assert s == init + [last];
    PartsSnoc(init, last, windows);
    if init != [] {
      LeadingSeparator(init, windows);
      SeparatorSplits(init, windows);
    } else {
      assert Parts([], windows) == [[]];
    }
  }

  lemma {:induction false} SeparatorSplits(s: Bytes, windows: bool)
    requires s != [] && Separates(s[0], windows)
    ensures |Parts(s, windows)| >= 2
  {
    var init, last := s[..|s| - 1], s[|s| - 1];
    assert s == init + [last];
    PartsSnoc(init, last, windows);
    if init != [] {
      SeparatorSplits(init, windows);
    }
  }

  /**
   * Exactly which names of a listing are accepted: those the peer reads as plain components throughout, within the
   * limit and with no colon in second place; and the accepted form has the components the peer reads.
   */
  lemma {:induction false} SafeNameExactly(name: Bytes, windows: bool)
    ensures SafeRelativeName(name, windows).Ok? <==>
            && name != [] && |name| <= 4096 && NUL !in name && !(|name| > 1 && name[1] == COLON)
            && AllPlain(Parts(name, windows))
    ensures SafeRelativeName(name, windows).Ok? ==>
              Parts(SafeRelativeName(name, windows).value, false) == Parts(name, windows)
  {
    var normalized := if windows then Replace(name, BACKSLASH, SLASH) else name;
    if windows {
      NormalParts(name);
      forall k | 0 <= k < |name| ensures normalized[k] == NUL <==> name[k] == NUL {
      }
      assert NUL in normalized <==> NUL in name;
    }
    if normalized != [] && normalized[0] == SLASH {
      LeadingSeparator(normalized, false);
      assert Parts(normalized, false)[0] in Parts(normalized, false);
    }
  }

  ghost predicate AllSafe(raw: seq<Bytes>, names: seq<Bytes>, windows: bool) {
    && |names| == |raw|
    && forall k | 0 <= k < |names| :: SafeRelativeName(raw[k], windows) == Ok(names[k])
  }

  /** Every name of a listing is accepted, or the listing is refused (read_remote_tree). */
  method CheckNames(names: seq<Bytes>, windows: bool) returns (safe: Result<seq<Bytes>, PathError>)
    ensures safe.Ok? <==> |names| <= 20000 && forall n :: n in names ==> SafeRelativeName(n, windows).Ok?
    ensures safe.Ok? ==> AllSafe(names, safe.value, windows)
    ensures safe.Err? ==> safe.error == if |names| > MAX_ENTRIES then TooManyEntries else UnsafeName
  {
    if |names| > MAX_ENTRIES {
      return Err(TooManyEntries);
    }
    var accepted := [];
    var k := 0;
    while k < |names|
      invariant 0 <= k <= |names| && |accepted| == k
      invariant forall j | 0 <= j < k :: SafeRelativeName(names[j], windows) == Ok(accepted[j])
    {
      var name := SafeRelativeName(names[k], windows);
      if name.Err? {
        return Err(name.error);
      }
      accepted := accepted + [name.value];
      k := k + 1;
    }
    safe := Ok(accepted);
  }

  // ---------------------------------------------------------------- joining

  predicate WindowsStyle(base: Bytes) {
    BACKSLASH in base || (|base| > 1 && base[1] == COLON)
  }

  function Separator(base: Bytes): (r: Byte)
    ensures Either(r)
  {
    if WindowsStyle(base) then BACKSLASH else SLASH
  }

  /** What a join stands for: the trimmed base, one separator, and the name with its slashes turned. */
  function Joined(base: Bytes, relative: Bytes): Bytes {
    TrimEnd(base) + [Separator(base)] + Replace(relative, SLASH, Separator(base))
  }

  /** Each part with a separator in front. */
  function Glued(parts: seq<Bytes>, sep: Byte): Bytes {
    if parts == [] then [] else Glued(parts[..|parts| - 1], sep) + [sep] + parts[|parts| - 1]
  }

  lemma {:induction false} GluedSnoc(parts: seq<Bytes>, last: Bytes, sep: Byte)
    ensures Glued(parts + [last], sep) == Glued(parts, sep) + [sep] + last
  {
    assert (parts + [last])[..|parts|] == parts;
  }

  lemma {:induction false} GluedExtend(parts: seq<Bytes>, b: Byte, sep: Byte)
    requires parts != []
    ensures Glued(Extend(parts, b), sep) == Glued(parts, sep) + [b]
  {
    var front, tail := parts[..|parts| - 1], parts[|parts| - 1];
    GluedSnoc(front, tail + [b], sep);
    Associate(Glued(front, sep) + [sep], tail, [b]);
  }

  lemma {:induction false} ReplaceSnoc(s: Bytes, last: Byte, from: Byte, to: Byte)
    ensures Replace(s + [last], from, to) == Replace(s, from, to) + [if last == from then to else last]
  {
  }

  /** Gluing the parts back turns the separators and adds one in front. */
  lemma {:induction false} GluedParts(s: Bytes, sep: Byte)
    ensures Glued(Parts(s, false), sep) == [sep] + Replace(s, SLASH, sep)
  {
    if s == [] {
      GluedSnoc([], [], sep);
    } else {
      var init, last := s[..|s| - 1], s[|s| - 1];
      assert s == init + [last];
      GluedParts(init, sep);
      ReplaceSnoc(init, last, SLASH, sep);
      if last == SLASH {
        GluedSnoc(Parts(init, false), [], sep);
        assert Glued(Parts(init, false), sep) + [sep] + [] == Glued(Parts(init, false), sep) + [sep];
      } else {
        GluedExtend(Parts(init, false), last, sep);
      }
      Associate([sep], Replace(init, SLASH, sep), [if last == SLASH then sep else last]);
    }
  }

  lemma {:induction false} JoinStep(trimmed: Bytes, parts: seq<Bytes>, k: nat, sep: Byte)
    requires k < |parts|
    ensures trimmed + Glued(parts[..k + 1], sep) == trimmed + Glued(parts[..k], sep) + [sep] + parts[k]
  {
    assert parts[..k + 1] == parts[..k] + [parts[k]];
    GluedSnoc(parts[..k], parts[k], sep);
  }

  /** join_remote_path */
  method JoinRemotePath(base: Bytes, relative: Bytes) returns (joined: Bytes)
    ensures joined == Joined(base, relative)
  {
    var separator := Separator(base);
    var parts := Parts(relative, false);
    joined := TrimEnd(base);
    var k := 0;
    while k < |parts|
      invariant 0 <= k <= |parts|
      invariant joined == TrimEnd(base) + Glued(parts[..k], separator)
    {
      JoinStep(TrimEnd(base), parts, k, separator);
      joined := joined + [separator];
      joined := joined + parts[k];
      k := k + 1;
    }
    assert parts[..k] == parts;
    GluedParts(relative, separator);
  }

  /** Turning the slashes of a name without backslashes moves no part boundary on a Windows peer. */
  lemma {:induction false} TurnedParts(s: Bytes, sep: Byte)
    requires BACKSLASH !in s && Either(sep)
    ensures Parts(Replace(s, SLASH, sep), true) == Parts(s, false)
  {
    if s != [] {
      var init, last := s[..|s| - 1], s[|s| - 1];
      assert last in s && s == init + [last];
      TurnedParts(init, sep);
      ReplaceSnoc(init, last, SLASH, sep);
      PartsSnoc(Replace(init, SLASH, sep), if last == SLASH then sep else last, true);
    }
  }

  /** Below any base the peer sees the base's components and then what it makes of the turned name. */
  lemma {:induction false} JoinedComponents(base: Bytes, relative: Bytes, windows: bool)
    requires windows || !WindowsStyle(base)
    ensures Components(Joined(base, relative), windows)
         == Components(base, windows) + Components(Replace(relative, SLASH, Separator(base)), windows)
  {
    TrimKeepsComponents(base, windows);
    ComponentsConcat(TrimEnd(base), Separator(base), Replace(relative, SLASH, Separator(base)), windows);
  }

  lemma {:induction false} TurnedComponents(relative: Bytes, sep: Byte, windows: bool)
    requires Either(sep) && AllPlain(Parts(relative, false))
    requires if windows then BACKSLASH !in relative else sep == SLASH
    ensures Components(Replace(relative, SLASH, sep), windows) == Parts(relative, false)
  {
    KeptWhole(Parts(relative, false));
    if windows {
      TurnedParts(relative, sep);
    } else {
      assert Replace(relative, SLASH, sep) == relative;
    }
  }

  /** Joining appends the name's components to the base's, for a base in the peer's own style. */
  lemma {:induction false} JoinExtends(base: Bytes, name: Bytes, windows: bool)
    requires SafeRelativeName(name, windows).Ok? && (windows || !WindowsStyle(base))
    ensures var relative := SafeRelativeName(name, windows).value;
            Components(Joined(base, relative), windows) == Components(base, windows) + Parts(relative, false)
  {
    var relative := SafeRelativeName(name, windows).value;
    JoinedComponents(base, relative, windows);
    TurnedComponents(relative, Separator(base), windows);
  }

  // ---------------------------------------------------------------- a Unix base with a backslash

  lemma {:induction false} ComponentsGrow(x: Bytes, y: Bytes, windows: bool)
    ensures |Components(x, windows)| <= |Components(x + y, windows)|
  {
    if y == [] {
      assert x + y == x;
    } else {
      var init, last := y[..|y| - 1], y[|y| - 1];
      ComponentsGrow(x, init, windows);
      assert x + y == (x + init) + [last];
      SnocCount(x + init, last, windows);
    }
  }

  /** One more character adds a component only after a separator (or at the start). */
  lemma {:induction false} SnocCount(s: Bytes, last: Byte, windows: bool)
    ensures |Components(s, windows)| <= |Components(s + [last], windows)|
    ensures s != [] && !Separates(s[|s| - 1], windows) ==>
              |Components(s + [last], windows)| == |Components(s, windows)|
    ensures !Separates(last, windows) ==> 1 <= |Components(s + [last], windows)| <= |Components(s, windows)| + 1
  {
    var before := Parts(s, windows);
    PartsSnoc(s, last, windows);
    NonEmptySnoc(before, []);
    var front, tail := before[..|before| - 1], before[|before| - 1];
    assert before == front + [tail];
    NonEmptySnoc(front, tail);
    NonEmptySnoc(front, tail + [last]);
  }

  lemma {:induction false} PlainSuffixCount(x: Bytes, y: Bytes)
    requires SLASH !in y && (x == [] || x[|x| - 1] != SLASH)
    ensures |Components(x + y, false)| <= if x == [] then 1 else |Components(x, false)|
  {
    if y == [] {
      assert x + y == x;
    } else {
      var init, last := y[..|y| - 1], y[|y| - 1];
      PlainSuffixCount(x, init);
      assert x + y == (x + init) + [last];
      assert last in y;
      SnocCount(x + init, last, false);
      if init != [] {
        assert init[|init| - 1] in y;
      }
    }
  }

  lemma {:induction false} SomeComponent(s: Bytes, k: nat)
    requires k < |s| && s[k] != SLASH
    ensures 1 <= |Components(s, false)|
  {
    SnocCount(s[..k], s[k], false);
    assert s == (s[..k] + [s[k]]) + s[k + 1..];
    ComponentsGrow(s[..k] + [s[k]], s[k + 1..], false);
  }

  /** A name joined below a base that looks like Windows is lost in the base's last component on other peers. */
  lemma {:induction false} ForeignJoinCount(base: Bytes, relative: Bytes)
    requires WindowsStyle(base)
    ensures |Components(Joined(base, relative), false)| <= |Components(base, false)|
  {
    var trimmed := TrimEnd(base);
    var suffix := [BACKSLASH] + Replace(relative, SLASH, BACKSLASH);
    assert Joined(base, relative) == trimmed + suffix;
    assert base == trimmed + base[|trimmed|..];
    ComponentsGrow(trimmed, base[|trimmed|..], false);
    PlainSuffixCount(trimmed, suffix);
    if BACKSLASH in base {
      var k :| 0 <= k < |base| && base[k] == BACKSLASH;
      SomeComponent(base, k);
    } else {
      SomeComponent(base, 1);
    }
  }

  /** On a peer other than Windows, joining extends the base exactly when the base does not look like Windows. */
  lemma {:induction false} JoinExtendsExactly(base: Bytes, name: Bytes)
    requires SafeRelativeName(name, false).Ok?
    ensures Components(Joined(base, name), false) == Components(base, false) + Parts(name, false)
            <==> BACKSLASH !in base && !(|base| > 1 && base[1] == COLON)
  {
    if WindowsStyle(base) {
      ForeignJoinCount(base, name);
    } else {
      JoinExtends(base, name, false);
    }
  }

  // ---------------------------------------------------------------- what may be removed

  predicate IsLetter(b: Byte) {
    65 <= b <= 90 || 97 <= b <= 122
  }

  predicate DriveRoot(path: Bytes) {
    |path| >= 3 && IsLetter(path[0]) && path[1] == COLON && Either(path[2])
  }

  predicate Removable(path: Bytes) {
    && path != [] && |path| <= MAX_PATH && NUL !in path
    && !(|path| >= 2 && Either(path[0]) && Either(path[1]))
    && (DriveRoot(path) || path[0] == SLASH)
    && var named := Components(if DriveRoot(path) then path[3..] else path[1..], true);
       named != [] && NoDots(named)
  }

  /** The components of a path below a root, read with both kinds of separator. */
  lemma {:induction false} RootedComponents(path: Bytes)
    requires path != [] && (DriveRoot(path) || path[0] == SLASH)
    ensures Components(path, true) ==
            if DriveRoot(path) then [path[..2]] + Components(path[3..], true) else Components(path[1..], true)
  {
    if DriveRoot(path) {
      var drive := path[..2];
      assert path == drive + [path[2]] + path[3..];
      ComponentsConcat(drive, path[2], path[3..], true);
      OnePart(drive, true);
      KeptWhole([drive]);
    } else {
      assert path == [] + [path[0]] + path[1..];
      ComponentsConcat([], path[0], path[1..], true);
      assert [] + Components(path[1..], true) == Components(path[1..], true);
    }
  }

  /** Exactly which paths may be removed: those below a root, not a network path, with no dots among their components. */
  lemma {:induction false} RemovableExactly(path: Bytes)
    ensures Removable(path) <==>
            && path != [] && |path| <= 32768 && NUL !in path
            && !(|path| >= 2 && Either(path[0]) && Either(path[1]))
            && (DriveRoot(path) || path[0] == SLASH)
            && |Components(path, true)| >= (if DriveRoot(path) then 2 else 1) && NoDots(Components(path, true))
  {
    if path != [] && (DriveRoot(path) || path[0] == SLASH) {
      RootedComponents(path);
      if DriveRoot(path) {
        assert !IsDots(path[..2]);
      }
    }
  }

  /** A removable path names something below a root and nothing by dots, read in the peer's own style. */
  lemma {:induction false} RemovableIsPlain(path: Bytes, windows: bool)
    requires Removable(path) && (windows || !WindowsStyle(path))
    ensures NoDots(Components(path, windows))
    ensures |Components(path, windows)| >= if DriveRoot(path) then 2 else 1
  {
    if DriveRoot(path) {
      var drive := path[..2];
      assert path == drive + [path[2]] + path[3..];
      ComponentsConcat(drive, path[2], path[3..], true);
      OnePart(drive, true);
      KeptWhole([drive]);
    } else {
      assert path == [] + [path[0]] + path[1..];
      ComponentsConcat([], path[0], path[1..], true);
    }
    if !windows {
      StylesAgree(path);
    }
  }

  /**
   * Recursive removal stays inside its folder: below a removable base in the peer's own style, a listed name leads
   * to the base's components followed by its own, none of them "." or "..".
   */
  lemma {:induction false} RemovalStaysInside(base: Bytes, name: Bytes, windows: bool)
    requires Removable(base) && SafeRelativeName(name, windows).Ok? && (windows || !WindowsStyle(base))
    ensures var relative := SafeRelativeName(name, windows).value;
            && Components(Joined(base, relative), windows) == Components(base, windows) + Parts(relative, false)
            && Components(base, windows) < Components(Joined(base, relative), windows)
            && NoDots(Components(Joined(base, relative), windows))
  {
    JoinExtends(base, name, windows);
    RemovableIsPlain(base, windows);
    SafeNameIsPlain(name, windows);
  }

  lemma {:induction false} RootedPart(part: Bytes)
    requires SLASH !in part && part != []
    ensures Components([SLASH] + part, false) == [part]
  {
    assert [SLASH] + part == [] + [SLASH] + part;
    ComponentsConcat([], SLASH, part, false);
    OnePart(part, false);
    KeptWhole([part]);
  }

  /** The style matters: this base, accepted for removal, loses the name on a peer that is not Windows. */
  lemma {:induction false} ForeignBaseEscapes(base: Bytes, name: Bytes)
    requires base == [SLASH, 97, BACKSLASH, 98] && name == [99]
    ensures Removable(base) && SafeRelativeName(name, false) == Ok(name)
    ensures Components(base, false) == [[97, BACKSLASH, 98]]
    ensures Components(Joined(base, name), false) == [[97, BACKSLASH, 98, BACKSLASH, 99]]
  {
    ForeignBaseAccepted(base, name);
    assert base == [SLASH] + [97, BACKSLASH, 98];
    RootedPart([97, BACKSLASH, 98]);
    assert Joined(base, name) == [SLASH] + [97, BACKSLASH, 98, BACKSLASH, 99];
    RootedPart([97, BACKSLASH, 98, BACKSLASH, 99]);
  }

  lemma {:induction false} ForeignBaseAccepted(base: Bytes, name: Bytes)
    requires base == [SLASH, 97, BACKSLASH, 98] && name == [99]
    ensures Removable(base) && SafeRelativeName(name, false) == Ok(name)
  {
    OnePart(name, false);
    assert base[1..] == [97] + [BACKSLASH] + [98];
    TwoParts([97], [98]);
  }

  lemma {:induction false} TwoParts(a: Bytes, b: Bytes)
    requires |a| == |b| == 1 && !Either(a[0]) && !Either(b[0])
    ensures Components(a + [BACKSLASH] + b, true) == [a, b]
  {
    ComponentsConcat(a, BACKSLASH, b, true);
    OnePart(a, true);
    OnePart(b, true);
    KeptWhole([a]);
    KeptWhole([b]);
  }

  // ---------------------------------------------------------------- splitting

  /** The later of the last '/' and the last '\\'. */
  function LastSeparator(path: Bytes): (r: Option<nat>)
    ensures r.Some? ==> r.value < |path| && Either(path[r.value])
    ensures r.Some? ==> forall k | r.value < k < |path| :: !Either(path[k])
    ensures r.None? ==> forall b :: b in path ==> !Either(b)
  {
    if path == [] then None
    else if Either(path[|path| - 1]) then Some(|path| - 1)
    else LastSeparator(path[..|path| - 1])
  }

  /** split_remote_file_path: the parent (a root keeps its separator) and the name. */
  function Split(path: Bytes): (Bytes, Bytes) {
    var at := LastSeparator(path);
    if at.None? then ([DOT], path)
    else
      var dir, name := path[..at.value], path[at.value + 1..];
      (if dir == [] then path[..1] else if |dir| == 2 && dir[1] == COLON then path[..3] else dir, name)
  }

  /** A folder as Split writes it: no trailing separators, except the one of a root. */
  function Canonical(base: Bytes): Bytes {
    var trimmed := TrimEnd(base);
    if trimmed == [] || (|trimmed| == 2 && trimmed[1] == COLON) then trimmed + [Separator(base)] else trimmed
  }

  /** The canonical form names the same folder. */
  lemma {:induction false} CanonicalKeepsComponents(base: Bytes, windows: bool)
    requires windows || !WindowsStyle(base)
    ensures Components(Canonical(base), windows) == Components(base, windows)
  {
    TrimKeepsComponents(base, windows);
    ComponentsSeparator(TrimEnd(base), Separator(base), windows);
  }

  lemma {:induction false} LastSeparatorAt(before: Bytes, sep: Byte, name: Bytes)
    requires Either(sep) && forall b :: b in name ==> !Either(b)
    ensures LastSeparator(before + [sep] + name) == Some(|before|)
  {
    var path := before + [sep] + name;
    assert path[|before|] == sep;
    assert sep in path;
    forall k | |before| < k < |path| ensures !Either(path[k]) {
      assert path[k] == name[k - |before| - 1];
    }
  }

  lemma {:induction false} SplitAt(before: Bytes, sep: Byte, name: Bytes)
    requires Either(sep) && forall b :: b in name ==> !Either(b)
    ensures Split(before + [sep] + name)
         == (if before == [] || (|before| == 2 && before[1] == COLON) then before + [sep] else before, name)
  {
    var path := before + [sep] + name;
    LastSeparatorAt(before, sep, name);
    assert path[..|before|] == before && path[|before| + 1..] == name;
    assert path[..|before| + 1] == before + [sep];
  }

  /** Splitting undoes joining: the folder in canonical form and the name, for any base, roots included. */
  lemma {:induction false} SplitUndoesJoin(base: Bytes, name: Bytes)
    requires forall b :: b in name ==> !Either(b)
    ensures Split(Joined(base, name)) == (Canonical(base), name)
  {
    assert Replace(name, SLASH, Separator(base)) == name by {
      assert forall k | 0 <= k < |name| :: name[k] in name;
    }
    SplitAt(TrimEnd(base), Separator(base), name);
  }

  /** What Split takes apart has the components of the parent and then the name. */
  lemma {:induction false} SplitComponents(before: Bytes, sep: Byte, name: Bytes, windows: bool)
    requires Separates(sep, windows) && name != [] && forall b :: b in name ==> !Either(b)
    ensures var split := Split(before + [sep] + name);
            && split.1 == name
            && Components(split.0, windows) + [name] == Components(before + [sep] + name, windows)
  {
    SplitAt(before, sep, name);
    ComponentsConcat(before, sep, name, windows);
    ComponentsSeparator(before, sep, windows);
    OnePart(name, windows);
    KeptWhole([name]);
  }

  /**
   * Every path: what follows the last separator is the name, and the parent has the other components; without a separator
   * the parent is the current folder.
   */
  lemma {:induction false} SplitExactly(path: Bytes)
    ensures (forall b :: b in path ==> !Either(b)) ==> Split(path) == ([46], path)
    ensures (exists b :: b in path && Either(b)) ==>
              var (dir, name) := Split(path);
              && (forall b :: b in name ==> !Either(b))
              && Components(dir, true) + (if name == [] then [] else [name]) == Components(path, true)
  {
    var at := LastSeparator(path);
    if at.Some? {
      var before, sep, name := path[..at.value], path[at.value], path[at.value + 1..];
      assert path == before + [sep] + name;
      assert sep in path;
      if name == [] {
        assert path == before + [sep];
        SplitAt(before, sep, name);
        ComponentsSeparator(before, sep, true);
      } else {
        SplitComponents(before, sep, name, true);
      }
    }
  }

  /** The parent and the name of a removable path are its components again; the name is a plain one. */
  lemma {:induction false} ParentAndName(path: Bytes, windows: bool)
    requires Removable(path) && (windows || !WindowsStyle(path))
    ensures var split := Split(TrimEnd(path));
            && split.1 != [] && !IsDots(split.1) && (forall b :: b in split.1 ==> !Either(b))
            && Components(split.0, windows) + [split.1] == Components(path, windows)
  {
    var trimmed := TrimEnd(path);
    TrimmedKeepsRoot(path);
    var at := LastSeparator(trimmed).value;
    var before, sep, name := trimmed[..at], trimmed[at], trimmed[at + 1..];
    assert trimmed == before + [sep] + name;
    forall b | b in name ensures !Either(b) {
      var k :| 0 <= k < |name| && name[k] == b;
      assert trimmed[at + 1 + k] == b;
    }
    assert sep == path[at];
    SplitComponents(before, sep, name, windows);
    TrimKeepsComponents(path, windows);
    RemovableIsPlain(path, windows);
    assert name in Components(path, windows);
  }

  /** Something follows the last separator of a trimmed removable path, and there is one. */
  lemma {:induction false} TrimmedKeepsRoot(path: Bytes)
    requires Removable(path)
    ensures LastSeparator(TrimEnd(path)).Some? && LastSeparator(TrimEnd(path)).value + 1 < |TrimEnd(path)|
  {
    var trimmed := TrimEnd(path);
    var root := if DriveRoot(path) then 2 else 0;
    if |trimmed| <= root + 1 {
      RestIsSeparators(path, root + 1);
      OnlySeparators(path[root + 1..]);
    } else {
      assert trimmed[root] == path[root];
      assert trimmed[root] in trimmed;
    }
  }

  lemma {:induction false} RestIsSeparators(path: Bytes, from: nat)
    requires |TrimEnd(path)| <= from <= |path|
    ensures forall b :: b in path[from..] ==> Either(b)
  {
    TrimOnlySeparators(path);
    forall b | b in path[from..] ensures Either(b) {
      var k :| 0 <= k < |path[from..]| && path[from..][k] == b;
      assert path[|TrimEnd(path)|..][from + k - |TrimEnd(path)|] == b;
    }
  }

  lemma {:induction false} OnlySeparators(s: Bytes)
    requires forall b :: b in s ==> Either(b)
    ensures Components(s, true) == []
  {
    if s != [] {
      var init, last := s[..|s| - 1], s[|s| - 1];
      assert last in s;
      OnlySeparators(init);
      assert s == init + [last];
      ComponentsSeparator(init, last, true);
    } else {
      NonEmptySnoc([], []);
    }
  }

  // ---------------------------------------------------------------- removal

  datatype Kind = File | FileLink | Dir | DirLink | OtherKind

  datatype Listed = Listed(name: Bytes, kind: Kind)

  datatype Command = RemoveFile(path: Bytes) | RemoveDir(path: Bytes)

  /** How a round trip ends: stopped before sending, or sent and refused, unanswered or done. */
  datatype Answer = NotSent | Failed | Accepted

  /** The first entry of that name. */
  function FindKind(listing: seq<Listed>, name: Bytes): (r: Option<Kind>)
    ensures r.Some? ==> exists e :: e in listing && e.name == name && e.kind == r.value
    ensures r.None? ==> forall e :: e in listing ==> e.name != name
  {
    if listing == [] then None
    else if listing[0].name == name then Some(listing[0].kind)
    else FindKind(listing[1..], name)
  }

  predicate KindAgrees(kind: Kind, directory: bool) {
    if directory then kind == Dir else kind == File || kind == FileLink || kind == DirLink
  }

  /** What a removal may take: a real folder as a folder; a file, or a link of either sort, as a file. */
  predicate MayRemove(kind: Kind, directory: bool) {
    match kind
    case Dir => directory
    case File => !directory
    case FileLink => !directory
    case DirLink => !directory
    case OtherKind => false
  }

  /** The name under which the parent lists a path. */
  function TargetName(path: Bytes): Bytes {
    Split(TrimEnd(path)).1
  }

  /** The k-th entry is the first of that name. */
  predicate FirstNamed(listing: seq<Listed>, name: Bytes, k: nat) {
    k < |listing| && listing[k].name == name && forall j | 0 <= j < k :: listing[j].name != name
  }

  lemma {:induction false} FoundIsFirst(listing: seq<Listed>, name: Bytes, k: nat)
    requires FirstNamed(listing, name, k)
    ensures FindKind(listing, name) == Some(listing[k].kind)
  {
    if k > 0 {
      assert listing[0].name != name;
      assert FirstNamed(listing[1..], name, k - 1);
      FoundIsFirst(listing[1..], name, k - 1);
    }
  }

  lemma {:induction false} OnlyFirst(listing: seq<Listed>, name: Bytes, first: nat)
    requires FirstNamed(listing, name, first)
    ensures forall k: nat :: FirstNamed(listing, name, k) ==> k == first
    ensures exists e :: e in listing && e.name == name
  {
    assert listing[first] in listing;
  }

  lemma {:induction false} FirstFound(listing: seq<Listed>, name: Bytes) returns (k: nat)
    requires FindKind(listing, name).Some?
    ensures FirstNamed(listing, name, k)
  {
    k := 0;
    if listing[0].name != name {
      var later := FirstFound(listing[1..], name);
      k := later + 1;
      forall j | 0 <= j < k ensures listing[j].name != name {
        if j > 0 {
          assert listing[1..][j - 1].name != name;
        }
      }
    }
  }

  /** Everything a removal sends: the files in their order, then the folder; or the one file. */
  function Plan(path: Bytes, directory: bool, names: seq<Bytes>): (r: seq<Command>)
    ensures |r| == if directory then |names| + 1 else 1
  {
    if directory then
      seq(|names|, k requires 0 <= k < |names| => RemoveFile(Joined(path, names[k]))) + [RemoveDir(path)]
    else [RemoveFile(path)]
  }

  /** One command and its answer: sent unless stopped, and only an accepted one lets the removal go on. */
  method RoundTrip(command: Command, sent: seq<Command>, answer: Answer) returns (more: seq<Command>, ok: bool)
    ensures more == if answer.NotSent? then sent else sent + [command]
    ensures ok == answer.Accepted?
  {
    more := sent;
    if answer != NotSent {
      more := sent + [command];
    }
    ok := answer == Accepted;
  }

  /** The answer to the k-th command; a peer that never answers is a stop. */
  function AnswerAt(answers: seq<Answer>, k: nat): Answer {
    if k < |answers| then answers[k] else NotSent
  }

  ghost predicate AllAccepted(answers: seq<Answer>, n: nat) {
    forall k | 0 <= k < n :: AnswerAt(answers, k).Accepted?
  }

  /** What each refusal is due to. */
  ghost predicate RefusedFor(e: PathError, path: Bytes, directory: bool, windows: bool, listing: Option<seq<Listed>>,
                             tree: Option<seq<Bytes>>)
  {
    var kind := if listing.Some? then FindKind(listing.value, TargetName(path)) else None;
    match e
    case Refused => !Removable(path) || (kind.Some? && !KindAgrees(kind.value, directory))
    case NotFound => listing.Some? && kind.None?
    case TooManyEntries => directory && tree.Some? && |tree.value| > MAX_ENTRIES
    case UnsafeName => directory && tree.Some? && exists n :: n in tree.value && SafeRelativeName(n, windows).Err?
    case Peer => false
  }

  /**
   * remove_remote_path. The peer gives the parent's listing, the folder's recursive listing and an answer to each
   * command; `checked` is the job's own check at the end. Whatever is sent is a beginning of the plan, each command
   * after all before it were accepted, and the job is acknowledged only after all of it.
   */
  method RemoveRemotePath(path: Bytes, directory: bool, windows: bool, listing: Option<seq<Listed>>,
                          tree: Option<seq<Bytes>>, answers: seq<Answer>, checked: bool)
    returns (sent: seq<Command>, result: Option<PathError>, acknowledged: bool, ghost names: seq<Bytes>)
    ensures sent != [] ==>
              && Removable(path) && listing.Some?
              && exists k: nat :: FirstNamed(listing.value, TargetName(path), k) && MayRemove(listing.value[k].kind, directory)
    ensures listing.Some? ==>
              forall k: nat | FirstNamed(listing.value, TargetName(path), k) ::
                !MayRemove(listing.value[k].kind, directory) ==> sent == [] && result == Some(Refused)
    ensures !Removable(path) ==> sent == [] && result == Some(Refused)
    ensures Removable(path) && listing.Some? && (forall e :: e in listing.value ==> e.name != TargetName(path)) ==>
              sent == [] && result == Some(NotFound)
    ensures sent != [] && directory ==> tree.Some? && AllSafe(tree.value, names, windows)
    ensures sent <= Plan(path, directory, names)
    ensures sent != [] ==> AllAccepted(answers, |sent| - 1)
    ensures result.None? ==> AllAccepted(answers, |sent|) && checked
    ensures result.None? && !directory ==> sent == [RemoveFile(path)]
    ensures result.None? && directory ==>
              && |sent| == |names| + 1 && sent[|names|] == RemoveDir(path)
              && forall k | 0 <= k < |names| :: sent[k] == RemoveFile(Joined(path, names[k]))
    ensures result == Some(Peer) ==>
              || listing.None? || (directory && tree.None?) || !checked
              || !AllAccepted(answers, |Plan(path, directory, names)|)
    ensures result.Some? && result.value != Peer ==>
              sent == [] && RefusedFor(result.value, path, directory, windows, listing, tree)
    ensures acknowledged <==> result.None?
  {
    sent, names, acknowledged := [], [], false;
    if !Removable(path) {
      return sent, Some(Refused), acknowledged, names;
    }
    if listing.None? {
      return sent, Some(Peer), acknowledged, names;
    }
    var kind := FindKind(listing.value, TargetName(path));
    if kind.None? {
      return sent, Some(NotFound), acknowledged, names;
    }
    ghost var first := FirstFound(listing.value, TargetName(path));
    FoundIsFirst(listing.value, TargetName(path), first);
    OnlyFirst(listing.value, TargetName(path), first);
    if !KindAgrees(kind.value, directory) {
      return sent, Some(Refused), acknowledged, names;
    }
    var done: bool;
    if directory {
      if tree.None? {
        return sent, Some(Peer), acknowledged, names;
      }
      var safe := CheckNames(tree.value, windows);
      if safe.Err? {
        return sent, Some(safe.error), acknowledged, names;
      }
      names := safe.value;
      sent, done := RemoveTree(path, safe.value, answers);
    } else {
      sent, done := RoundTrip(RemoveFile(path), sent, AnswerAt(answers, 0));
    }
    acknowledged := done && checked;
    result := if acknowledged then None else Some(Peer);
  }

  /** The files of a folder one by one, then the folder itself. */
  method RemoveTree(path: Bytes, names: seq<Bytes>, answers: seq<Answer>) returns (sent: seq<Command>, done: bool)
    ensures sent <= Plan(path, true, names)
    ensures sent != [] ==> AllAccepted(answers, |sent| - 1)
    ensures done ==> sent == Plan(path, true, names) && AllAccepted(answers, |sent|)
    ensures !done ==> !AllAccepted(answers, |names| + 1)
  {
    ghost var plan := Plan(path, true, names);
    sent := [];
    var k := 0;
    while k < |names|
      invariant 0 <= k <= |names|
      invariant sent == plan[..k] && AllAccepted(answers, k)
    {
      var joined := JoinRemotePath(path, names[k]);
      assert plan[..k + 1] == plan[..k] + [RemoveFile(joined)];
      sent, done := RoundTrip(RemoveFile(joined), sent, AnswerAt(answers, k));
      if !done {
        return;
      }
      k := k + 1;
    }
    assert plan == plan[..k] + [RemoveDir(path)];
    sent, done := RoundTrip(RemoveDir(path), sent, AnswerAt(answers, k));
  }

  /** Every command of a confirmed removal names the folder itself or something below it, and nothing by dots. */
  lemma {:induction false} PlanStaysInside(path: Bytes, raw: seq<Bytes>, names: seq<Bytes>, windows: bool,
                                           command: Command)
    requires Removable(path) && (windows || !WindowsStyle(path)) && AllSafe(raw, names, windows)
    requires command in Plan(path, true, names)
    ensures NoDots(Components(command.path, windows))
    ensures command.RemoveDir? ==> command.path == path
    ensures command.RemoveFile? ==> Components(path, windows) < Components(command.path, windows)
  {
    var k :| 0 <= k < |Plan(path, true, names)| && Plan(path, true, names)[k] == command;
    RemovableIsPlain(path, windows);
    if k < |names| {
      RemovalStaysInside(path, raw[k], windows);
    }
  }
}
