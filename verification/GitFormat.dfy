/** The bytes of Git objects, spelled as Git spells them. */
module GitFormat {
  import opened Prelude
  import opened WireFormat
  import opened GitTree
  import opened GitObjects

  function Code(c: char): Byte {
    if c as int < 128 then c as int else 63
  }

  function Ascii(text: string): Bytes {
    seq(|text|, k requires 0 <= k < |text| => Code(text[k]))
  }

  /** The modes of a directory, a file, an executable file and a gitlink. */
  lemma {:induction false} ModesAreGits()
    ensures ModeBytes(Directory) == Ascii("40000") && ModeBytes(Stored(Regular)) == Ascii("100644")
    ensures ModeBytes(Stored(Executable)) == Ascii("100755") && ModeBytes(Stored(Gitlink)) == Ascii("160000")
  {
  }

  /** What a decimal number stands for. */
  function Value(digits: Bytes): int {
    if digits == [] then 0 else 10 * Value(digits[..|digits| - 1]) + digits[|digits| - 1] - 48
  }

  /** A length is written in decimal digits that stand for it, without a leading zero. */
  lemma {:induction false} DecimalReadsBack(n: nat)
    ensures Value(Decimal(n)) == n && Decimal(n) != [] && (n > 0 ==> Decimal(n)[0] != 48)
  {
    var digits := Decimal(n);
    if n >= 10 {
      DecimalReadsBack(n / 10);
      assert digits[..|digits| - 1] == Decimal(n / 10) && digits[0] == Decimal(n / 10)[0];
    } else {
      assert digits[..0] == [];
    }
  }

  /** An object is hashed as its kind, a space, its length, a NUL and its payload. */
  lemma {:induction false} ObjectsAreGits(payload: Bytes) returns (digits: Bytes)
    ensures Framed(Blob, payload) == Ascii("blob ") + digits + [0] + payload
    ensures Framed(Tree, payload) == Ascii("tree ") + digits + [0] + payload
    ensures Value(digits) == |payload|
  {
    digits := Decimal(|payload|);
    DecimalReadsBack(|payload|);
    assert KindBytes(Blob) + [SPACE] == Ascii("blob ") && KindBytes(Tree) + [SPACE] == Ascii("tree ");
  }

  /** The first difference of the two is at `k`: one ends there, or has the smaller byte. */
  predicate FirstDifference(a: Bytes, b: Bytes, k: nat) {
    && k <= |a| && k < |b| && a[..k] == b[..k] && (k == |a| || a[k] < b[k])
  }

  /** The byte-wise order is the lexicographic one. */
  lemma {:induction false} BeforeExactly(a: Bytes, b: Bytes)
    ensures Before(a, b) <==> exists k: nat :: FirstDifference(a, b, k)
    decreases |a|
  {
    if a == [] && b != [] {
      assert FirstDifference(a, b, 0);
    } else if a != [] && b != [] {
      BeforeExactly(a[1..], b[1..]);
      if a[0] < b[0] {
        assert FirstDifference(a, b, 0);
      } else if Before(a, b) {
        var k: nat :| FirstDifference(a[1..], b[1..], k);
        assert a[..k + 1] == [a[0]] + a[1..][..k] && b[..k + 1] == [b[0]] + b[1..][..k];
        assert FirstDifference(a, b, k + 1);
      }
      forall k: nat | FirstDifference(a, b, k) ensures Before(a, b) {
        if k > 0 {
          assert a[..k][0] == a[0] && b[..k][0] == b[0];
          assert a[1..][..k - 1] == a[..k][1..] && b[1..][..k - 1] == b[..k][1..];
          assert FirstDifference(a[1..], b[1..], k - 1);
        }
      }
    }
  }

  lemma {:induction false} TwoSwapped(x: Line, y: Line)
    requires Before(SortKey(y), SortKey(x))
    ensures Serialize(SortLines([x, y])) == LineBytes(y) + LineBytes(x)
  {
    assert [x, y][..1] == [x] && [x][..0] == [];
    assert SortLines([x]) == InsertLine(x, SortLines([]));
    assert SortLines([x, y]) == [y, x];
    assert [y, x][1..] == [x] && [x][1..] == [];
    assert Serialize([x]) == LineBytes(x) + [];
  }

  /** A file "a.b" stands before a directory "a", because the directory sorts as "a/". */
  lemma {:induction false} DirectoriesSortWithSlash(sha1: Sha1, id: Bytes)
    ensures var a, ab := Ascii("a"), Ascii("a.b");
            WriteTree(sha1, [Item(a, Dir([])), Item(ab, File(Leaf(Executable, id)))]) ==
            LineBytes(Line(ab, Stored(Executable), id)) + LineBytes(Line(a, Directory, ObjectId(sha1, Tree, [])))
  {
    var a, ab := Ascii("a"), Ascii("a.b");
    var items := [Item(a, Dir([])), Item(ab, File(Leaf(Executable, id)))];
    var folder, file := Line(a, Directory, ObjectId(sha1, Tree, [])), Line(ab, Stored(Executable), id);
    assert WriteTree(sha1, []) == [];
    assert LinesOf(sha1, items) == [folder, file];
    DotBeforeSlash(folder, file);
    TwoSwapped(folder, file);
  }

  /** The line of an executable file, spelled out. */
  lemma {:induction false} LinesAreGits(name: Bytes, id: Bytes)
    ensures LineBytes(Line(name, Stored(Executable), id)) == Ascii("100755 ") + name + [0] + id
    ensures LineBytes(Line(name, Directory, id)) == Ascii("40000 ") + name + [0] + id
  {
    ModesAreGits();
    assert Ascii("100755") + [SPACE] == Ascii("100755 ") && Ascii("40000") + [SPACE] == Ascii("40000 ");
  }

  lemma {:induction false} DotBeforeSlash(folder: Line, file: Line)
    requires folder.name == Ascii("a") && folder.mode.Directory?
    requires file.name == Ascii("a.b") && file.mode == Stored(Executable)
    ensures Before(SortKey(file), SortKey(folder))
  {
    var x, y := SortKey(file), SortKey(folder);
    assert x == [97, 46, 98] && y == [97, 47];
    assert x[1..][0] == 46 && y[1..][0] == 47;
  }
}
