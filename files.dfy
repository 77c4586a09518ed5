/**
 * The roll as a list of file names: the RAW files of the working directory
 * that match `*.<ext>`, in the order Python's `sorted` gives their paths,
 * and the name each inverted scan is written under.
 */
module Files {

  /**
   * `Path.glob("*." + ext)` on one directory entry: a case-sensitive match
   * of the suffix `"." + ext`; the wildcard matches any prefix, including the
   * empty one and one that starts with a dot.
   */
  predicate Matches(name: string, ext: string) {
    var suffix := "." + ext;
    |suffix| <= |name| && name[|name| - |suffix|..] == suffix
  }

  /** The entries of the directory listing that the pattern selects, in listing order. */
  function Glob(entries: seq<string>, ext: string): (r: seq<string>)
    ensures forall n :: n in r <==> n in entries && Matches(n, ext)
    ensures forall n :: multiset(r)[n] == if Matches(n, ext) then multiset(entries)[n] else 0
  {
    if entries == [] then []
    else
      var rest := Glob(entries[1..], ext);
      assert entries == [entries[0]] + entries[1..];
      if Matches(entries[0], ext) then [entries[0]] + rest else rest
  }

  /** Python's `<=` on strings: lexicographic order of code points. */
  predicate LexLe(a: string, b: string) {
    |a| == 0 || (|b| > 0 && (a[0] < b[0] || (a[0] == b[0] && LexLe(a[1..], b[1..]))))
  }

  lemma {:induction false} LexLeIsTotal(a: string, b: string)
    ensures LexLe(a, b) || LexLe(b, a)
  {
    if |a| > 0 && |b| > 0 && a[0] == b[0] {
      LexLeIsTotal(a[1..], b[1..]);
    }
  }

  lemma {:induction false} LexLeIsReflexive(a: string)
    ensures LexLe(a, a)
  {
    if |a| > 0 {
      LexLeIsReflexive(a[1..]);
    }
  }

  lemma {:induction false} LexLeIsAntisymmetric(a: string, b: string)
    requires LexLe(a, b) && LexLe(b, a)
    ensures a == b
  {
    if |a| > 0 && |b| > 0 {
      LexLeIsAntisymmetric(a[1..], b[1..]);
      assert a == [a[0]] + a[1..] && b == [b[0]] + b[1..];
    }
  }

  lemma {:induction false} LexLeIsTransitive(a: string, b: string, c: string)
    requires LexLe(a, b) && LexLe(b, c)
    ensures LexLe(a, c)
  {
    if |a| > 0 && |b| > 0 && |c| > 0 && a[0] == b[0] && b[0] == c[0] {
      LexLeIsTransitive(a[1..], b[1..], c[1..]);
    }
  }

  /** Every name is at most every later one. */
  predicate Sorted(s: seq<string>) {
    forall i, j :: 0 <= i < j < |s| ==> LexLe(s[i], s[j])
  }

  /** One step of an insertion sort: `x` goes before the first name it does not follow. */
  function Insert(x: string, s: seq<string>): seq<string> {
    if s == [] then [x]
    else if LexLe(x, s[0]) then [x] + s
    else [s[0]] + Insert(x, s[1..])
  }

  /** `sorted(...)` on the names. */
  function SortNames(s: seq<string>): seq<string> {
    if s == [] then [] else Insert(s[0], SortNames(s[1..]))
  }

  /** A name at most every name of a sorted list can go in front of it. */
  lemma {:induction false} PrependKeepsOrder(x: string, s: seq<string>)
    requires Sorted(s) && forall j :: 0 <= j < |s| ==> LexLe(x, s[j])
    ensures Sorted([x] + s)
  {
    var r := [x] + s;
    forall i, j | 0 <= i < j < |r|
      ensures LexLe(r[i], r[j])
    {
      assert r[j] == s[j - 1];
      if i > 0 {
        assert r[i] == s[i - 1];
      }
    }
  }

  lemma {:induction false} InsertKeepsOrder(x: string, s: seq<string>)
    requires Sorted(s)
    ensures Sorted(Insert(x, s))
    ensures multiset(Insert(x, s)) == multiset(s) + multiset{x}
  {
    if s == [] {
    } else if LexLe(x, s[0]) {
      forall j | 0 <= j < |s|
        ensures LexLe(x, s[j])
      {
        if j > 0 {
          LexLeIsTransitive(x, s[0], s[j]);
        }
      }
      PrependKeepsOrder(x, s);
      assert multiset([x] + s) == multiset(s) + multiset{x};
    } else {
      var rest := Insert(x, s[1..]);
      TailIsSorted(s);
      InsertKeepsOrder(x, s[1..]);
      assert LexLe(s[0], x) by {
        LexLeIsTotal(x, s[0]);
      }
      forall j | 0 <= j < |rest|
        ensures LexLe(s[0], rest[j])
      {
        EntryOfInsert(x, s, rest, j);
      }
      PrependKeepsOrder(s[0], rest);
      assert multiset(Insert(x, s)) == multiset(s) + multiset{x} by {
        assert Insert(x, s) == [s[0]] + rest;
        assert s == [s[0]] + s[1..];
      }
    }
  }

  /** An entry of the list `rest` that `x` went into is `x` or one of the later names. */
  lemma {:induction false} EntryOfInsert(x: string, s: seq<string>, rest: seq<string>, j: nat)
    requires Sorted(s) && |s| > 0 && LexLe(s[0], x)
    requires multiset(rest) == multiset(s[1..]) + multiset{x} && j < |rest|
    ensures LexLe(s[0], rest[j])
  {
    assert rest[j] in multiset(rest);
    if rest[j] != x {
      assert rest[j] in multiset(s[1..]);
      var k :| 0 <= k < |s[1..]| && s[1..][k] == rest[j];
      assert s[k + 1] == rest[j];
    }
  }

  /** `sorted` returns the same names in order. */
  lemma {:induction false} SortNamesSorts(s: seq<string>)
    ensures Sorted(SortNames(s))
    ensures multiset(SortNames(s)) == multiset(s)
  {
    if s != [] {
      SortNamesSorts(s[1..]);
      InsertKeepsOrder(s[0], SortNames(s[1..]));
      assert s == [s[0]] + s[1..];
    }
  }

  /** The first of a sorted list is at most each of its names. */
  lemma {:induction false} HeadIsLeast(s: seq<string>, n: string)
    requires Sorted(s) && n in multiset(s)
    ensures |s| > 0 && LexLe(s[0], n)
  {
    var i :| 0 <= i < |s| && s[i] == n;
    if i == 0 {
      LexLeIsReflexive(n);
    }
  }

  lemma {:induction false} TailIsSorted(s: seq<string>)
    requires Sorted(s) && |s| > 0
    ensures Sorted(s[1..])
  {
    forall i, j | 0 <= i < j < |s| - 1
      ensures LexLe(s[1..][i], s[1..][j])
    {
      assert s[1..][i] == s[i + 1] && s[1..][j] == s[j + 1];
    }
  }

  /** Two non-empty sorted lists of the same names start with the same name. */
  lemma {:induction false} SortedHeadsAgree(a: seq<string>, b: seq<string>)
    requires Sorted(a) && Sorted(b) && multiset(a) == multiset(b) && |a| > 0
    ensures |b| > 0 && a[0] == b[0]
  {
    assert a[0] in multiset(a);
    HeadIsLeast(b, a[0]);
    assert b[0] in multiset(b);
    HeadIsLeast(a, b[0]);
    LexLeIsAntisymmetric(a[0], b[0]);
  }

  /** Removing the same first name from two lists of the same names leaves the same names. */
  lemma {:induction false} TailsAgree(a: seq<string>, b: seq<string>)
    requires multiset(a) == multiset(b) && |a| > 0 && |b| > 0 && a[0] == b[0]
    ensures multiset(a[1..]) == multiset(b[1..])
  {
    assert a == [a[0]] + a[1..] && b == [b[0]] + b[1..];
    assert multiset(a[1..]) == multiset(a) - multiset{a[0]};
    assert multiset(b[1..]) == multiset(b) - multiset{b[0]};
  }

  /** Two sorted lists of the same names are the same list. */
  lemma {:induction false} SortedIsUnique(a: seq<string>, b: seq<string>)
    requires Sorted(a) && Sorted(b) && multiset(a) == multiset(b)
    ensures a == b
  {
    if a == [] {
      assert |multiset(b)| == 0;
    } else {
      SortedHeadsAgree(a, b);
      TailsAgree(a, b);
      TailIsSorted(a);
      TailIsSorted(b);
      SortedIsUnique(a[1..], b[1..]);
      assert a == [a[0]] + a[1..] && b == [b[0]] + b[1..];
    }
  }

  /** The roll, `sorted(Path.cwd().glob("*." + ext))`, as names. */
  function RollFiles(entries: seq<string>, ext: string): seq<string> {
    SortNames(Glob(entries, ext))
  }

  /**
   * The roll is the sorted list of exactly the matching entries, and does not
   * depend on the order in which the directory lists them.
   */
  lemma {:induction false} RollIsSortedMatches(entries: seq<string>, other: seq<string>, ext: string)
    requires multiset(other) == multiset(entries)
    ensures Sorted(RollFiles(entries, ext))
    ensures forall n :: n in RollFiles(entries, ext) <==> n in entries && Matches(n, ext)
    ensures RollFiles(other, ext) == RollFiles(entries, ext)
  {
    var g, g' := Glob(entries, ext), Glob(other, ext);
    SortNamesSorts(g);
    SortNamesSorts(g');
    assert multiset(g) == multiset(g') by {
      forall n
        ensures multiset(g)[n] == multiset(g')[n]
      {
      }
    }
    forall n
      ensures n in SortNames(g) <==> n in g
    {
      assert n in SortNames(g) <==> n in multiset(SortNames(g));
    }
    SortedIsUnique(SortNames(g), SortNames(g'));
  }

  /** The index of the last `.` in `name`, or -1 (`str.rfind`). */
  function LastDot(name: string): (i: int)
    ensures -1 <= i < |name|
    ensures i >= 0 ==> name[i] == '.'
    ensures forall k :: i < k < |name| ==> name[k] != '.'
  {
    if name == [] then -1
    else if name[|name| - 1] == '.' then |name| - 1
    else LastDot(name[..|name| - 1])
  }

  /**
   * `PurePath.stem`: the name without its last suffix; a name whose only dot
   * is the leading one, or whose last dot ends it, has no suffix.
   */
  function Stem(name: string): string {
    var i := LastDot(name);
    if 0 < i < |name| - 1 then name[..i] else name
  }

  /** `"Inverted" + str(Path("/")) + file.stem + ".tiff"` with the POSIX separator. */
  function OutputName(name: string): string {
    "Inverted/" + Stem(name) + ".tiff"
  }

  /** A matching name with a non-empty part before `.ext` loses exactly `.ext`. */
  lemma {:induction false} StemStripsExtension(name: string, ext: string)
    requires Matches(name, ext) && |ext| > 0 && '.' !in ext && |name| > |ext| + 1
    ensures Stem(name) == name[..|name| - |ext| - 1]
  {
    var d := |name| - |ext| - 1;
    assert name[d] == ("." + ext)[0];
    forall k | d < k < |name|
      ensures name[k] != '.'
    {
      assert name[k] == ("." + ext)[k - d];
      assert ("." + ext)[k - d] == ext[k - d - 1];
    }
    assert LastDot(name) == d;
  }

  /** Matching names with a non-empty part before `.ext` are written to different files. */
  lemma {:induction false} OutputNamesDiffer(a: string, b: string, ext: string)
    requires Matches(a, ext) && Matches(b, ext) && |ext| > 0 && '.' !in ext
    requires |a| > |ext| + 1 && |b| > |ext| + 1 && a != b
    ensures OutputName(a) != OutputName(b)
  {
    StemStripsExtension(a, ext);
    StemStripsExtension(b, ext);
    var sa, sb := Stem(a), Stem(b);
    assert a == sa + "." + ext && b == sb + "." + ext;
    assert sa != sb;
    assert OutputName(a)[9..|OutputName(a)| - 5] == sa;
    assert OutputName(b)[9..|OutputName(b)| - 5] == sb;
  }

  /**
   * The dot-file `.CR3` matches `*.CR3` but has no suffix, so it is written
   * to the same file as `.CR3.CR3`.
   */
  lemma {:induction false} DotFileSharesOutput()
    ensures Matches(".CR3", "CR3") && Matches(".CR3.CR3", "CR3")
    ensures OutputName(".CR3") == OutputName(".CR3.CR3") == "Inverted/.CR3.tiff"
  {
    assert ".CR3"[4 - 4..] == ".CR3";
    assert ".CR3.CR3"[8 - 4..] == ".CR3";
    assert LastDot(".CR3") == 0 by {
      assert LastDot(".CR3"[..3]) == LastDot(".CR"[..2]);
      assert ".CR"[..2] == ".C";
      assert ".C"[..1] == ".";
    }
    assert LastDot(".CR3.CR3") == 4 by {
      assert ".CR3.CR3"[..7] == ".CR3.CR";
      assert ".CR3.CR"[..6] == ".CR3.C";
      assert ".CR3.C"[..5] == ".CR3.";
    }
    assert ".CR3.CR3"[..4] == ".CR3";
  }
}
