/** Which files of a module count, said of the elements of their paths
    (internal/fetch/package.go). */
module PackageLaws {
  import opened Basics
  import opened Paths
  import opened PackageFiles

  /** The elements of the import path of a directory. */
  function PathElements(m: Module, dir: string): seq<string> {
    SplitPath(m.path) + if dir == "." then [] else SplitPath(dir)
  }

  lemma ElementsOf(m: Module, dir: string)
    ensures SplitPath(ImportPath(m.path, dir)) == PathElements(m, dir)
  {
    hide SplitPath;
    if dir == "." {
      assert PathElements(m, dir) == SplitPath(m.path);
    } else {
      SplitConcat(m.path, dir);
    }
  }

  /** An element that is not the last is a vendor directory. */
  predicate HasVendor(parts: seq<string>) {
    exists i :: 0 <= i < |parts| - 1 && parts[i] == "vendor"
  }

  lemma VendorFirst(rest: string)
    ensures SplitPath("vendor/" + rest) == ["vendor"] + SplitPath(rest)
  {
    hide SplitPath;
    assert "vendor/" + rest == "vendor" + "/" + rest;
    SplitStep("vendor", rest);
  }

  lemma VendorInside(a: string, b: string)
    ensures SplitPath(a + "/vendor/" + b) == SplitPath(a) + (["vendor"] + SplitPath(b))
  {
    hide SplitPath;
    assert a + "/vendor/" + b == a + "/" + ("vendor/" + b);
    SplitConcat(a, "vendor/" + b);
    VendorFirst(b);
  }

  lemma NeverEmpty(s: string)
    ensures SplitPath(s) != []
  {
  }

  lemma ContainsMiddle(s: string, t: string) returns (a: string, b: string)
    requires Contains(s, t)
    ensures s == a + t + b
  {
    var i :| 0 <= i <= |s| && t <= s[i..];
    a, b := s[..i], s[i + |t|..];
    assert s[i..] == t + s[i..][|t|..];
    assert s[i..][|t|..] == b;
  }

  lemma MiddleContains(a: string, t: string, b: string)
    ensures Contains(a + t + b, t)
  {
    assert (a + t + b)[|a|..] == t + b;
  }

  /** A path is vendored exactly if one of its elements, but not the last, is "vendor". */
  lemma VendoredExactly(path: string)
    ensures Vendored(path) <==> HasVendor(SplitPath(path))
  {
    hide SplitPath, JoinPath, Contains;
    var parts := SplitPath(path);
    if "vendor/" <= path {
      var rest := path[7..];
      assert path == "vendor/" + rest;
      VendorFirst(rest);
      NeverEmpty(rest);
      assert parts[0] == "vendor" && |parts| > 1;
    }
    if Contains(path, "/vendor/") {
      var a, b := ContainsMiddle(path, "/vendor/");
      VendorInside(a, b);
      NeverEmpty(b);
      assert parts[|SplitPath(a)|] == "vendor";
    }
    if HasVendor(parts) {
      var i :| 0 <= i < |parts| - 1 && parts[i] == "vendor";
      VendorJoined(path, i);
    }
  }

  lemma VendorJoined(path: string, i: nat)
    requires i + 1 < |SplitPath(path)| && SplitPath(path)[i] == "vendor"
    ensures Vendored(path)
  {
    hide SplitPath, JoinPath, Contains;
    var parts := SplitPath(path);
    JoinOfSplit(path);
    var a, b := parts[..i], parts[i + 1..];
    var rest := ["vendor"] + b;
    assert parts == a + rest;
    JoinConcat(["vendor"], b);
    JoinOne("vendor");
    var tail := JoinPath(b);
    assert JoinPath(rest) == "vendor/" + tail;
    if i == 0 {
      assert a + rest == rest;
    } else {
      JoinConcat(a, rest);
      assert path == JoinPath(a) + "/" + ("vendor/" + tail) == JoinPath(a) + "/vendor/" + tail;
      MiddleContains(JoinPath(a), "/vendor/", tail);
    }
  }

  /** A file counts exactly if its name ends in ".go" and no element of its import path begins with
      a dot or is "testdata", and none but the last is "vendor". */
  lemma CandidateExactly(m: Module, e: Entry)
    ensures Candidate(m, e) <==>
      && e.File? && (exists stem :: e.name == stem + ".go")
      && (forall el :: el in PathElements(m, e.dir) ==> el != "testdata" && (el == "" || el[0] != '.'))
      && !HasVendor(PathElements(m, e.dir))
  {
    hide SplitPath, Vendored, ImportPath, HasVendor, PathElements;
    if e.File? {
      var path := ImportPath(m.path, e.dir);
      ElementsOf(m, e.dir);
      VendoredExactly(path);
      SuffixExactly(e.name, ".go");
      IgnoredExactly(path);
    }
  }

  lemma SuffixExactly(s: string, t: string)
    ensures HasSuffix(s, t) <==> exists stem :: s == stem + t
  {
    if HasSuffix(s, t) {
      assert s == s[..|s| - |t|] + t;
    }
  }

  lemma IgnoredExactly(path: string)
    ensures Ignored(path) <==> exists el :: el in SplitPath(path) && (el == "testdata" || (el != "" && el[0] == '.'))
  {
    hide SplitPath;
    var parts := SplitPath(path);
    if Ignored(path) {
      var i :| 0 <= i < |parts| && IgnoredPart(parts[i]);
      assert parts[i] in parts && (parts[i] == "testdata" || (parts[i] != "" && parts[i][0] == '.'));
    }
    if el :| el in parts && (el == "testdata" || (el != "" && el[0] == '.')) {
      var i :| 0 <= i < |parts| && parts[i] == el;
      assert IgnoredPart(parts[i]);
    }
  }

  // ----------------------------------------------------------- when the walk fails

  lemma {:induction false} SubsetSize<T>(a: set<T>, b: set<T>)
    requires a <= b
    ensures |a| <= |b|
  {
    if a != {} {
      var x :| x in a;
      SubsetSize(a - {x}, b - {x});
    }
  }

  lemma StartedGrows(m: Module, entries: seq<Entry>, k: nat)
    requires k <= |entries|
    ensures Started(m, entries[..k]) <= Started(m, entries) <= Eligible(m, entries)
  {
    hide Candidate, ValidDir, Oversized, Bad;
    forall i | 0 <= i < k && Considered(m, entries[..k], i) && !Oversized(entries[..k][i])
      ensures entries[..k][i].dir in Started(m, entries)
    {
      ConsideredPrefix(m, entries, k, i);
      assert Considered(m, entries, i) && entries[..k][i] == entries[i];
    }
  }

  /** A walk that ends well has met no broken entry, found at most 10000 directories with files to
      keep, and read the size of every file that it had to look at. */
  lemma WalkedThrough(m: Module, entries: seq<Entry>)
    requires FirstFailure(m, entries, Fine)
    ensures forall k :: 0 <= k < |entries| ==> !entries[k].Broken?
    ensures |Started(m, entries)| <= 10000
    ensures forall k :: 0 <= k < |entries| && Candidate(m, entries[k]) && entries[k].dir !in Bad(m, entries) ==>
      entries[k].size != Unknown
  {
    hide Candidate, ValidDir, Bad, Started, Oversized;
    forall k | 0 <= k < |entries|
      ensures !entries[k].Broken?
      ensures Candidate(m, entries[k]) && entries[k].dir !in Bad(m, entries) ==> entries[k].size != Unknown
    {
      assert Blocks(m, entries, k).Fine?;
      ConsideredIs(m, entries, k);
      if Candidate(m, entries[k]) && entries[k].dir !in Bad(m, entries) {
        BadOrConsidered(m, entries, k);
      }
    }
    LastStarted(m, entries, |entries|);
    assert entries[..|entries|] == entries;
  }

  lemma BadOrConsidered(m: Module, entries: seq<Entry>, k: nat)
    requires k < |entries| && Candidate(m, entries[k]) && entries[k].dir !in Bad(m, entries)
    ensures Considered(m, entries, k)
  {
    hide Candidate;
    assert forall i :: 0 <= i < k ==> entries[..k][i] == entries[i];
  }

  lemma {:induction false} LastStarted(m: Module, entries: seq<Entry>, n: nat)
    requires n <= |entries| && FirstFailure(m, entries, Fine)
    ensures |Started(m, entries[..n])| <= 10000
  {
    hide Candidate, ValidDir, Bad, Oversized, Considered, Started;
    if n == 0 {
      NothingYet(m, entries);
    } else {
      LastStarted(m, entries, n - 1);
      StartedStep(m, entries, n - 1);
      assert Blocks(m, entries, n - 1).Fine?;
    }
  }

  lemma NothingYet(m: Module, entries: seq<Entry>)
    ensures Started(m, entries[..0]) == {}
  {
  }

  /** If no entry is broken, all sizes can be read and no more than 10000 directories are eligible,
      the walk ends well. */
  lemma WalksThrough(m: Module, entries: seq<Entry>)
    requires forall k :: 0 <= k < |entries| ==> !entries[k].Broken?
    requires forall k :: 0 <= k < |entries| && entries[k].File? ==> entries[k].size != Unknown
    requires |Eligible(m, entries)| <= 10000
    ensures FirstFailure(m, entries, Fine)
  {
    hide Candidate, ValidDir, Bad, Started, Oversized, Eligible;
    forall k | 0 <= k < |entries|
      ensures Blocks(m, entries, k).Fine?
    {
      StartedGrows(m, entries, k + 1);
      SubsetSize(Started(m, entries[..k + 1]), Eligible(m, entries));
    }
  }
}
