/** Paths and their elements. */
module Paths {

  predicate NoSlash(s: string) {
    forall i :: 0 <= i < |s| ==> s[i] != '/'
  }

  /** The part of `s` before its first slash. */
  function Host(s: string): (h: string)
    ensures h <= s && NoSlash(h) && (|h| < |s| ==> s[|h|] == '/')
  {
    if s == [] || s[0] == '/' then [] else [s[0]] + Host(s[1..])
  }

  /** `strings.Split(s, "/")`. */
  function SplitPath(s: string): (r: seq<string>)
    ensures r != [] && r[0] == Host(s)
  {
    var h := Host(s);
    if |h| == |s| then [s] else [h] + SplitPath(s[|h| + 1..])
  }

  /** `strings.Join(parts, "/")`. */
  function JoinPath(parts: seq<string>): string {
    if parts == [] then [] else if |parts| == 1 then parts[0] else parts[0] + "/" + JoinPath(parts[1..])
  }

  lemma SplitFirst(s: string)
    ensures var h := Host(s);
      SplitPath(s) == if |h| == |s| then [h] else [h] + SplitPath(s[|h| + 1..])
  {
  }

  lemma JoinOne(part: string)
    ensures JoinPath([part]) == part
  {
  }

  lemma {:induction false} JoinOfSplit(s: string)
    ensures JoinPath(SplitPath(s)) == s
  {
    hide SplitPath, JoinPath, Host;
    SplitFirst(s);
    var h := Host(s);
    if |h| < |s| {
      var rest := s[|h| + 1..];
      JoinOfSplit(rest);
      JoinConcat([h], SplitPath(rest));
      assert s == h + "/" + rest;
    }
    JoinOne(h);
  }

  lemma {:induction false} JoinConcat(a: seq<string>, b: seq<string>)
    requires a != [] && b != []
    ensures JoinPath(a + b) == JoinPath(a) + "/" + JoinPath(b)
  {
    if |a| == 1 {
      assert (a + b)[1..] == b;
    } else {
      assert (a + b)[1..] == a[1..] + b;
      JoinConcat(a[1..], b);
      assert JoinPath(a + b) == a[0] + "/" + (JoinPath(a[1..]) + "/" + JoinPath(b));
    }
  }

  lemma {:induction false} HostUnique(s: string, h: string)
    requires h <= s && NoSlash(h) && |h| < |s| && s[|h|] == '/'
    ensures Host(s) == h
  {
    if h != [] {
      HostUnique(s[1..], h[1..]);
    }
  }

  lemma SplitStep(h: string, z: string)
    requires NoSlash(h)
    ensures SplitPath(h + "/" + z) == [h] + SplitPath(z)
  {
    var s := h + "/" + z;
    HostUnique(s, h);
    assert s[|h| + 1..] == z;
  }

  lemma Regroup(a: string, b: string, c: string)
    ensures a + "/" + b + "/" + c == a + "/" + (b + "/" + c)
  {
  }

  lemma Reassociate<T>(a: seq<T>, b: seq<T>, c: seq<T>)
    ensures a + b + c == a + (b + c)
  {
  }

  /** Splitting undoes joining in front: parts without slashes stay as they are. */
  lemma {:induction false} SplitOfJoin(parts: seq<string>, z: string)
    requires parts != [] && forall i :: 0 <= i < |parts| ==> NoSlash(parts[i])
    ensures SplitPath(JoinPath(parts) + "/" + z) == parts + SplitPath(z)
  {
    hide SplitPath, NoSlash;
    if |parts| == 1 {
      SplitStep(parts[0], z);
      assert parts == [parts[0]];
    } else {
      var rest := JoinPath(parts[1..]) + "/" + z;
      Regroup(parts[0], JoinPath(parts[1..]), z);
      SplitStep(parts[0], rest);
      SplitOfJoin(parts[1..], z);
      assert parts == [parts[0]] + parts[1..];
      Reassociate([parts[0]], parts[1..], SplitPath(z));
    }
  }

  lemma {:induction false} SplitHasNoSlash(s: string)
    ensures forall i :: 0 <= i < |SplitPath(s)| ==> NoSlash(SplitPath(s)[i])
  {
    var h := Host(s);
    if |h| < |s| {
      SplitHasNoSlash(s[|h| + 1..]);
    }
  }

  /** Splitting at a slash in the middle. */
  lemma SplitConcat(a: string, b: string)
    ensures SplitPath(a + "/" + b) == SplitPath(a) + SplitPath(b)
  {
    hide SplitPath, JoinPath, NoSlash;
    SplitHasNoSlash(a);
    SplitOfJoin(SplitPath(a), b);
    JoinOfSplit(a);
  }
}
