/** Strings compared byte by byte, and lists of names joined with spaces. */
module ByteStrings {
  import opened Basics

  /** `a` sorts at or before `b`. */
  predicate Before(a: string, b: string) {
    a == [] || (b != [] && (a[0] < b[0] || (a[0] == b[0] && Before(a[1..], b[1..]))))
  }

  lemma {:induction false} BeforeAntisymmetric(a: string, b: string)
    requires Before(a, b) && Before(b, a)
    ensures a == b
  {
    if a != [] {
      BeforeAntisymmetric(a[1..], b[1..]);
      assert a == [a[0]] + a[1..] && b == [b[0]] + b[1..];
    }
  }

  lemma {:induction false} BeforeTotal(a: string, b: string)
    ensures Before(a, b) || Before(b, a)
  {
    if a != [] && b != [] {
      BeforeTotal(a[1..], b[1..]);
    }
  }

  lemma {:induction false} BeforeTransitive(a: string, b: string, c: string)
    requires Before(a, b) && Before(b, c)
    ensures Before(a, c)
  {
    if a != [] && a[0] == b[0] == c[0] {
      BeforeTransitive(a[1..], b[1..], c[1..]);
    }
  }

  /** A string sorts before its extensions; otherwise the first difference decides. */
  lemma {:induction false} BeforeExactly(p: string, x: char, a: string, y: char, b: string)
    ensures Before(p, p + a)
    ensures x < y ==> Before(p + [x] + a, p + [y] + b) && !Before(p + [y] + b, p + [x] + a)
    ensures a != "" ==> !Before(p + a, p)
  {
    if p == "" {
      assert p + [x] + a == [x] + a && p + [y] + b == [y] + b && p + a == a;
    } else {
      BeforeExactly(p[1..], x, a, y, b);
      assert (p + [x] + a)[1..] == p[1..] + [x] + a && (p + [y] + b)[1..] == p[1..] + [y] + b;
      assert (p + a)[1..] == p[1..] + a;
    }
  }

  predicate Sorted(s: seq<string>) {
    forall i, j :: 0 <= i < j < |s| ==> Before(s[i], s[j])
  }

  // ------------------------------------------------------------ sorted names

  ghost predicate SortsSet(s: seq<string>, names: set<string>) {
    Sorted(s) && NoDup(s) && Elements(s) == names
  }

  /** There is only one way to sort a set of names. */
  lemma {:induction false} SortUnique(s: seq<string>, t: seq<string>, names: set<string>)
    requires SortsSet(s, names) && SortsSet(t, names)
    ensures s == t
  {
    FirstIsElement(s);
    FirstIsElement(t);
    if s != [] {
      var i :| 0 <= i < |t| && t[i] == s[0];
      var j :| 0 <= j < |s| && s[j] == t[0];
      assert Before(s[0], t[0]) by { BeforeReflexive(s[0]); }
      assert Before(t[0], s[0]) by { BeforeReflexive(s[0]); }
      BeforeAntisymmetric(s[0], t[0]);
      TailSorts(s, names);
      TailSorts(t, names);
      SortUnique(s[1..], t[1..], names - {s[0]});
      assert s == [s[0]] + s[1..] && t == [t[0]] + t[1..];
    }
  }

  lemma FirstIsElement(s: seq<string>)
    ensures s != [] <==> Elements(s) != {}
    ensures s != [] ==> s[0] in Elements(s)
  {
    if s != [] {
      assert s[0] in Elements(s);
    }
  }

  lemma BeforeReflexive(a: string)
    ensures Before(a, a)
  {
    BeforeTotal(a, a);
  }

  lemma TailSorts(s: seq<string>, names: set<string>)
    requires SortsSet(s, names) && s != []
    ensures SortsSet(s[1..], names - {s[0]})
  {
    assert s == [s[0]] + s[1..];
  }

  lemma InsertPair(s: seq<string>, k: nat, x: string, i: nat, j: nat)
    requires Sorted(s) && NoDup(s) && x !in s && k <= |s| && i < j <= |s|
    requires (k > 0 ==> Before(s[k - 1], x)) && (k < |s| ==> Before(x, s[k]))
    ensures var r := s[..k] + [x] + s[k..];
      Before(r[i], r[j]) && r[i] != r[j]
  {
    hide Before;
    if j == k {
      if i < k - 1 {
        BeforeTransitive(s[i], s[k - 1], x);
      }
    } else if i == k {
      if k < j - 1 {
        BeforeTransitive(x, s[k], s[j - 1]);
      }
    }
  }

  lemma InsertSorted(s: seq<string>, k: nat, x: string)
    requires Sorted(s) && NoDup(s) && x !in s && k <= |s|
    requires (k > 0 ==> Before(s[k - 1], x)) && (k < |s| ==> Before(x, s[k]))
    ensures SortsSet(s[..k] + [x] + s[k..], Elements(s) + {x})
  {
    hide Before;
    var r := s[..k] + [x] + s[k..];
    forall i, j | 0 <= i < j < |r|
      ensures Before(r[i], r[j]) && r[i] != r[j]
    {
      InsertPair(s, k, x, i, j);
    }
    assert Elements(r) == Elements(s) + {x} by {
      assert s == s[..k] + s[k..];
    }
  }

  /** Where `x` goes in a sorted list. */
  function Position(s: seq<string>, x: string): (k: nat)
    ensures k <= |s| && (k > 0 ==> Before(s[k - 1], x)) && (k < |s| ==> Before(x, s[k]))
  {
    if s == [] then 0
    else
      var n := |s| - 1;
      BeforeTotal(s[n], x);
      if Before(s[n], x) then |s| else Position(s[..n], x)
  }

  lemma {:induction false} SortExists(names: set<string>) returns (s: seq<string>)
    ensures SortsSet(s, names)
  {
    hide Before;
    if names == {} {
      s := [];
    } else {
      var x :| x in names;
      var t := SortExists(names - {x});
      assert x !in t by { assert x !in Elements(t); }
      InsertSorted(t, Position(t, x), x);
      s := t[..Position(t, x)] + [x] + t[Position(t, x)..];
    }
  }

  /** Sorting a set that is met in any order, as `range` meets a map's keys. */
  method SortNames(names: set<string>) returns (s: seq<string>)
    ensures SortsSet(s, names)
  {
    s := [];
    var left := names;
    while left != {}
      invariant left <= names && SortsSet(s, names - left)
      decreases left
    {
      hide Before, Sorted;
      var x :| x in left;
      var k := 0;
      while k < |s| && Before(s[k], x)
        invariant 0 <= k <= |s| && (k > 0 ==> Before(s[k - 1], x))
      {
        k := k + 1;
      }
      if k < |s| {
        BeforeTotal(s[k], x);
      }
      assert x !in s by { assert x !in Elements(s); }
      InsertSorted(s, k, x);
      assert names - (left - {x}) == (names - left) + {x};
      s := s[..k] + [x] + s[k..];
      left := left - {x};
    }
  }

  // ------------------------------------------------------------------ joining

  function JoinSpace(names: seq<string>): string {
    if names == [] then [] else if |names| == 1 then names[0] else names[0] + " " + JoinSpace(names[1..])
  }

  predicate GoodName(s: string) {
    s != [] && forall i :: 0 <= i < |s| ==> s[i] != ' '
  }

  predicate GoodNames(names: seq<string>) {
    forall i :: 0 <= i < |names| ==> GoodName(names[i])
  }

  /** Position of the first space, or the length. */
  function FirstSpace(s: string): (n: nat)
    ensures n <= |s| && (n < |s| ==> s[n] == ' ') && forall i :: 0 <= i < n ==> s[i] != ' '
  {
    if s == [] || s[0] == ' ' then 0 else 1 + FirstSpace(s[1..])
  }

  lemma FirstSpaceOfJoin(names: seq<string>)
    requires names != [] && GoodNames(names)
    ensures FirstSpace(JoinSpace(names)) == |names[0]| && JoinSpace(names) != []
    ensures |names| == 1 <==> |JoinSpace(names)| == |names[0]|
  {
    var s, n := JoinSpace(names), |names[0]|;
    assert GoodName(names[0]);
    assert forall i :: 0 <= i < n ==> s[i] == names[0][i];
    assert |names| > 1 ==> s[n] == ' ';
    var f := FirstSpace(s);
    assert !(f < n);
  }

  /** Joining is injective on lists of non-empty names without spaces. */
  lemma {:induction false} JoinInjective(a: seq<string>, b: seq<string>)
    requires GoodNames(a) && GoodNames(b) && JoinSpace(a) == JoinSpace(b)
    ensures a == b
  {
    if a == [] {
      if b != [] {
        FirstSpaceOfJoin(b);
      }
    } else if b == [] {
      FirstSpaceOfJoin(a);
    } else {
      FirstSpaceOfJoin(a);
      FirstSpaceOfJoin(b);
      var s, n := JoinSpace(a), |a[0]|;
      assert s[..n] == a[0] && s[..n] == b[0];
      if |a| > 1 {
        assert s[n + 1..] == JoinSpace(a[1..]) && s[n + 1..] == JoinSpace(b[1..]);
        JoinInjective(a[1..], b[1..]);
      }
      assert a == [a[0]] + a[1..] && b == [b[0]] + b[1..];
    }
  }
}
