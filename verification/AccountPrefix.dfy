/** Import paths grouped by account (internal/frontend/section.go, `nextPrefixAccount`). */
module AccountPrefix {
  import opened SectionSpec
  import opened ByteStrings
  import opened Paths

  // ------------------------------------------------------------- the account

  predicate ThreeElementHost(host: string) {
    host in {"git.sr.ht", "gitea.com", "gitee.com", "gitlab.com", "hg.sr.ht", "bitbucket.org", "github.com",
             "golang.org", "launchpad.net"}
  }

  /** The index of the account among the path's elements. */
  function AccountIndex(host: string): nat {
    if ThreeElementHost(host) then 1
    else if host == "gopkg.in" then 1
    else if host == "hub.jazz.net" then 2
    else 0
  }

  datatype Account = Account(prefix: string, parts: seq<string>)

  function AccountOf(parts: seq<string>): Account
    requires parts != []
  {
    var n := AccountIndex(parts[0]);
    if n >= |parts| - 1 then Account(JoinPath(parts), parts)
    else Account(JoinPath(parts[..n + 1]) + "/", parts[..n + 1])
  }

  /** The first prefix of a path. */
  function FirstPrefix(path: string): string {
    AccountOf(SplitPath(path)).prefix
  }

  function NextPrefixAccount(path: string, pre: string): string {
    if path == pre then ""
    else
      var parts := SplitPath(path);
      var a := AccountOf(parts);
      if pre == "" then a.prefix
      else if pre == a.prefix then
        // The slice bound len(acctParts)+1 is in range because pre is not the whole path.
        var prefix2 := JoinPath(parts[..if |a.parts| < |parts| then |a.parts| + 1 else |parts|]);
        if prefix2 != path then prefix2 + "/" else prefix2
      else ""
  }

  lemma JoinFront(path: string, k: nat)
    requires 1 <= k < |SplitPath(path)|
    ensures JoinPath(SplitPath(path)[..k]) + "/" <= path
  {
    var parts := SplitPath(path);
    JoinOfSplit(path);
    JoinConcat(parts[..k], parts[k..]);
    assert parts[..k] + parts[k..] == parts;
  }

  lemma FirstPrefixShape(path: string)
    ensures FirstPrefix(path) <= path && (path != "" ==> FirstPrefix(path) != "")
    ensures var parts, n := SplitPath(path), AccountIndex(Host(path));
      if n >= |parts| - 1 then FirstPrefix(path) == path
      else FirstPrefix(path) == JoinPath(parts[..n + 1]) + "/"
  {
    var parts, n := SplitPath(path), AccountIndex(Host(path));
    if n >= |parts| - 1 {
      JoinOfSplit(path);
    } else {
      JoinFront(path, n + 1);
    }
  }

  /** The slice in `nextPrefixAccount` stays in range: a path that is not its own first
      prefix has an element past the account. */
  lemma PastAccount(path: string)
    requires path != FirstPrefix(path)
    ensures |AccountOf(SplitPath(path)).parts| < |SplitPath(path)|
  {
    JoinOfSplit(path);
  }

  /** One element past the first prefix. */
  lemma OneMore(path: string, k: nat)
    requires 1 <= k < |SplitPath(path)|
    ensures var parts := SplitPath(path);
      && JoinPath(parts[..k + 1]) == JoinPath(parts[..k]) + "/" + parts[k]
      && (if k + 1 == |parts| then JoinPath(parts[..k + 1]) == path else JoinPath(parts[..k + 1]) + "/" <= path)
  {
    hide Host, SplitPath;
    var parts := SplitPath(path);
    assert parts[..k + 1] == parts[..k] + [parts[k]];
    JoinConcat(parts[..k], [parts[k]]);
    if k + 1 == |parts| {
      assert parts[..k + 1] == parts;
      JoinOfSplit(path);
    } else {
      JoinFront(path, k + 1);
    }
  }

  lemma SecondPrefix(path: string)
    requires path != FirstPrefix(path)
    ensures FirstPrefix(path) < NextPrefixAccount(path, FirstPrefix(path)) <= path
  {
    hide Host, SplitPath, JoinPath, AccountIndex;
    FirstPrefixShape(path);
    PastAccount(path);
    OneMore(path, AccountIndex(Host(path)) + 1);
  }

  /** The prefix function that the site uses meets the contract, for every path and prefix. */
  lemma AccountPrefixLengthens()
    ensures Lengthens(NextPrefixAccount)
  {
    forall l: string, p: string | p <= l
      ensures NextPrefixAccount(l, p) == "" || p < NextPrefixAccount(l, p) <= l
    {
      FirstPrefixShape(l);
      if p == FirstPrefix(l) && p != l {
        SecondPrefix(l);
      }
    }
  }

  /** A first prefix that is not the whole path is also the first prefix of every other
      path that starts with it. */
  lemma FirstPrefixStable(x: string, y: string)
    requires FirstPrefix(x) != x && FirstPrefix(x) <= y
    ensures FirstPrefix(y) == FirstPrefix(x)
  {
    hide Host, JoinPath, AccountIndex, ThreeElementHost;
    var parts, n := SplitPath(x), AccountIndex(Host(x));
    FirstPrefixShape(x);
    var front := parts[..n + 1];
    SplitHasNoSlash(x);
    var z := y[|FirstPrefix(x)|..];
    assert y == JoinPath(front) + "/" + z;
    SplitOfJoin(front, z);
    assert SplitPath(y)[0] == Host(x) && SplitPath(y)[..n + 1] == front;
    FirstPrefixShape(y);
  }

  // ------------------------------------------------------------ sorted lines

  /** Between two lines with a prefix every line has it. */
  lemma {:induction false} PrefixConvex(q: string, a: string, b: string, c: string)
    requires q <= a && q <= c && Before(a, b) && Before(b, c)
    ensures q <= b
  {
    if q != [] {
      assert b != [] && b[0] == q[0];
      PrefixConvex(q[1..], a[1..], b[1..], c[1..]);
      assert q == [q[0]] + q[1..] && b == [b[0]] + b[1..];
    }
  }

  /** Which of the sections holds the `i`-th line. */
  function TopIndex(ss: seq<Sec>, i: nat): nat
    requires i < |AllLeaves(ss)|
  {
    if i < |Leaves(ss[0])| then 0 else 1 + TopIndex(ss[1..], i - |Leaves(ss[0])|)
  }

  /** A line with the same first prefix as a line that starts with `q` starts with `q`. */
  lemma SharedPrefix(l0: string, x: string, y: string)
    requires FirstPrefix(l0) <= x && FirstPrefix(x) == FirstPrefix(y)
    ensures FirstPrefix(l0) <= y
  {
    hide FirstPrefix;
    var q, r := FirstPrefix(l0), FirstPrefix(x);
    FirstPrefixShape(l0);
    FirstPrefixShape(x);
    FirstPrefixShape(y);
    if |q| <= |r| {
      assert q <= r;
    } else {
      assert r <= q;
      FirstPrefixStable(x, l0);
    }
  }

  lemma RunEnds(lines: seq<string>, m: nat, q: string, k: nat)
    requires Sorted(lines) && 0 < m <= k < |lines| && q <= lines[0] && q <= lines[k]
    ensures q <= lines[m]
  {
    hide Before;
    if m < k {
      PrefixConvex(q, lines[0], lines[m], lines[k]);
    }
  }

  lemma SortedSuffix(lines: seq<string>, m: nat)
    requires Sorted(lines) && m <= |lines|
    ensures Sorted(lines[m..])
  {
  }

  /** Of sorted lines, two (non-empty) paths of one account always end up in the same
      top-level section. */
  lemma {:induction false} AccountTogether(lines: seq<string>, i: nat, k: nat)
    requires Lengthens(NextPrefixAccount)
    requires Sorted(lines) && i < k < |lines| && lines[i] != "" && FirstPrefix(lines[i]) == FirstPrefix(lines[k])
    ensures AllLeaves(Sections(lines, NextPrefixAccount)) == lines
    ensures TopIndex(Sections(lines, NextPrefixAccount), i) == TopIndex(Sections(lines, NextPrefixAccount), k)
    decreases |lines|
  {
    hide FirstPrefix, Sorted, Lengthens, AllWellBuilt, NextPrefixAccount, Sections, AllLeaves, Leaves;
    SectionsCorrect(lines, NextPrefixAccount);
    FirstStep(lines);
    var subs := Sections(lines, NextPrefixAccount);
    var m := |Leaves(subs[0])|;
    if k >= m {
      if i < m {
        SharedPrefix(lines[0], lines[i], lines[k]);
        FirstPrefixShape(lines[0]);
        RunEnds(lines, m, FirstPrefix(lines[0]), k);
      } else {
        SortedSuffix(lines, m);
        AccountTogether(lines[m..], i - m, k - m);
      }
    }
  }

  /** Empty lines are the exception: each is a section of its own. */
  lemma {:induction false} EmptyLinesApart(lines: seq<string>, i: nat, k: nat)
    requires Lengthens(NextPrefixAccount)
    requires Sorted(lines) && i < k < |lines| && lines[i] == "" == lines[k]
    ensures AllLeaves(Sections(lines, NextPrefixAccount)) == lines
    ensures TopIndex(Sections(lines, NextPrefixAccount), i) < TopIndex(Sections(lines, NextPrefixAccount), k)
    decreases |lines|
  {
    hide FirstPrefix, Lengthens, AllWellBuilt, NextPrefixAccount, Sections, AllLeaves, Leaves;
    SectionsCorrect(lines, NextPrefixAccount);
    FirstStep(lines);
    assert Before(lines[0], lines[k]);
    assert lines[0] == "";
    if i > 0 {
      SortedSuffix(lines, 1);
      EmptyLinesApart(lines[1..], i - 1, k - 1);
    }
  }

  /** Of sorted lines with the same first prefix, two are in the same top-level section exactly
      if they are not empty. */
  lemma SameSectionExactly(lines: seq<string>, i: nat, k: nat)
    requires Lengthens(NextPrefixAccount)
    requires Sorted(lines) && i < k < |lines| && FirstPrefix(lines[i]) == FirstPrefix(lines[k])
    ensures AllLeaves(Sections(lines, NextPrefixAccount)) == lines
    ensures TopIndex(Sections(lines, NextPrefixAccount), i) == TopIndex(Sections(lines, NextPrefixAccount), k) <==>
      lines[i] != ""
  {
    hide FirstPrefix, Sorted, Lengthens, NextPrefixAccount, Sections, AllLeaves;
    if lines[i] == "" {
      FirstPrefixShape(lines[i]);
      FirstPrefixShape(lines[k]);
      EmptyLinesApart(lines, i, k);
    } else {
      AccountTogether(lines, i, k);
    }
  }

  /** The first top-level section: the empty line alone, or all lines with the first prefix
      of the first line. */
  lemma FirstStep(lines: seq<string>)
    requires Lengthens(NextPrefixAccount) && lines != []
    ensures var subs := Sections(lines, NextPrefixAccount);
      && subs != []
      && var m := |Leaves(subs[0])|;
      && 0 < m <= |lines| && subs[1..] == Sections(lines[m..], NextPrefixAccount)
      && (lines[0] == "" ==> m == 1)
      && (lines[0] != "" ==>
            && (forall j :: 0 <= j < m ==> FirstPrefix(lines[0]) <= lines[j])
            && (m < |lines| ==> !(FirstPrefix(lines[0]) <= lines[m])))
  {
    hide FirstPrefix, WellBuilt, NextPrefixAccount, Leaves;
    FirstPrefixShape(lines[0]);
    FromTop(lines[0]);
    var np := FirstPrefix(lines[0]);
    if np == "" {
      LineWellBuilt("", lines[0]);
    } else {
      BuildCorrect(np, lines, NextPrefixAccount);
      var b := Build(np, lines, NextPrefixAccount);
      var m := |Leaves(b.sec)|;
      assert lines[m..] == b.rest && lines[..m] == Leaves(b.sec);
    }
  }

  lemma FromTop(path: string)
    ensures NextPrefixAccount(path, "") == FirstPrefix(path)
  {
    FirstPrefixShape(path);
  }
}
