/** The outline of a README (internal/frontend/markdown.go, `extractTOC.extract`): a flat
    list of headings becomes a forest through parent pointers. */
module Outline {
  import opened HeadingIds

  // ---------------------------------------------------------- forests by level

  /** The greatest index up to `j` whose level is below `level`, or -1. */
  function Nearest(levels: seq<int>, j: int, level: int): (r: int)
    requires -1 <= j < |levels|
    ensures -1 <= r <= j && (r >= 0 ==> levels[r] < level) && forall k :: r < k <= j ==> levels[k] >= level
  {
    if j < 0 || levels[j] < level then j else Nearest(levels, j - 1, level)
  }

  /** The parent of heading `i`: the nearest earlier heading of smaller level, or -1. */
  function Parent(levels: seq<int>, i: nat): (r: int)
    requires i < |levels|
    ensures -1 <= r < i
  {
    Nearest(levels, i - 1, levels[i])
  }

  /** The headings in `lo..hi` whose parent is `p`, in order; `p == -1` gives the roots. */
  function Kids(levels: seq<int>, p: int, lo: nat, hi: nat): (r: seq<nat>)
    requires lo <= hi <= |levels|
    ensures forall j :: 0 <= j < |r| ==> lo <= r[j] < hi
    decreases hi - lo
  {
    if lo == hi then []
    else if Parent(levels, lo) == p then [lo] + Kids(levels, p, lo + 1, hi)
    else Kids(levels, p, lo + 1, hi)
  }

  lemma {:induction false} KidsStep(levels: seq<int>, p: int, lo: nat, hi: nat)
    requires lo <= hi < |levels|
    ensures Kids(levels, p, lo, hi + 1) == Kids(levels, p, lo, hi) + if Parent(levels, hi) == p then [hi] else []
    decreases hi - lo
  {
    if lo < hi {
      KidsStep(levels, p, lo + 1, hi);
    }
  }

  function Children(levels: seq<int>, i: nat): (r: seq<nat>)
    requires i < |levels|
    ensures forall j :: 0 <= j < |r| ==> i < r[j] < |levels|
  {
    Kids(levels, i, i + 1, |levels|)
  }

  function Roots(levels: seq<int>): seq<nat> {
    Kids(levels, -1, 0, |levels|)
  }

  /** The preorder traversal of the trees with roots `ks`, all of them at or after `lo`. */
  function Preorder(levels: seq<int>, ks: seq<nat>, lo: nat): seq<nat>
    requires lo <= |levels| && forall j :: 0 <= j < |ks| ==> lo <= ks[j] < |levels|
    decreases |levels| - lo, |ks|
  {
    if ks == [] then []
    else [ks[0]] + Preorder(levels, Children(levels, ks[0]), ks[0] + 1) + Preorder(levels, ks[1..], lo)
  }

  function Range(a: nat, b: nat): (r: seq<nat>)
    requires a <= b
    ensures |r| == b - a && forall i :: 0 <= i < |r| ==> r[i] == a + i
  {
    seq(b - a, i requires 0 <= i < b - a => a + i)
  }

  /** Where the tree under `i` ends: the first later heading whose level is not greater. */
  function End(levels: seq<int>, i: nat, j: nat): (r: nat)
    requires i < j <= |levels|
    requires forall k :: i < k < j ==> levels[k] > levels[i]
    ensures j <= r <= |levels| && (forall k :: i < k < r ==> levels[k] > levels[i])
    ensures (r < |levels| ==> levels[r] <= levels[i])
    decreases |levels| - j
  {
    if j == |levels| || levels[j] <= levels[i] then j else End(levels, i, j + 1)
  }

  /** `lo..hi` is a stretch right below `p`: it starts after `p` with a heading that has
      no larger predecessor there, and it ends where `p`'s tree ends. */
  predicate Below(levels: seq<int>, p: int, lo: nat, hi: nat) {
    && -1 <= p < lo <= hi <= |levels|
    && (p >= 0 ==> (forall k :: p < k < hi ==> levels[k] > levels[p]) && (hi < |levels| ==> levels[hi] <= levels[p]))
    && (p < 0 ==> hi == |levels|)
    && (lo < hi ==> forall k :: p < k < lo ==> levels[k] >= levels[lo])
  }

  /** No heading in `lo..hi` has parent `p` if each has a smaller one after `p`. */
  lemma {:induction false} NoKids(levels: seq<int>, p: int, lo: nat, hi: nat, c: int)
    requires p < c < lo <= hi <= |levels| && 0 <= c && forall k :: lo <= k < hi ==> levels[k] > levels[c]
    ensures Kids(levels, p, lo, hi) == []
    decreases hi - lo
  {
    if lo < hi {
      NoKids(levels, p, lo + 1, hi, c);
    }
  }

  lemma {:induction false} KidsSplit(levels: seq<int>, p: int, lo: nat, mid: nat, hi: nat)
    requires lo <= mid <= hi <= |levels|
    ensures Kids(levels, p, lo, hi) == Kids(levels, p, lo, mid) + Kids(levels, p, mid, hi)
    decreases mid - lo
  {
    if lo < mid {
      KidsSplit(levels, p, lo + 1, mid, hi);
    }
  }

  /** After the end of `p`'s tree no heading has parent `p`. */
  lemma {:induction false} NoKidsAfter(levels: seq<int>, p: nat, lo: nat, end: nat)
    requires p < end <= lo <= |levels| && (end < |levels| ==> levels[end] <= levels[p])
    ensures Kids(levels, p, lo, |levels|) == []
    decreases |levels| - lo
  {
    if lo < |levels| {
      NoKidsAfter(levels, p, lo + 1, end);
    }
  }

  /** One tree below `p`, and what comes after it. */
  lemma SplitKids(levels: seq<int>, p: int, lo: nat, mid: nat, hi: nat)
    requires Below(levels, p, lo, hi) && lo < hi && mid == End(levels, lo, lo + 1)
    ensures mid <= hi && Below(levels, lo, lo + 1, mid) && Below(levels, p, mid, hi)
    ensures Kids(levels, p, lo, hi) == [lo] + Kids(levels, p, mid, hi)
    ensures Children(levels, lo) == Kids(levels, lo, lo + 1, mid)
  {
    hide Parent, Below, End;
    FirstKid(levels, p, lo, hi);
    StaysBelow(levels, p, lo, mid, hi);
    NoKids(levels, p, lo + 1, mid, lo);
    KidsSplit(levels, p, lo + 1, mid, hi);
    NoKidsAfter(levels, lo, mid, mid);
    KidsSplit(levels, lo, lo + 1, mid, |levels|);
  }

  lemma PreorderCons(levels: seq<int>, x: nat, rest: seq<nat>, lo: nat)
    requires lo <= x < |levels| && forall j :: 0 <= j < |rest| ==> lo <= rest[j] < |levels|
    ensures Preorder(levels, [x] + rest, lo)
         == [x] + Preorder(levels, Children(levels, x), x + 1) + Preorder(levels, rest, lo)
  {
    hide Children;
    assert ([x] + rest)[1..] == rest;
  }

  lemma RangeSplit(lo: nat, mid: nat, hi: nat)
    requires lo < mid <= hi
    ensures Range(lo, hi) == [lo] + Range(lo + 1, mid) + Range(mid, hi)
  {
  }

  /** The trees below `p` from `lo` on, in preorder, are the headings `lo..hi` themselves. */
  lemma {:induction false} PreorderBelow(levels: seq<int>, p: int, lo: nat, hi: nat)
    requires Below(levels, p, lo, hi)
    ensures Preorder(levels, Kids(levels, p, lo, hi), lo) == Range(lo, hi)
    decreases hi - lo
  {
    if lo == hi {
    } else {
      PreorderOne(levels, p, lo, End(levels, lo, lo + 1), hi);
    }
  }

  lemma {:induction false} PreorderOne(levels: seq<int>, p: int, lo: nat, mid: nat, hi: nat)
    requires Below(levels, p, lo, hi) && lo < hi <= |levels| && mid == End(levels, lo, lo + 1)
    ensures Preorder(levels, Kids(levels, p, lo, hi), lo) == Range(lo, hi)
    decreases hi - lo, 0
  {
    hide Kids, Preorder, Range, Below, Children, End;
    SplitKids(levels, p, lo, mid, hi);
    PreorderCons(levels, lo, Kids(levels, p, mid, hi), lo);
    PreorderBelow(levels, lo, lo + 1, mid);
    PreorderBelow(levels, p, mid, hi);
    LowerBound(levels, Kids(levels, p, mid, hi), lo, mid);
    RangeSplit(lo, mid, hi);
  }

  lemma FirstKid(levels: seq<int>, p: int, lo: nat, hi: nat)
    requires Below(levels, p, lo, hi) && lo < hi
    ensures Parent(levels, lo) == p
  {
    NearestUnique(levels, lo, p);
  }

  lemma StaysBelow(levels: seq<int>, p: int, lo: nat, mid: nat, hi: nat)
    requires Below(levels, p, lo, hi) && lo < hi && mid == End(levels, lo, lo + 1)
    ensures mid <= hi && Below(levels, lo, lo + 1, mid) && Below(levels, p, mid, hi)
  {
  }

  /** The bound that `Preorder` takes along does not change what it lists. */
  lemma {:induction false} LowerBound(levels: seq<int>, ks: seq<nat>, lo: nat, mid: nat)
    requires lo <= mid <= |levels| && forall j :: 0 <= j < |ks| ==> mid <= ks[j] < |levels|
    ensures Preorder(levels, ks, lo) == Preorder(levels, ks, mid)
    decreases |ks|
  {
    if ks != [] {
      LowerBound(levels, ks[1..], lo, mid);
    }
  }

  /** The preorder traversal of the whole forest is the list of headings as they were. */
  lemma PreorderIsDocumentOrder(levels: seq<int>)
    ensures Preorder(levels, Roots(levels), 0) == Range(0, |levels|)
  {
    PreorderBelow(levels, -1, 0, |levels|);
  }

  // ------------------------------------------------------------ title removal

  /** The roots shown: a single root that has children is taken for the title and left out. */
  function Shown(levels: seq<int>, removeTitle: bool): (r: seq<nat>)
    ensures forall j :: 0 <= j < |r| ==> r[j] < |levels|
  {
    var roots := Roots(levels);
    if removeTitle && |roots| == 1 && Children(levels, roots[0]) != [] then Children(levels, roots[0]) else roots
  }

  lemma RootsBounded(levels: seq<int>)
    ensures forall j :: 0 <= j < |Roots(levels)| ==> Roots(levels)[j] < |levels|
  {
  }

  lemma TitleFirst(levels: seq<int>, r: nat)
    requires r < |levels| && Preorder(levels, [r], 0) == Range(0, |levels|)
    ensures Preorder(levels, Children(levels, r), 0) == Range(1, |levels|)
  {
    hide Preorder, Children;
    PreorderCons(levels, r, [], 0);
    PreorderNone(levels);
    var kids := Preorder(levels, Children(levels, r), r + 1);
    assert [r] + [] == [r] && [r] + kids + [] == [r] + kids;
    HeadAndTail(r, kids, |levels|);
    LowerBound(levels, Children(levels, r), 0, r + 1);
  }

  lemma HeadAndTail(r: nat, kids: seq<nat>, n: nat)
    requires n > 0 && Range(0, n) == [r] + kids
    ensures r == 0 && kids == Range(1, n)
  {
    assert Range(0, n)[0] == 0 && ([r] + kids)[0] == r;
    assert Range(0, n)[1..] == Range(1, n) && ([r] + kids)[1..] == kids;
  }

  lemma PreorderNone(levels: seq<int>)
    ensures Preorder(levels, [], 0) == []
  {
  }

  /** The outline lists all headings in document order, except a removed title, which is
      then the first heading and the only one left out. */
  lemma ShownOrder(levels: seq<int>, removeTitle: bool)
    ensures Shown(levels, removeTitle) == Roots(levels)
        || (levels != [] && Preorder(levels, Shown(levels, removeTitle), 0) == Range(1, |levels|))
  {
    hide Preorder, Children, Roots;
    var roots := Roots(levels);
    RootsBounded(levels);
    if removeTitle && |roots| == 1 && Children(levels, roots[0]) != [] {
      assert roots == [roots[0]];
      PreorderIsDocumentOrder(levels);
      TitleFirst(levels, roots[0]);
    }
  }

  // ------------------------------------------------------------------ extract

  /** An entry of the outline. */
  class Entry {
    const level: int
    const text: string
    const id: string
    var parent: Entry?
    var children: seq<Entry>

    constructor (level: int, text: string, id: string)
      ensures this.level == level && this.text == text && this.id == id && parent == null && children == []
    {
      this.level, this.text, this.id, parent, children := level, text, id, null, [];
    }
  }

  function Levels(hs: seq<Entry>): (r: seq<int>)
    ensures |r| == |hs| && forall i :: 0 <= i < |hs| ==> r[i] == hs[i].level
  {
    seq(|hs|, i requires 0 <= i < |hs| => hs[i].level)
  }

  function Select(hs: seq<Entry>, ks: seq<nat>): (r: seq<Entry>)
    requires forall j :: 0 <= j < |ks| ==> ks[j] < |hs|
    ensures |r| == |ks| && forall j :: 0 <= j < |ks| ==> r[j] == hs[ks[j]]
  {
    seq(|ks|, j requires 0 <= j < |ks| => hs[ks[j]])
  }

  function At(hs: seq<Entry>, i: int): Entry?
    requires -1 <= i < |hs|
  {
    if i == -1 then null else hs[i]
  }

  predicate DistinctEntries(hs: seq<Entry>) {
    forall i, j :: 0 <= i < j < |hs| ==> hs[i] != hs[j]
  }

  /** The entries before `n` whose parent is entry `p`. */
  function Linked(hs: seq<Entry>, p: int, n: nat): seq<Entry>
    requires -1 <= p < n <= |hs|
  {
    Select(hs, Kids(Levels(hs), p, p + 1, n))
  }

  lemma LinkedStep(hs: seq<Entry>, i: nat)
    requires i < |hs|
    ensures forall p :: -1 <= p < i ==>
      Linked(hs, p, i + 1) == Linked(hs, p, i) + if Parent(Levels(hs), i) == p then [hs[i]] else []
    ensures Linked(hs, i, i + 1) == []
  {
    hide Parent, Kids;
    forall p | -1 <= p < i
      ensures Linked(hs, p, i + 1) == Linked(hs, p, i) + if Parent(Levels(hs), i) == p then [hs[i]] else []
    {
      KidsStep(Levels(hs), p, p + 1, i);
    }
    NoKidsYet(Levels(hs), i);
  }

  lemma NoKidsYet(levels: seq<int>, i: nat)
    requires i <= |levels|
    ensures forall p :: Kids(levels, p, i, i) == []
    ensures i < |levels| ==> Kids(levels, i, i + 1, i + 1) == []
  {
  }

  /** The search up the parent chain from the heading just before `i`. */
  method FindParent(hs: seq<Entry>, i: nat) returns (parent: Entry?)
    requires 0 < i < |hs| && forall k {:trigger hs[k].parent} :: 0 <= k < i ==>
      hs[k].parent == At(hs, Parent(Levels(hs), k))
    ensures parent == At(hs, Parent(Levels(hs), i))
  {
    hide Parent;
    var h := hs[i];
    ghost var levels := Levels(hs);
    parent := hs[i - 1];
    ghost var j := i - 1;
    while parent != null && parent.level >= h.level
      invariant -1 <= j < i && parent == At(hs, j)
      invariant forall k :: j < k < i ==> levels[k] >= levels[i]
      decreases j
    {
      ParentIsNearest(levels, j);
      parent := parent.parent;
      j := Parent(levels, j);
    }
    NearestUnique(levels, i, j);
  }

  lemma ParentIsNearest(levels: seq<int>, i: nat)
    requires i < |levels|
    ensures Parent(levels, i) >= 0 ==> levels[Parent(levels, i)] < levels[i]
    ensures forall k :: Parent(levels, i) < k < i ==> levels[k] >= levels[i]
  {
  }

  lemma NearestUnique(levels: seq<int>, i: nat, j: int)
    requires i < |levels| && -1 <= j < i && (j >= 0 ==> levels[j] < levels[i]) && forall k :: j < k < i ==>
      levels[k] >= levels[i]
    ensures Parent(levels, i) == j
  {
    var r := Nearest(levels, i - 1, levels[i]);
  }

  /** The nesting loop: parents, children and roots are those of the level forest. */
  method Nest(hs: seq<Entry>) returns (nested: seq<Entry>)
    requires DistinctEntries(hs) && forall i :: 0 <= i < |hs| ==> hs[i].parent == null && hs[i].children == []
    modifies hs
    ensures nested == Select(hs, Roots(Levels(hs)))
    ensures forall i {:trigger hs[i].parent} :: 0 <= i < |hs| ==> hs[i].parent == At(hs, Parent(Levels(hs), i))
    ensures forall i {:trigger hs[i].children} :: 0 <= i < |hs| ==>
      hs[i].children == Select(hs, Children(Levels(hs), i))
  {
    hide Parent, Kids, Linked, Levels, Select;
    nested := [];
    ghost var levels := Levels(hs);
    Unlinked(hs);
    for i := 0 to |hs|
      invariant nested == Linked(hs, -1, i)
      invariant forall k {:trigger hs[k].parent} :: 0 <= k < i ==> hs[k].parent == At(hs, Parent(levels, k))
      invariant forall k {:trigger hs[k].children} :: 0 <= k < i ==> hs[k].children == Linked(hs, k, i)
      invariant forall k :: i <= k < |hs| ==> hs[k].parent == null && hs[k].children == []
    {
      var h := hs[i];
      LinkedStep(hs, i);
      if i == 0 {
        FirstIsRoot(levels);
        nested := nested + [h];
      } else {
        var parent := FindParent(hs, i);
        if parent == null {
          nested := nested + [h];
        } else {
          h.parent := parent;
          parent.children := parent.children + [h];
        }
      }
    }
    AllLinked(hs);
  }

  lemma Unlinked(hs: seq<Entry>)
    ensures Linked(hs, -1, 0) == []
  {
  }

  lemma AllLinked(hs: seq<Entry>)
    ensures Linked(hs, -1, |hs|) == Select(hs, Roots(Levels(hs)))
    ensures forall i :: 0 <= i < |hs| ==> Linked(hs, i, |hs|) == Select(hs, Children(Levels(hs), i))
  {
  }

  lemma FirstIsRoot(levels: seq<int>)
    requires levels != []
    ensures Parent(levels, 0) == -1
  {
  }

  /** The callback that collects the visited headings. */
  method Collect(hs: seq<MdHeading>) returns (all: seq<Entry>)
    ensures fresh(all) && DistinctEntries(all) && |all| == |hs|
    ensures forall i :: 0 <= i < |hs| ==>
      all[i].level == hs[i].level && all[i].text == hs[i].text && all[i].id == hs[i].id
    ensures forall i :: 0 <= i < |hs| ==> all[i].parent == null && all[i].children == []
  {
    all := [];
    for i := 0 to |hs|
      invariant |all| == i && fresh(all) && DistinctEntries(all)
      invariant forall k :: 0 <= k < i ==>
        all[k].level == hs[k].level && all[k].text == hs[k].text && all[k].id == hs[k].id
      invariant forall k :: 0 <= k < i ==> all[k].parent == null && all[k].children == []
    {
      var section := new Entry(hs[i].level, hs[i].text, hs[i].id);
      all := all + [section];
    }
  }

  /** `extract` on the visited headings: the entries carry the headings' levels, texts and
      ids in document order, they are linked as the level forest, and the result is what is
      shown of it. */
  method ExtractFrom(hs: seq<MdHeading>, removeTitle: bool) returns (shown: seq<Entry>, all: seq<Entry>)
    ensures fresh(all) && DistinctEntries(all) && |all| == |hs|
    ensures forall i :: 0 <= i < |hs| ==>
      all[i].level == hs[i].level && all[i].text == hs[i].text && all[i].id == hs[i].id
    ensures forall i {:trigger all[i].parent} :: 0 <= i < |all| ==> all[i].parent == At(all, Parent(Levels(all), i))
    ensures forall i {:trigger all[i].children} :: 0 <= i < |all| ==>
      all[i].children == Select(all, Children(Levels(all), i))
    ensures shown == Select(all, Shown(Levels(all), removeTitle))
  {
    hide Parent, Children, Levels, Kids;
    all := Collect(hs);
    shown := Nest(all);
    if removeTitle {
      if |shown| == 1 && |shown[0].children| > 0 {
        ghost var r := Roots(Levels(all))[0];
        assert shown[0] == all[r] && all[r].children == Select(all, Children(Levels(all), r));
        shown := shown[0].children;
      }
    }
  }

  /** The two passes over a document, one after the other: the outline's entries are the
      document's headings (as far as the walk gets), each with the id that it has in the
      page, and no two with the same id. */
  method RewriteAndExtract(hs: seq<MdHeading>, removeTitle: bool, ghost doc: seq<Block>)
    returns (shown: seq<Entry>, all: seq<Entry>)
    requires hs == Walk(doc).headings && Distinct(hs)
    modifies hs
    ensures |all| == |hs| && shown == Select(all, Shown(Levels(all), removeTitle))
    ensures forall i :: 0 <= i < |hs| ==>
      all[i].level == hs[i].level && all[i].id == hs[i].id == README_PREFIX + Keys(Texts(hs))[i]
    ensures forall i, j :: 0 <= i < j < |all| ==> all[i].id != all[j].id
  {
    hide Walk, Keys, Shown, Levels, Parent, Children, Texts;
    AssignIDs(hs);
    shown, all := ExtractFrom(hs, removeTitle);
  }
}
