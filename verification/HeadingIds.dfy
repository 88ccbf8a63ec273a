/** Markdown blocks as far as headings matter, the order in which `walkBlocks` visits them,
    and the ids that `rewriteHeadingIDs` gives them (internal/frontend/markdown.go). */
module HeadingIds {
  import opened Basics
  import opened Decimals

  /** A heading of the parsed document; its id is rewritten in place. */
  class MdHeading {
    const level: int
    const text: string
    var id: string

    constructor (level: int, text: string, id: string)
      ensures this.level == level && this.text == text && this.id == id
    {
      this.level, this.text, this.id := level, text, id;
    }
  }

  /** `Leaf` stands for every block without sub-blocks: texts, paragraphs, tables, code,
      HTML, empty blocks and thematic breaks. The walk fails at an unknown block. */
  datatype Block =
    | Document(blocks: seq<Block>)
    | List(blocks: seq<Block>)
    | Item(blocks: seq<Block>)
    | Quote(blocks: seq<Block>)
    | Heading(h: MdHeading)
    | Leaf
    | Unknown

  datatype Visit = Visit(headings: seq<MdHeading>, ok: bool)

  /** The headings that `walkBlocks` hands to its callback, in order, and whether it gets
      to the end. */
  function Walk(bs: seq<Block>): Visit
    decreases bs
  {
    if bs == [] then Visit([], true)
    else
      var v := WalkOne(bs[0]);
      if !v.ok then v
      else
        var w := Walk(bs[1..]);
        Visit(v.headings + w.headings, w.ok)
  }

  function WalkOne(b: Block): Visit
    decreases b
  {
    match b
    case Heading(h) => Visit([h], true)
    case Leaf => Visit([], true)
    case Unknown => Visit([], false)
    case _ => Walk(b.blocks)
  }

  // ------------------------------------------------------------------- slugs

  predicate IsAlnum(c: char) {
    'a' <= c <= 'z' || 'A' <= c <= 'Z' || '0' <= c <= '9'
  }

  function RunLength(s: string): (n: nat)
    ensures n <= |s| && (forall i :: 0 <= i < n ==> IsAlnum(s[i])) && (n < |s| ==> !IsAlnum(s[n]))
  {
    if s == [] || !IsAlnum(s[0]) then 0 else 1 + RunLength(s[1..])
  }

  /** `strings.FieldsFunc`: the maximal runs of letters and digits. */
  function Fields(s: string): (r: seq<string>)
    ensures forall i :: 0 <= i < |r| ==> r[i] != [] && forall j :: 0 <= j < |r[i]| ==> IsAlnum(r[i][j])
  {
    if s == [] then []
    else if !IsAlnum(s[0]) then Fields(s[1..])
    else [s[..RunLength(s)]] + Fields(s[RunLength(s)..])
  }

  function Join(fields: seq<string>): string {
    if fields == [] then [] else if |fields| == 1 then fields[0] else fields[0] + "-" + Join(fields[1..])
  }

  function LowerChar(c: char): char {
    if 'A' <= c <= 'Z' then (c as int + 32) as char else c
  }

  function LowerString(s: string): (r: string)
    ensures |r| == |s| && forall i :: 0 <= i < |s| ==> r[i] == LowerChar(s[i])
  {
    seq(|s|, i requires 0 <= i < |s| => LowerChar(s[i]))
  }

  function Slug(text: string): string {
    var s := LowerString(Join(Fields(text)));
    if s == [] then "heading" else s
  }

  predicate SlugChar(c: char) {
    'a' <= c <= 'z' || '0' <= c <= '9'
  }

  /** Lower-case words separated by single dashes. */
  predicate IsSlug(s: string) {
    && s != [] && SlugChar(s[0]) && SlugChar(s[|s| - 1])
    && (forall i :: 0 <= i < |s| ==> SlugChar(s[i]) || s[i] == '-')
    && forall i :: 0 < i < |s| && s[i] == '-' ==> s[i - 1] != '-'
  }

  predicate IsJoined(s: string) {
    && s != [] && IsAlnum(s[0]) && IsAlnum(s[|s| - 1])
    && (forall i :: 0 <= i < |s| ==> IsAlnum(s[i]) || s[i] == '-')
    && forall i :: 0 < i < |s| && s[i] == '-' ==> s[i - 1] != '-'
  }

  lemma {:induction false} JoinShape(fields: seq<string>)
    requires fields != [] && forall i :: 0 <= i < |fields| ==> fields[i] != [] && forall j :: 0 <= j < |fields[i]| ==>
      IsAlnum(fields[i][j])
    ensures IsJoined(Join(fields))
  {
    if |fields| > 1 {
      JoinShape(fields[1..]);
      var a, b := fields[0], Join(fields[1..]);
      var s := a + "-" + b;
      assert forall i :: 0 <= i < |a| ==> s[i] == a[i];
      assert s[|a|] == '-' && forall i :: |a| < i < |s| ==> s[i] == b[i - |a| - 1];
    }
  }

  lemma SlugShape(text: string)
    ensures IsSlug(Slug(text))
  {
    var fields := Fields(text);
    if fields != [] {
      JoinShape(fields);
      hide Fields, Join, IsAlnum;
      assert forall c :: IsAlnum(c) ==> SlugChar(LowerChar(c)) by { assert forall c :: IsAlnum(c) ==> LowersToSlug(c); }
    }
  }

  predicate LowersToSlug(c: char) {
    SlugChar(LowerChar(c))
  }

  // -------------------------------------------------------------- candidates

  /** The `i`-th key that the probing loop tries. */
  function Candidate(str: string, i: nat): string {
    if i == 0 then str else str + "-" + Decimal(i)
  }

  lemma CandidatesDistinct(str: string, i: nat, j: nat)
    requires Candidate(str, i) == Candidate(str, j)
    ensures i == j
  {
    if i > 0 && j > 0 {
      var k := |str| + 1;
      assert Candidate(str, i)[k..] == Decimal(i) && Candidate(str, j)[k..] == Decimal(j);
      ValueOfDecimal(i);
      ValueOfDecimal(j);
    }
  }

  /** The first `n` candidates, all taken, are as many different keys. */
  lemma {:induction false} TakenCandidates(str: string, ids: set<string>, n: nat)
    requires forall i :: 0 <= i < n ==> Candidate(str, i) in ids
    ensures n <= |ids|
    decreases n
  {
    if n > 0 {
      var key := Candidate(str, n - 1);
      forall i | 0 <= i < n - 1
        ensures Candidate(str, i) in ids - {key}
      {
        if Candidate(str, i) == key {
          CandidatesDistinct(str, i, n - 1);
        }
      }
      TakenCandidates(str, ids - {key}, n - 1);
    }
  }

  /** The number of the first free candidate, searching from `i` on. */
  function FirstFree(str: string, ids: set<string>, i: nat): (k: nat)
    requires forall j :: 0 <= j < i ==> Candidate(str, j) in ids
    ensures Candidate(str, k) !in ids && forall j :: 0 <= j < k ==> Candidate(str, j) in ids
    decreases |ids| - i
  {
    TakenCandidates(str, ids, i);
    if Candidate(str, i) !in ids then i
    else
      TakenCandidates(str, ids, i + 1);
      FirstFree(str, ids, i + 1)
  }

  /** The probing loop of `generateID`. It ends within `|ids| + 1` probes, at the first
      candidate that is free. */
  method GenerateID(text: string, ids: set<string>) returns (key: string, ids': set<string>, probes: nat)
    ensures key == Candidate(Slug(text), FirstFree(Slug(text), ids, 0))
    ensures key !in ids && ids' == ids + {key}
    ensures 1 <= probes <= |ids| + 1
  {
    hide Candidate, Slug;
    var str := Slug(text);
    key := str;
    assert Candidate(str, 0) == str by { ZerothCandidate(str); }
    var i := 1;
    while true
      invariant i >= 1 && key == Candidate(str, i - 1)
      invariant forall j :: 0 <= j < i - 1 ==> Candidate(str, j) in ids
      decreases |ids| + 1 - i
    {
      TakenCandidates(str, ids, i - 1);
      if key !in ids {
        ids' := ids + {key};
        probes := i;
        return;
      }
      TakenCandidates(str, ids, i);
      key := Suffixed(str, i);
      i := i + 1;
    }
  }

  lemma ZerothCandidate(str: string)
    ensures Candidate(str, 0) == str
  {
  }

  /** `fmt.Sprintf("%s-%d", str, i)`. */
  function Suffixed(str: string, i: nat): (key: string)
    requires i >= 1
    ensures key == Candidate(str, i)
  {
    str + "-" + Decimal(i)
  }

  // --------------------------------------------------------- whole documents

  /** The keys of headings with the given texts, in document order: each takes its first
      candidate that no earlier heading took. */
  ghost function Keys(texts: seq<string>): (r: seq<string>)
    ensures |r| == |texts|
  {
    if texts == [] then []
    else
      var n := |texts| - 1;
      var before := Keys(texts[..n]);
      var str := Slug(texts[n]);
      before + [Candidate(str, FirstFree(str, Elements(before), 0))]
  }

  lemma {:induction false} KeysDistinct(texts: seq<string>, i: nat, j: nat)
    requires i < j < |texts|
    ensures Keys(texts)[i] != Keys(texts)[j]
  {
    hide Candidate, FirstFree, Slug;
    var n := |texts| - 1;
    var before := Keys(texts[..n]);
    if j < n {
      KeysDistinct(texts[..n], i, j);
    } else {
      assert before[i] in Elements(before);
    }
  }

  function Texts(hs: seq<MdHeading>): (r: seq<string>)
    ensures |r| == |hs| && forall i :: 0 <= i < |hs| ==> r[i] == hs[i].text
  {
    seq(|hs|, i requires 0 <= i < |hs| => hs[i].text)
  }

  predicate Distinct(hs: seq<MdHeading>) {
    forall i, j :: 0 <= i < j < |hs| ==> hs[i] != hs[j]
  }

  const README_PREFIX := "readme-"

  /** `rewriteHeadingIDs`: the document's headings, which are different objects because a
      parsed document is a tree, get the keys of `Keys`, so their ids are all different. */
  method RewriteHeadingIDs(doc: seq<Block>)
    requires Distinct(Walk(doc).headings)
    modifies Walk(doc).headings
    ensures var hs := Walk(doc).headings;
      && (forall i :: 0 <= i < |hs| ==> hs[i].id == README_PREFIX + Keys(Texts(hs))[i])
      && (forall i, j :: 0 <= i < j < |hs| ==> hs[i].id != hs[j].id)
  {
    AssignIDs(Walk(doc).headings);
  }

  /** The callback, run on the visited headings in turn. */
  method AssignIDs(hs: seq<MdHeading>)
    requires Distinct(hs)
    modifies hs
    ensures forall i :: 0 <= i < |hs| ==> hs[i].id == README_PREFIX + Keys(Texts(hs))[i]
    ensures forall i, j :: 0 <= i < j < |hs| ==> hs[i].id != hs[j].id
  {
    hide Slug, Candidate, Keys, Elements, FirstFree;
    var ids: set<string> := {};
    ghost var keys: seq<string> := [];
    NoKeys();
    for k := 0 to |hs|
      invariant |keys| == k && keys == Keys(Texts(hs)[..k]) && ids == Elements(keys)
      invariant forall i :: 0 <= i < k ==> hs[i].id == README_PREFIX + keys[i]
    {
      var key, ids', _ := GenerateID(hs[k].text, ids);
      KeysStep(Texts(hs), k);
      ids := ids';
      ghost var next := keys + [key];
      forall i | 0 <= i < k
        ensures hs[i].id == README_PREFIX + next[i] && hs[i] != hs[k]
      {
        assert next[i] == keys[i];
      }
      hs[k].id := README_PREFIX + key;
      keys := next;
    }
    assert Texts(hs)[..|hs|] == Texts(hs);
    forall i, j | 0 <= i < j < |hs|
      ensures hs[i].id != hs[j].id
    {
      KeysDistinct(Texts(hs), i, j);
      PrefixedDiffer(keys[i], keys[j]);
    }
  }

  lemma NoKeys()
    ensures Keys([]) == [] && Elements<string>([]) == {}
  {
  }

  lemma KeysStep(texts: seq<string>, k: nat)
    requires k < |texts|
    ensures var before := Keys(texts[..k]);
      var key := Candidate(Slug(texts[k]), FirstFree(Slug(texts[k]), Elements(before), 0));
      Keys(texts[..k + 1]) == before + [key] && Elements(before + [key]) == Elements(before) + {key}
  {
    hide Slug, Candidate, FirstFree;
    assert texts[..k + 1][..k] == texts[..k];
  }

  lemma PrefixedDiffer(a: string, b: string)
    requires a != b
    ensures README_PREFIX + a != README_PREFIX + b
  {
    var n := |README_PREFIX|;
    assert (README_PREFIX + a)[n..] == a && (README_PREFIX + b)[n..] == b;
  }
}
