/** Which id a heading's text leads to: all its letters and digits, in words
    (internal/frontend/markdown.go). */
module HeadingLaws {
  import opened HeadingIds

  /** The letters and digits of a text. */
  function Alnums(s: string): (r: string)
    ensures forall i :: 0 <= i < |r| ==> IsAlnum(r[i])
  {
    if s == "" then "" else (if IsAlnum(s[0]) then [s[0]] else "") + Alnums(s[1..])
  }

  lemma {:induction false} AlnumsConcat(a: string, b: string)
    ensures Alnums(a + b) == Alnums(a) + Alnums(b)
  {
    if a == "" {
      assert a + b == b;
    } else {
      assert (a + b)[1..] == a[1..] + b;
      AlnumsConcat(a[1..], b);
    }
  }

  lemma {:induction false} AlnumsAll(s: string)
    requires forall i :: 0 <= i < |s| ==> IsAlnum(s[i])
    ensures Alnums(s) == s
  {
    if s != "" {
      AlnumsAll(s[1..]);
    }
  }

  function Concat(fields: seq<string>): string {
    if fields == [] then "" else fields[0] + Concat(fields[1..])
  }

  lemma {:induction false} FieldsKeepAll(s: string)
    ensures Concat(Fields(s)) == Alnums(s)
    decreases |s|
  {
    hide IsAlnum;
    if s != "" {
      if IsAlnum(s[0]) {
        var n := RunLength(s);
        FieldsKeepAll(s[n..]);
        assert s == s[..n] + s[n..];
        AlnumsConcat(s[..n], s[n..]);
        AlnumsAll(s[..n]);
        assert Fields(s)[1..] == Fields(s[n..]);
      } else {
        FieldsKeepAll(s[1..]);
      }
    }
  }

  lemma JoinFirst(fields: seq<string>)
    requires |fields| > 1
    ensures Join(fields) == fields[0] + "-" + Join(fields[1..])
  {
  }

  lemma JoinOne(fields: seq<string>)
    requires |fields| == 1
    ensures Join(fields) == fields[0] == Concat(fields)
  {
    assert Concat(fields[1..]) == "";
  }

  lemma AlnumsJoined(a: string, b: string)
    ensures Alnums(a + "-" + b) == Alnums(a) + Alnums(b)
  {
    hide Alnums;
    AlnumsConcat(a + "-", b);
    AlnumsConcat(a, "-");
    NoAlnums();
  }

  lemma NoAlnums()
    ensures Alnums("-") == "" && Alnums("") == ""
  {
  }

  lemma {:induction false} JoinKeepsAll(fields: seq<string>)
    requires forall i, j :: 0 <= i < |fields| && 0 <= j < |fields[i]| ==> IsAlnum(fields[i][j])
    ensures Alnums(Join(fields)) == Concat(fields)
  {
    hide IsAlnum, Alnums, Join;
    NoAlnums();
    if fields == [] {
      JoinNone();
    } else {
      AlnumsAll(fields[0]);
      if |fields| == 1 {
        JoinOne(fields);
      } else {
        JoinKeepsAll(fields[1..]);
        JoinFirst(fields);
        AlnumsJoined(fields[0], Join(fields[1..]));
      }
    }
  }

  lemma JoinNone()
    ensures Join([]) == ""
  {
  }

  lemma {:induction false} LowerKeeps(s: string)
    ensures Alnums(LowerString(s)) == LowerString(Alnums(s))
  {
    if s != "" {
      LowerKeeps(s[1..]);
      assert LowerString(s)[1..] == LowerString(s[1..]);
      assert IsAlnum(LowerChar(s[0])) <==> IsAlnum(s[0]);
    }
  }

  lemma FieldsAlnum(s: string)
    ensures forall i, j :: 0 <= i < |Fields(s)| && 0 <= j < |Fields(s)[i]| ==> IsAlnum(Fields(s)[i][j])
  {
  }

  /** The letters and digits of a slug are those of the text, in lower case; without any, it is
      "heading". */
  lemma SlugKeepsAll(text: string)
    ensures if Alnums(text) == "" then Slug(text) == "heading" else Alnums(Slug(text)) == LowerString(Alnums(text))
  {
    hide IsAlnum, Fields, Join, LowerChar;
    FieldsAlnum(text);
    FieldsKeepAll(text);
    JoinKeepsAll(Fields(text));
    LowerKeeps(Join(Fields(text)));
    JoinEmpty(text);
  }

  lemma JoinEmpty(text: string)
    ensures Join(Fields(text)) == "" <==> Concat(Fields(text)) == ""
  {
    if Fields(text) != [] {
      assert Fields(text)[0] != "";
    }
  }

  // ------------------------------------------------------------------- words

  lemma {:induction false} RunStops(a: string, c: char, b: string)
    requires !IsAlnum(c)
    ensures RunLength(a + [c] + b) == RunLength(a)
  {
    if a != "" && IsAlnum(a[0]) {
      assert (a + [c] + b)[1..] == a[1..] + [c] + b;
      RunStops(a[1..], c, b);
    }
  }

  lemma FieldsSkip(c: char, b: string)
    requires !IsAlnum(c)
    ensures Fields([c] + b) == Fields(b)
  {
    assert ([c] + b)[1..] == b;
  }

  lemma FieldsFirst(s: string)
    requires s != ""
    ensures !IsAlnum(s[0]) ==> Fields(s) == Fields(s[1..])
    ensures IsAlnum(s[0]) ==> RunLength(s) > 0 && Fields(s) == [s[..RunLength(s)]] + Fields(s[RunLength(s)..])
  {
  }

  /** Any other character separates words. */
  lemma {:induction false} FieldsSplit(a: string, c: char, b: string)
    requires !IsAlnum(c)
    ensures Fields(a + [c] + b) == Fields(a) + Fields(b)
    decreases |a|
  {
    hide IsAlnum, Fields, RunLength;
    var s := a + [c] + b;
    if a == "" {
      assert s == [c] + b;
      FieldsSkip(c, b);
      NothingToSplit();
    } else {
      FieldsFirst(s);
      FieldsFirst(a);
      if !IsAlnum(a[0]) {
        assert s[1..] == a[1..] + [c] + b;
        FieldsSplit(a[1..], c, b);
      } else {
        RunStops(a, c, b);
        var n := RunLength(a);
        assert s[..n] == a[..n] && s[n..] == a[n..] + [c] + b;
        FieldsSplit(a[n..], c, b);
      }
    }
  }

  lemma NothingToSplit()
    ensures Fields("") == []
  {
  }

  lemma {:induction false} JoinTwo(a: seq<string>, b: seq<string>)
    requires a != [] && b != []
    ensures Join(a + b) == Join(a) + "-" + Join(b)
  {
    if |a| == 1 {
      assert (a + b)[1..] == b;
    } else {
      assert (a + b)[1..] == a[1..] + b;
      JoinTwo(a[1..], b);
    }
  }

  lemma LowerConcat(a: string, b: string)
    ensures LowerString(a + "-" + b) == LowerString(a) + "-" + LowerString(b)
  {
  }

  lemma SlugIs(text: string)
    requires Alnums(text) != ""
    ensures Fields(text) != [] && Slug(text) == LowerString(Join(Fields(text))) && Slug(text) != ""
  {
    hide Fields, IsAlnum;
    FieldsKeepAll(text);
    JoinEmpty(text);
  }

  /** Words are joined by one dash, whatever stood between them. */
  lemma SlugOfWords(a: string, c: char, b: string)
    requires !IsAlnum(c)
    ensures Alnums(b) == "" && Alnums(a) != "" ==> Slug(a + [c] + b) == Slug(a)
    ensures Alnums(a) == "" && Alnums(b) != "" ==> Slug(a + [c] + b) == Slug(b)
    ensures Alnums(a) != "" && Alnums(b) != "" ==> Slug(a + [c] + b) == Slug(a) + "-" + Slug(b)
  {
    hide Fields, Join, IsAlnum, Alnums;
    FieldsSplit(a, c, b);
    NoFields(a);
    NoFields(b);
    assert Fields(a) + [] == Fields(a) && [] + Fields(b) == Fields(b);
    if Alnums(a) != "" && Alnums(b) != "" {
      SlugIs(a);
      SlugIs(b);
      JoinTwo(Fields(a), Fields(b));
      LowerConcat(Join(Fields(a)), Join(Fields(b)));
    }
  }

  lemma NoFields(s: string)
    ensures Fields(s) == [] <==> Alnums(s) == ""
  {
    FieldsKeepAll(s);
    if Fields(s) != [] {
      assert Fields(s)[0] != "";
    }
  }

  /** A single word only changes its case. */
  lemma SlugOfWord(word: string)
    requires word != "" && forall i :: 0 <= i < |word| ==> IsAlnum(word[i])
    ensures Slug(word) == LowerString(word)
  {
    var n := RunLength(word);
    assert n == |word|;
    assert word[..n] == word && word[n..] == "";
    assert Fields(word) == [word];
  }

  // --------------------------------------------------------------- the walk

  /** All headings of a document, in the order in which they stand there. */
  function Headings(bs: seq<Block>): seq<MdHeading>
    decreases bs
  {
    if bs == [] then [] else HeadingsOf(bs[0]) + Headings(bs[1..])
  }

  function HeadingsOf(b: Block): seq<MdHeading>
    decreases b
  {
    match b
    case Heading(h) => [h]
    case Document(bs) => Headings(bs)
    case List(bs) => Headings(bs)
    case Item(bs) => Headings(bs)
    case Quote(bs) => Headings(bs)
    case _ => []
  }

  /** Every block, at any depth, is one that the walk knows. */
  predicate AllKnown(bs: seq<Block>)
    decreases bs
  {
    forall i :: 0 <= i < |bs| ==> IsKnown(bs[i])
  }

  predicate IsKnown(b: Block)
    decreases b
  {
    match b
    case Unknown => false
    case Document(bs) => AllKnown(bs)
    case List(bs) => AllKnown(bs)
    case Item(bs) => AllKnown(bs)
    case Quote(bs) => AllKnown(bs)
    case _ => true
  }

  /** The walk visits all headings in document order if it knows all blocks, and a first part of
      them otherwise. */
  lemma {:induction false} WalkIsDocumentOrder(bs: seq<Block>)
    ensures Walk(bs).ok <==> AllKnown(bs)
    ensures Walk(bs).headings <= Headings(bs) && (AllKnown(bs) ==> Walk(bs).headings == Headings(bs))
    decreases bs
  {
    if bs != [] {
      WalkOneIsDocumentOrder(bs[0]);
      WalkIsDocumentOrder(bs[1..]);
      assert AllKnown(bs) <==> IsKnown(bs[0]) && AllKnown(bs[1..]) by {
        assert forall i :: 1 <= i < |bs| ==> bs[i] == bs[1..][i - 1];
      }
    }
  }

  lemma {:induction false} WalkOneIsDocumentOrder(b: Block)
    ensures WalkOne(b).ok <==> IsKnown(b)
    ensures WalkOne(b).headings <= HeadingsOf(b) && (IsKnown(b) ==> WalkOne(b).headings == HeadingsOf(b))
    decreases b
  {
    match b
    case Heading(_) =>
    case Leaf =>
    case Unknown =>
    case _ => WalkIsDocumentOrder(b.blocks);
  }
}
