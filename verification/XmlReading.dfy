/**
 The scanners read the tree back: on a document written down from a tree, each
 scanner returns what a reader of the tree would point at.
 */
module XmlReading {
  import opened Options
  import opened XmlScan
  import opened XmlForest

  /** The content of the first element named `tag` in document order, at any depth. */
  function FirstIn(x: Xml, tag: string): Option<seq<Xml>>
  {
    match x
    case Text(_) => None
    case Node(name, kids) => if name == tag then Some(kids) else FirstInAll(kids, tag)
  }

  function FirstInAll(f: seq<Xml>, tag: string): Option<seq<Xml>>
  {
    if f == [] then None
    else if FirstIn(f[0], tag).Some? then FirstIn(f[0], tag)
    else FirstInAll(f[1..], tag)
  }

  /** The contents of the elements named `tag` that lie in no other such element, in document order. */
  function OuterIn(x: Xml, tag: string): seq<seq<Xml>>
  {
    match x
    case Text(_) => []
    case Node(name, kids) => if name == tag then [kids] else OuterAll(kids, tag)
  }

  function OuterAll(f: seq<Xml>, tag: string): seq<seq<Xml>>
  {
    if f == [] then [] else OuterIn(f[0], tag) + OuterAll(f[1..], tag)
  }

  lemma {:induction false} FirstIsGood(f: seq<Xml>, tag: string)
    requires GoodAll(f)
    ensures FirstInAll(f, tag).Some? ==> GoodAll(FirstInAll(f, tag).value)
  {
    if f != [] {
      match f[0] {
        case Text(_) =>
        case Node(_, kids) => FirstIsGood(kids, tag);
      }
      FirstIsGood(f[1..], tag);
    }
  }

  lemma {:induction false} OuterAreGood(f: seq<Xml>, tag: string)
    requires GoodAll(f)
    ensures forall kids :: kids in OuterAll(f, tag) ==> GoodAll(kids)
  {
    if f != [] {
      match f[0] {
        case Text(_) =>
        case Node(_, kids) => OuterAreGood(kids, tag);
      }
      OuterAreGood(f[1..], tag);
    }
  }

  // -- one element behind something that does not mention it ------------------------------

  lemma BetweenSkips(b: string, r: string, open: string, close: string)
    requires Find(b + r, open) == Shift(|b|, Find(r, open))
    ensures Between(b + r, open, close) == Between(r, open, close)
  {
    hide Find, Trim;
    match Find(r, open) {
      case None =>
      case Some(i) => assert (b + r)[|b| + i + |open|..] == r[i + |open|..];
    }
    match Find(r, open) {
      case None =>
      case Some(i) =>
        var c := Find(r[i + |open|..], close);
        if c.Some? {
          assert (b + r)[|b| + i + |open|..|b| + i + |open| + c.value] == r[i + |open|..i + |open| + c.value];
        }
    }
  }

  lemma BetweenHere(text: string, r: string, open: string, close: string)
    requires Find(text + (close + r), close) == Some(|text|)
    ensures Between(open + (text + (close + r)), open, close) == Some(Trim(text))
  {
    hide Find, Trim, IsTag;
    var h := open + (text + (close + r));
    FindSame(text + (close + r), open);
    assert h[|open|..] == text + (close + r);
    assert h[|open|..|open| + |text|] == text;
  }

  lemma BalancedSkips(b: string, r: string, open: string, close: string)
    requires Find(b + r, open) == Shift(|b|, Find(r, open))
    ensures BalancedBetween(b + r, open, close) == BalancedBetween(r, open, close)
  {
    hide Find, CloseAt;
    match Find(r, open) {
      case None =>
      case Some(i) =>
        assert (b + r)[|b| + i + |open|..] == r[i + |open|..];
        var c := CloseAt(r[i + |open|..], open, close, 1);
        if c.Some? {
          assert (b + r)[|b| + i + |open|..|b| + i + |open| + c.value] == r[i + |open|..i + |open| + c.value];
        }
    }
  }

  lemma BalancedAtStart(body: string, open: string, close: string, n: nat)
    requires CloseAt(body, open, close, 1) == Some(n)
    ensures BalancedBetween(open + body, open, close) == Some(body[..n])
  {
    hide Find, CloseAt;
    FindSame(body, open);
    var h := open + body;
    assert h[|open|..] == body;
    assert h[|open|..|open| + n] == body[..n];
  }

  lemma BalancedHere(inner: string, r: string, open: string, close: string)
    requires IsTag(open) && IsTag(close) && open != close
    requires CloseAt(inner + (close + r), open, close, 1) == Shift(|inner|, CloseAt(close + r, open, close, 1))
    ensures BalancedBetween(open + (inner + (close + r)), open, close) == Some(inner)
  {
    hide Find, CloseAt, IsTag, BalancedBetween;
    CloseSame(r, open, close, 1);
    BalancedAtStart(inner + (close + r), open, close, |inner|);
    assert (inner + (close + r))[..|inner|] == inner;
  }

  lemma Rest(open: string, inner: string, close: string, r: string)
    ensures (open + (inner + (close + r)))[|open| + |inner| + |close|..] == r
  {
  }

  /** When the first `tag` of `b + r` is that of `r`, so is the first element, and what follows it. */
  lemma RestPastPrefix(b: string, r: string, tag: string)
    requires Find(b + r, Open(tag)) == Shift(|b|, Find(r, Open(tag)))
    ensures Balanced(b + r, tag) == Balanced(r, tag)
    ensures Balanced(r, tag).Some? ==> AfterFirst(b + r, tag) == AfterFirst(r, tag)
  {
    hide Find, Open, Close, BalancedBetween;
    BalancedSkips(b, r, Open(tag), Close(tag));
    if Balanced(r, tag).Some? {
      var n := Find(r, Open(tag)).value + |Open(tag)| + |Balanced(r, tag).value| + |Close(tag)|;
      assert (b + r)[|b| + n..] == r[n..];
    }
  }

  /** `tag`'s first element in `b + r` is that of `r`, and the walks go on behind it the same way. */
  ghost predicate Skippable(b: string, r: string, tag: string)
  {
    && Find(b + r, Open(tag)) == Shift(|b|, Find(r, Open(tag)))
    && ExtractScalar(b + r, tag) == ExtractScalar(r, tag)
    && Balanced(b + r, tag) == Balanced(r, tag)
    && (Balanced(r, tag).Some? ==> AfterFirst(b + r, tag) == AfterFirst(r, tag))
  }

  lemma FoundLater(b: string, r: string, tag: string)
    requires Find(b + r, Open(tag)) == Shift(|b|, Find(r, Open(tag)))
    ensures Skippable(b, r, tag)
  {
    hide Find, Open, Close, Balanced, AfterFirst, Between;
    RestPastPrefix(b, r, tag);
    BetweenSkips(b, r, Open(tag), Close(tag));
  }

  /** Text, and the tags of other elements, are skipped. */
  lemma TagsSkipped(name: string, r: string, tag: string)
    requires ElementName(name) && ElementName(tag) && name != tag
    ensures Skippable(Open(name), r, tag) && Skippable(Close(name), r, tag)
  {
    hide Find, Balanced, Skippable, AfterFirst, Open, Close, IsTag;
    TagsDiffer(tag);
    TagsDiffer(name);
    DistinctTags(tag, name);
    FindOther(Open(name), r, Open(tag));
    FindOther(Close(name), r, Open(tag));
    FoundLater(Open(name), r, tag);
    FoundLater(Close(name), r, tag);
  }

  lemma TextSkipped(s: string, r: string, tag: string)
    requires NoMarkup(s) && ElementName(tag)
    ensures Skippable(s, r, tag)
  {
    hide Find, Balanced, Skippable, AfterFirst, Open, Close, IsTag;
    TagsDiffer(tag);
    FindText(s, r, Open(tag));
    FoundLater(s, r, tag);
  }

  lemma RenderText(text: string)
    ensures Render(Text(text)) == text
  {
  }

  lemma {:induction false} Nested(name: string, kids: seq<Xml>, r: string)
    ensures Render(Node(name, kids)) + r == Open(name) + (RenderAll(kids) + (Close(name) + r))
  {
  }

  lemma {:induction false} Next(f: seq<Xml>, r: string)
    requires f != []
    ensures RenderAll(f) + r == Render(f[0]) + (RenderAll(f[1..]) + r)
  {
  }

  lemma NothingInNothing(tag: string)
    ensures ExtractScalar("", tag) == None && Balanced("", tag) == None
  {
  }

  // -- extract_balanced --------------------------------------------------------------------------

  lemma {:induction false} ElementHere(kids: seq<Xml>, r: string, tag: string)
    requires GoodAll(kids) && ElementName(tag)
    ensures var h := Render(Node(tag, kids)) + r;
            Balanced(h, tag) == Some(RenderAll(kids)) && Find(h, Open(tag)) == Some(0) && AfterFirst(h, tag) == r
  {
    hide CloseAt, Find, BalancedBetween, Open, Close;
    var inner := RenderAll(kids);
    var open, close := Open(tag), Close(tag);
    var h := Render(Node(tag, kids)) + r;
    assert h == open + (inner + (close + r));
    TagsDiffer(tag);
    CloseAtPastForest(kids, close + r, tag, 1);
    BalancedHere(inner, r, open, close);
    FindSame(inner + (close + r), open);
    Rest(open, inner, close, r);
  }

  lemma {:induction false} BalancedIsFirstIn(x: Xml, r: string, tag: string)
    requires Good(x) && ElementName(tag)
    ensures Balanced(Render(x) + r, tag) ==
            match FirstIn(x, tag) case Some(kids) => Some(RenderAll(kids)) case None => Balanced(r, tag)
    decreases x, 0
  {
    hide Balanced, Render, RenderAll, Open, Close, Find, AfterFirst;
    match x {
      case Text(text) =>
        RenderText(text);
        TextSkipped(text, r, tag);
      case Node(name, kids) =>
        Nested(name, kids, r);
        if name == tag {
          ElementHere(kids, r, tag);
        } else {
          TagsSkipped(name, RenderAll(kids) + (Close(name) + r), tag);
          BalancedIsFirstInAll(kids, Close(name) + r, tag);
          TagsSkipped(name, r, tag);
        }
    }
  }

  lemma {:induction false} BalancedIsFirstInAll(f: seq<Xml>, r: string, tag: string)
    requires GoodAll(f) && ElementName(tag)
    ensures Balanced(RenderAll(f) + r, tag) ==
            match FirstInAll(f, tag) case Some(kids) => Some(RenderAll(kids)) case None => Balanced(r, tag)
    decreases f, 1
  {
    hide Balanced, Render;
    if f == [] {
      assert RenderAll(f) + r == r;
    } else {
      Next(f, r);
      BalancedIsFirstIn(f[0], RenderAll(f[1..]) + r, tag);
      BalancedIsFirstInAll(f[1..], r, tag);
    }
  }

  /** On any document, `extract_balanced` returns the content of the first such element. */
  lemma {:induction false} BalancedReadsFirst(f: seq<Xml>, tag: string)
    requires GoodAll(f) && ElementName(tag)
    ensures Balanced(RenderAll(f), tag) ==
            match FirstInAll(f, tag) case Some(kids) => Some(RenderAll(kids)) case None => None
  {
    hide Balanced;
    BalancedIsFirstInAll(f, "", tag);
    NothingInNothing(tag);
    assert RenderAll(f) + "" == RenderAll(f);
  }

  // -- extract_scalar ------------------------------------------------------------------------

  /** The first element named `tag`, if there is one, has no other inside. */
  predicate Unnested(f: seq<Xml>, tag: string)
  {
    FirstInAll(f, tag).Some? ==> !MentionsAll(FirstInAll(f, tag).value, tag)
  }

  /** The trimmed content of the first element named `tag`. */
  function Field(f: seq<Xml>, tag: string): Option<string>
  {
    match FirstInAll(f, tag)
    case None => None
    case Some(kids) => Some(Trim(RenderAll(kids)))
  }

  lemma {:induction false} FieldHere(kids: seq<Xml>, r: string, tag: string)
    requires GoodAll(kids) && ElementName(tag) && !MentionsAll(kids, tag)
    ensures ExtractScalar(Render(Node(tag, kids)) + r, tag) == Some(Trim(RenderAll(kids)))
  {
    hide Find, Trim, RenderAll, Open, Close, IsTag, Between;
    TagsDiffer(tag);
    Nested(tag, kids, r);
    FindPastForest(kids, Close(tag) + r, tag, Close(tag));
    FindSame(r, Close(tag));
    BetweenHere(RenderAll(kids), r, Open(tag), Close(tag));
  }

  lemma {:induction false} ScalarIsFirstIn(x: Xml, r: string, tag: string)
    requires Good(x) && ElementName(tag)
    requires FirstIn(x, tag).Some? ==> !MentionsAll(FirstIn(x, tag).value, tag)
    ensures ExtractScalar(Render(x) + r, tag) ==
            match FirstIn(x, tag) case Some(kids) => Some(Trim(RenderAll(kids))) case None => ExtractScalar(r, tag)
    decreases x, 0
  {
    hide ExtractScalar, Balanced, Render, RenderAll, Open, Close, Find, AfterFirst, Trim;
    match x {
      case Text(text) =>
        RenderText(text);
        TextSkipped(text, r, tag);
      case Node(name, kids) =>
        Nested(name, kids, r);
        if name == tag {
          FieldHere(kids, r, tag);
        } else {
          TagsSkipped(name, RenderAll(kids) + (Close(name) + r), tag);
          ScalarIsFirstInAll(kids, Close(name) + r, tag);
          TagsSkipped(name, r, tag);
        }
    }
  }

  lemma {:induction false} ScalarIsFirstInAll(f: seq<Xml>, r: string, tag: string)
    requires GoodAll(f) && ElementName(tag) && Unnested(f, tag)
    ensures ExtractScalar(RenderAll(f) + r, tag) ==
            match FirstInAll(f, tag) case Some(kids) => Some(Trim(RenderAll(kids))) case None => ExtractScalar(r, tag)
    decreases f, 1
  {
    hide ExtractScalar, Render, Trim;
    if f == [] {
      assert RenderAll(f) + r == r;
    } else {
      Next(f, r);
      ScalarIsFirstIn(f[0], RenderAll(f[1..]) + r, tag);
      if FirstIn(f[0], tag).None? {
        ScalarIsFirstInAll(f[1..], r, tag);
      }
    }
  }

  /** On any document, `extract_scalar` returns the trimmed content of the first such element, wherever it lies. */
  lemma {:induction false} ScalarReadsField(f: seq<Xml>, tag: string)
    requires GoodAll(f) && ElementName(tag) && Unnested(f, tag)
    ensures ExtractScalar(RenderAll(f), tag) == Field(f, tag)
  {
    hide ExtractScalar, Trim;
    ScalarIsFirstInAll(f, "", tag);
    NothingInNothing(tag);
    assert RenderAll(f) + "" == RenderAll(f);
  }

  // -- walking from element to element ---------------------------------------------------------

  /** The contents that a caller sees who slices past each element that `extract_balanced` returns. */
  function Walk(h: string, tag: string): seq<string>
    decreases |h|
  {
    match Balanced(h, tag)
    case None => []
    case Some(inner) => [inner] + Walk(AfterFirst(h, tag), tag)
  }

  function Written(fs: seq<seq<Xml>>): seq<string>
  {
    if fs == [] then [] else [RenderAll(fs[0])] + Written(fs[1..])
  }

  lemma {:induction false} WrittenAppends(a: seq<seq<Xml>>, b: seq<seq<Xml>>)
    ensures Written(a + b) == Written(a) + Written(b)
  {
    if a == [] {
      assert a + b == b;
    } else {
      assert (a + b)[1..] == a[1..] + b;
      WrittenAppends(a[1..], b);
    }
  }

  lemma SkipKeepsWalk(b: string, r: string, tag: string)
    requires Skippable(b, r, tag)
    ensures Walk(b + r, tag) == Walk(r, tag)
  {
    hide Balanced, AfterFirst, Find, ExtractScalar;
  }

  lemma {:induction false} WalkHere(kids: seq<Xml>, r: string, tag: string)
    requires GoodAll(kids) && ElementName(tag)
    ensures Walk(Render(Node(tag, kids)) + r, tag) == [RenderAll(kids)] + Walk(r, tag)
  {
    hide Balanced, AfterFirst, Render, RenderAll, Find;
    ElementHere(kids, r, tag);
  }

  lemma {:induction false} WalkReadsTree(x: Xml, r: string, tag: string)
    requires Good(x) && ElementName(tag)
    ensures Walk(Render(x) + r, tag) == Written(OuterIn(x, tag)) + Walk(r, tag)
    decreases x, 0
  {
    hide Walk, Render, RenderAll, Open, Close, Skippable;
    match x {
      case Text(text) =>
        RenderText(text);
        TextSkipped(text, r, tag);
        SkipKeepsWalk(text, r, tag);
      case Node(name, kids) =>
        Nested(name, kids, r);
        if name == tag {
          WalkHere(kids, r, tag);
          assert Written([kids]) == [RenderAll(kids)] + Written([]);
        } else {
          var inner := RenderAll(kids) + (Close(name) + r);
          TagsSkipped(name, inner, tag);
          SkipKeepsWalk(Open(name), inner, tag);
          WalkReadsForest(kids, Close(name) + r, tag);
          TagsSkipped(name, r, tag);
          SkipKeepsWalk(Close(name), r, tag);
        }
    }
  }

  lemma {:induction false} WalkReadsForest(f: seq<Xml>, r: string, tag: string)
    requires GoodAll(f) && ElementName(tag)
    ensures Walk(RenderAll(f) + r, tag) == Written(OuterAll(f, tag)) + Walk(r, tag)
    decreases f, 1
  {
    hide Walk, Render;
    if f == [] {
      assert RenderAll(f) + r == r;
    } else {
      Next(f, r);
      WalkReadsTree(f[0], RenderAll(f[1..]) + r, tag);
      WalkReadsForest(f[1..], r, tag);
      WrittenAppends(OuterIn(f[0], tag), OuterAll(f[1..], tag));
    }
  }

  /** On any document, the walk sees the outermost elements and nothing inside them, in document order. */
  lemma {:induction false} WalkReadsOuter(f: seq<Xml>, tag: string)
    requires GoodAll(f) && ElementName(tag)
    ensures Walk(RenderAll(f), tag) == Written(OuterAll(f, tag))
  {
    hide Balanced;
    WalkReadsForest(f, "", tag);
    NothingInNothing(tag);
    assert RenderAll(f) + "" == RenderAll(f);
  }
}
