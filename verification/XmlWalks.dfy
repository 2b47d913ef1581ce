/**
 Two walks over whole documents: `count_items` (how many network interfaces an
 instance has) and `extract_all_scalars` (every value of a repeated field).
 */
module XmlWalks {
  import opened Options
  import opened XmlScan
  import opened XmlForest
  import opened XmlReading

  // -- count_items -------------------------------------------------------------------------

  const INTERFACES := "networkInterfaceSet"
  const ITEM := "item"

  function Items(xml: string): nat
  {
    match Balanced(xml, INTERFACES)
    case None => 0
    case Some(block) => |Walk(block, ITEM)|
  }

  method CountItems(xml: string) returns (count: nat)
    ensures count == Items(xml)
  {
    hide Balanced, AfterFirst;
    assert ElementName(INTERFACES) && ElementName(ITEM);
    var block := ExtractBalanced(xml, INTERFACES);
    if block.None? {
      return 0;
    }
    count := 0;
    var remaining := block.value;
    while true
      invariant count + |Walk(remaining, ITEM)| == |Walk(block.value, ITEM)|
      decreases |remaining|
    {
      var inner := ExtractBalanced(remaining, ITEM);
      if inner.None? {
        return;
      }
      count := count + 1;
      remaining := Behind(remaining, ITEM, inner.value);
    }
  }

  /**
   On any document, `count_items` returns the number of items in the first
   interface set that lie in no other item.
   */
  lemma {:induction false} ItemsCountsTree(f: seq<Xml>)
    requires GoodAll(f)
    ensures Items(RenderAll(f)) ==
            match FirstInAll(f, "networkInterfaceSet") case None => 0 case Some(kids) => |OuterAll(kids, "item")|
  {
    hide Balanced, Walk;
    assert ElementName(INTERFACES) && ElementName(ITEM);
    BalancedReadsFirst(f, INTERFACES);
    FirstIsGood(f, INTERFACES);
    match FirstInAll(f, INTERFACES) {
      case None =>
      case Some(kids) =>
        WalkReadsOuter(kids, ITEM);
        WrittenOneByOne(OuterAll(kids, ITEM));
    }
  }

  lemma {:induction false} WrittenOneByOne(fs: seq<seq<Xml>>)
    ensures |Written(fs)| == |fs|
  {
    if fs != [] {
      WrittenOneByOne(fs[1..]);
    }
  }

  /** A set of `n` interfaces, however many items each of them holds, counts `n`. */
  lemma {:induction false} OnePerInterface(kids: seq<Xml>)
    requires forall k :: 0 <= k < |kids| ==> kids[k].Node? && kids[k].tag == ITEM
    ensures |OuterAll(kids, ITEM)| == |kids|
  {
    if kids != [] {
      OnePerInterface(kids[1..]);
    }
  }

  // -- extract_all_scalars -----------------------------------------------------------------------

  function AllBetween(h: string, open: string, close: string): seq<string>
    requires |open| > 0
    decreases |h|
  {
    match Find(h, open)
    case None => []
    case Some(i) =>
      var start := i + |open|;
      match Find(h[start..], close)
      case None => []
      case Some(c) => [Trim(h[start..start + c])] + AllBetween(h[start + c + |close|..], open, close)
  }

  function AllScalars(h: string, tag: string): seq<string>
  {
    AllBetween(h, Open(tag), Close(tag))
  }

  method ExtractAllScalars(haystack: string, tag: string) returns (result: seq<string>)
    ensures result == AllScalars(haystack, tag)
  {
    hide Find, Trim;
    var open, close := Open(tag), Close(tag);
    result := [];
    var pos := 0;
    assert haystack[0..] == haystack;
    while true
      invariant pos <= |haystack|
      invariant result + AllBetween(haystack[pos..], open, close) == AllScalars(haystack, tag)
      decreases |haystack| - pos
    {
      var relStart := Find(haystack[pos..], open);
      if relStart.None? {
        return;
      }
      var start := pos + relStart.value + |open|;
      assert haystack[pos..][relStart.value + |open|..] == haystack[start..];
      var relEnd := Find(haystack[start..], close);
      if relEnd.None? {
        return;
      }
      var end := start + relEnd.value;
      assert haystack[pos..][relStart.value + |open|..relStart.value + |open| + relEnd.value] == haystack[start..end];
      assert haystack[pos..][relStart.value + |open| + relEnd.value + |close|..] == haystack[end + |close|..];
      result := result + [Trim(haystack[start..end])];
      pos := end + |close|;
    }
  }

  function Trimmed(texts: seq<string>): seq<string>
  {
    if texts == [] then [] else [Trim(texts[0])] + Trimmed(texts[1..])
  }

  lemma {:induction false} TrimmedAppends(a: seq<string>, b: seq<string>)
    ensures Trimmed(a + b) == Trimmed(a) + Trimmed(b)
  {
    if a == [] {
      assert a + b == b;
    } else {
      assert (a + b)[1..] == a[1..] + b;
      TrimmedAppends(a[1..], b);
    }
  }

  /** No element named `tag` lies in another. */
  predicate NeverNested(f: seq<Xml>, tag: string)
  {
    forall kids :: kids in OuterAll(f, tag) ==> !MentionsAll(kids, tag)
  }

  lemma SkipKeepsScalars(b: string, r: string, open: string, close: string)
    requires |open| > 0 && Find(b + r, open) == Shift(|b|, Find(r, open))
    ensures AllBetween(b + r, open, close) == AllBetween(r, open, close)
  {
    hide Find, Trim;
    match Find(r, open) {
      case None =>
      case Some(i) =>
        var start := i + |open|;
        assert (b + r)[|b| + start..] == r[start..];
        var c := Find(r[start..], close);
        if c.Some? {
          assert (b + r)[|b| + start..|b| + start + c.value] == r[start..start + c.value];
          assert (b + r)[|b| + start + c.value + |close|..] == r[start + c.value + |close|..];
        }
    }
  }

  lemma {:induction false} ScalarHere(kids: seq<Xml>, r: string, tag: string)
    requires GoodAll(kids) && ElementName(tag) && !MentionsAll(kids, tag)
    ensures AllScalars(Render(Node(tag, kids)) + r, tag) == [Trim(RenderAll(kids))] + AllScalars(r, tag)
  {
    hide Find, Trim, RenderAll, Open, Close, IsTag, AllBetween;
    TagsDiffer(tag);
    Nested(tag, kids, r);
    FindPastForest(kids, Close(tag) + r, tag, Close(tag));
    FindSame(r, Close(tag));
    TextHere(RenderAll(kids), r, Open(tag), Close(tag));
  }

  lemma TextHere(text: string, r: string, open: string, close: string)
    requires IsTag(open) && Find(text + (close + r), close) == Some(|text|)
    ensures AllBetween(open + (text + (close + r)), open, close) == [Trim(text)] + AllBetween(r, open, close)
  {
    hide Find, Trim, IsTag;
    var h := open + (text + (close + r));
    FindSame(text + (close + r), open);
    assert h[|open|..] == text + (close + r);
    assert h[|open|..|open| + |text|] == text;
    assert h[|open| + |text| + |close|..] == r;
  }

  lemma {:induction false} ScalarsInTree(x: Xml, r: string, tag: string)
    requires Good(x) && ElementName(tag) && forall kids :: kids in OuterIn(x, tag) ==> !MentionsAll(kids, tag)
    ensures AllScalars(Render(x) + r, tag) == Trimmed(Written(OuterIn(x, tag))) + AllScalars(r, tag)
    decreases x, 0
  {
    hide Render, RenderAll, Open, Close, Find, AllBetween, IsTag, Balanced, AfterFirst, Trim, ExtractScalar,
         MentionsAll;
    TagsDiffer(tag);
    match x {
      case Text(text) =>
        RenderText(text);
        TextSkipped(text, r, tag);
        SkipKeepsScalars(text, r, Open(tag), Close(tag));
      case Node(name, kids) =>
        Nested(name, kids, r);
        if name == tag {
          assert kids in OuterIn(x, tag);
          ScalarHere(kids, r, tag);
          assert Written([kids]) == [RenderAll(kids)] + Written([]);
        } else {
          var inner := RenderAll(kids) + (Close(name) + r);
          TagsSkipped(name, inner, tag);
          SkipKeepsScalars(Open(name), inner, Open(tag), Close(tag));
          ScalarsInForest(kids, Close(name) + r, tag);
          TagsSkipped(name, r, tag);
          SkipKeepsScalars(Close(name), r, Open(tag), Close(tag));
        }
    }
  }

  lemma {:induction false} OuterSplits(f: seq<Xml>, tag: string)
    requires f != []
    ensures OuterAll(f, tag) == OuterIn(f[0], tag) + OuterAll(f[1..], tag)
    ensures NeverNested(f, tag) ==>
              NeverNested(f[1..], tag) && forall kids :: kids in OuterIn(f[0], tag) ==> !MentionsAll(kids, tag)
  {
    hide MentionsAll;
  }

  lemma {:induction false} ScalarsInForest(f: seq<Xml>, r: string, tag: string)
    requires GoodAll(f) && ElementName(tag) && NeverNested(f, tag)
    ensures AllScalars(RenderAll(f) + r, tag) == Trimmed(Written(OuterAll(f, tag))) + AllScalars(r, tag)
    decreases f, 1
  {
    hide AllScalars, Render, OuterIn, NeverNested, MentionsAll, Trim, ElementName;
    if f == [] {
      assert RenderAll(f) + r == r;
    } else {
      ScalarsInRest(f, r, tag);
    }
  }

  lemma {:induction false} ScalarsInRest(f: seq<Xml>, r: string, tag: string)
    requires GoodAll(f) && ElementName(tag) && NeverNested(f, tag) && f != []
    ensures AllScalars(RenderAll(f) + r, tag) == Trimmed(Written(OuterAll(f, tag))) + AllScalars(r, tag)
    decreases f, 0, 0
  {
    hide AllScalars, Render, RenderAll, OuterAll, OuterIn, NeverNested, MentionsAll, Trimmed, Written, ElementName;
    Next(f, r);
    OuterSplits(f, tag);
    ScalarsInTree(f[0], RenderAll(f[1..]) + r, tag);
    ScalarsInForest(f[1..], r, tag);
    WrittenAppends(OuterIn(f[0], tag), OuterAll(f[1..], tag));
    TrimmedAppends(Written(OuterIn(f[0], tag)), Written(OuterAll(f[1..], tag)));
  }

  /** The content of every such element, trimmed, in document order and at any depth. */
  lemma {:induction false} AllScalarsReadsTree(f: seq<Xml>, tag: string)
    requires GoodAll(f) && ElementName(tag) && NeverNested(f, tag)
    ensures AllScalars(RenderAll(f), tag) == Trimmed(Written(OuterAll(f, tag)))
  {
    ScalarsInForest(f, "", tag);
    assert RenderAll(f) + "" == RenderAll(f);
    assert Find("", Open(tag)) == None;
  }
}
