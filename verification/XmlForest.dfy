/**
 XML documents as trees, how they are written down, and how the substring
 scanners find their way through what is written.
 */
module XmlForest {
  import opened Options
  import opened XmlScan

  datatype Xml = Text(text: string) | Node(tag: string, kids: seq<Xml>)

  function Render(x: Xml): string
  {
    match x
    case Text(text) => text
    case Node(tag, kids) => Open(tag) + RenderAll(kids) + Close(tag)
  }

  function RenderAll(f: seq<Xml>): string
  {
    if f == [] then "" else Render(f[0]) + RenderAll(f[1..])
  }

  /** An element name: no angle brackets, and no slash in front. */
  predicate ElementName(tag: string)
  {
    Plain(tag) && (tag == "" || tag[0] != '/')
  }

  /** Element names are proper names and text holds no `<`. */
  predicate Good(x: Xml)
  {
    match x
    case Text(text) => NoMarkup(text)
    case Node(tag, kids) => ElementName(tag) && GoodAll(kids)
  }

  predicate GoodAll(f: seq<Xml>)
  {
    f == [] || (Good(f[0]) && GoodAll(f[1..]))
  }

  /** Does an element named `tag` occur anywhere in it? */
  predicate Mentions(x: Xml, tag: string)
  {
    match x
    case Text(_) => false
    case Node(name, kids) => name == tag || MentionsAll(kids, tag)
  }

  predicate MentionsAll(f: seq<Xml>, tag: string)
  {
    f != [] && (Mentions(f[0], tag) || MentionsAll(f[1..], tag))
  }

  // -- tags of different elements are different ------------------------------------------

  lemma SameTag(a: string, b: string)
    requires Plain(a) && Plain(b)
    ensures Open(a) == Open(b) <==> a == b
    ensures Close(a) == Close(b) <==> a == b
    ensures Open(a) == Close(b) <==> a == "/" + b
  {
    assert Open(a)[1..|Open(a)| - 1] == a && Open(b)[1..|Open(b)| - 1] == b;
    assert Close(a)[2..|Close(a)| - 1] == a && Close(b)[2..|Close(b)| - 1] == b;
    assert Close(b)[1..|Close(b)| - 1] == "/" + b;
  }

  // -- Find over what is written -------------------------------------------------------------

  lemma {:induction false} FindText(s: string, r: string, pat: string)
    requires NoMarkup(s) && IsTag(pat)
    ensures Find(s + r, pat) == Shift(|s|, Find(r, pat))
  {
    if s == "" {
      assert s + r == r;
    } else {
      assert (s + r)[0] == s[0] != pat[0];
      assert (s + r)[1..] == s[1..] + r;
      FindText(s[1..], r, pat);
    }
  }

  lemma FindSame(r: string, pat: string)
    ensures Find(pat + r, pat) == Some(0)
  {
  }

  lemma FindOther(q: string, r: string, pat: string)
    requires IsTag(q) && IsTag(pat) && q != pat
    ensures Find(q + r, pat) == Shift(|q|, Find(r, pat))
  {
    TagPrefix(pat, q, r);
    BracketsAtEnds(q);
    assert (q + r)[1..] == q[1..] + r;
    FindText(q[1..], r, pat);
    assert Find(q + r, pat) == Shift(1, Find((q + r)[1..], pat));
  }

  /** Neither tag of an element is found in a tree without that element. */
  lemma {:induction false} FindPastTree(x: Xml, r: string, tag: string, pat: string)
    requires Good(x) && ElementName(tag) && !Mentions(x, tag) && (pat == Open(tag) || pat == Close(tag))
    ensures Find(Render(x) + r, pat) == Shift(|Render(x)|, Find(r, pat))
    decreases x, 0
  {
    hide Find;
    TagsDiffer(tag);
    match x {
      case Text(text) => FindText(text, r, pat);
      case Node(name, kids) =>
        var inner, tail := RenderAll(kids), Close(name) + r;
        assert Render(x) + r == Open(name) + (inner + tail);
        FindPastForest(kids, tail, tag, pat);
        TagsDiffer(name);
        DistinctTags(tag, name);
        FindPastElement(Open(name), inner, Close(name), r, pat);
    }
  }

  lemma FindPastElement(o: string, inner: string, c: string, r: string, pat: string)
    requires IsTag(o) && IsTag(c) && IsTag(pat) && o != pat && c != pat
    requires Find(inner + (c + r), pat) == Shift(|inner|, Find(c + r, pat))
    ensures Find(o + (inner + (c + r)), pat) == Shift(|o| + |inner| + |c|, Find(r, pat))
  {
    hide Find, IsTag;
    FindOther(o, inner + (c + r), pat);
    FindOther(c, r, pat);
  }

  lemma {:induction false} FindPastForest(f: seq<Xml>, r: string, tag: string, pat: string)
    requires GoodAll(f) && ElementName(tag) && !MentionsAll(f, tag) && (pat == Open(tag) || pat == Close(tag))
    ensures Find(RenderAll(f) + r, pat) == Shift(|RenderAll(f)|, Find(r, pat))
    decreases f, 1
  {
    hide Find, Render, Open, Close, ElementName;
    if f == [] {
      assert RenderAll(f) + r == r;
    } else {
      var first, rest := Render(f[0]), RenderAll(f[1..]);
      assert RenderAll(f) + r == first + (rest + r);
      FindPastTree(f[0], rest + r, tag, pat);
      FindPastForest(f[1..], r, tag, pat);
    }
  }

  // -- CloseAt over what is written --------------------------------------------------------------

  lemma CloseText(s: string, r: string, open: string, close: string, depth: nat)
    requires NoMarkup(s) && IsTag(open) && IsTag(close) && depth >= 1
    ensures CloseAt(s + r, open, close, depth) == Shift(|s|, CloseAt(r, open, close, depth))
  {
    var h := s + r;
    forall i | 0 <= i < |s| ensures !(open <= h[i..]) && !(close <= h[i..]) {
      assert h[i..][0] == s[i];
    }
    NothingUntil(h, open, close, depth, |s|);
    assert h[|s|..] == r;
  }

  lemma CloseOther(q: string, r: string, open: string, close: string, depth: nat)
    requires IsTag(q) && IsTag(open) && IsTag(close) && q != open && q != close && depth >= 1
    ensures CloseAt(q + r, open, close, depth) == Shift(|q|, CloseAt(r, open, close, depth))
  {
    TagPrefix(open, q, r);
    TagPrefix(close, q, r);
    BracketsAtEnds(q);
    assert (q + r)[1..] == q[1..] + r;
    CloseText(q[1..], r, open, close, depth);
    assert CloseAt(q + r, open, close, depth) == Shift(1, CloseAt((q + r)[1..], open, close, depth));
  }

  lemma CloseSame(r: string, open: string, close: string, depth: nat)
    requires IsTag(open) && IsTag(close) && open != close && depth >= 1
    ensures CloseAt(open + r, open, close, depth) == Shift(|open|, CloseAt(r, open, close, depth + 1))
    ensures CloseAt(close + r, open, close, depth) ==
            if depth == 1 then Some(0) else Shift(|close|, CloseAt(r, open, close, depth - 1))
  {
    hide CloseAt;
    PastOpen(open + r, open, close, depth);
    assert (open + r)[|open|..] == r && (close + r)[|close|..] == r;
    if depth == 1 {
      CloseAtClose(close + r, open, close, depth);
    } else {
      PastClose(close + r, open, close, depth);
    }
  }

  /** A tree has all its elements closed: it does not change the depth, whichever element is counted. */
  lemma {:induction false} CloseAtPastTree(x: Xml, r: string, tag: string, depth: nat)
    requires Good(x) && ElementName(tag) && depth >= 1
    ensures CloseAt(Render(x) + r, Open(tag), Close(tag), depth)
         == Shift(|Render(x)|, CloseAt(r, Open(tag), Close(tag), depth))
    decreases x, 0
  {
    hide CloseAt;
    TagsDiffer(tag);
    match x {
      case Text(text) => CloseText(text, r, Open(tag), Close(tag), depth);
      case Node(name, kids) =>
        var inner, tail := RenderAll(kids), Close(name) + r;
        assert Render(x) + r == Open(name) + (inner + tail);
        if name == tag {
          CloseAtPastForest(kids, tail, tag, depth + 1);
          CloseAtPastSame(inner, r, Open(tag), Close(tag), depth);
        } else {
          CloseAtPastForest(kids, tail, tag, depth);
          TagsDiffer(name);
          DistinctTags(tag, name);
          CloseAtPastOther(Open(name), inner, Close(name), r, Open(tag), Close(tag), depth);
        }
    }
  }

  /** The same for one element, given that its content does not change the depth. */
  lemma CloseAtPastOther(o: string, inner: string, c: string, r: string, open: string, close: string, depth: nat)
    requires IsTag(o) && IsTag(c) && IsTag(open) && IsTag(close) && depth >= 1
    requires o != open && o != close && c != open && c != close
    requires CloseAt(inner + (c + r), open, close, depth) == Shift(|inner|, CloseAt(c + r, open, close, depth))
    ensures CloseAt(o + (inner + (c + r)), open, close, depth)
         == Shift(|o| + |inner| + |c|, CloseAt(r, open, close, depth))
  {
    hide CloseAt, IsTag;
    CloseOther(o, inner + (c + r), open, close, depth);
    CloseOther(c, r, open, close, depth);
  }

  lemma CloseAtPastSame(inner: string, r: string, open: string, close: string, depth: nat)
    requires IsTag(open) && IsTag(close) && open != close && depth >= 1
    requires CloseAt(inner + (close + r), open, close, depth + 1)
          == Shift(|inner|, CloseAt(close + r, open, close, depth + 1))
    ensures CloseAt(open + (inner + (close + r)), open, close, depth)
         == Shift(|open| + |inner| + |close|, CloseAt(r, open, close, depth))
  {
    hide CloseAt, IsTag;
    CloseSame(inner + (close + r), open, close, depth);
    CloseSame(r, open, close, depth + 1);
  }

  lemma DistinctTags(tag: string, name: string)
    requires ElementName(tag) && ElementName(name) && tag != name
    ensures Open(name) != Open(tag) && Open(name) != Close(tag) && Close(name) != Open(tag) && Close(name) != Close(tag)
  {
    SameTag(tag, name);
    SameTag(name, tag);
    assert ("/" + name)[0] == '/' && ("/" + tag)[0] == '/';
  }

  lemma {:induction false} CloseAtPastForest(f: seq<Xml>, r: string, tag: string, depth: nat)
    requires GoodAll(f) && ElementName(tag) && depth >= 1
    ensures CloseAt(RenderAll(f) + r, Open(tag), Close(tag), depth)
         == Shift(|RenderAll(f)|, CloseAt(r, Open(tag), Close(tag), depth))
    decreases f, 1
  {
    if f == [] {
      assert RenderAll(f) + r == r;
    } else {
      var first, rest := Render(f[0]), RenderAll(f[1..]);
      assert RenderAll(f) == first + rest;
      assert RenderAll(f) + r == first + (rest + r);
      hide CloseAt, Render, RenderAll;
      CloseAtPastTree(f[0], rest + r, tag, depth);
      CloseAtPastForest(f[1..], r, tag, depth);
    }
  }
}
