/**
 What `extract_balanced` means on an arbitrary string: it is a first return to
 zero. Counting open tags up and close tags down from the first open tag, it
 stops at the first close tag that outweighs all opens.
 */
module XmlBalance {
  import opened Options
  import opened XmlScan

  /** How often `pat` starts at one of the first `n` positions of `h`. */
  function Count(h: string, pat: string, n: nat): (c: nat)
    ensures c <= n
  {
    if n == 0 || h == "" then 0 else (if pat <= h then 1 else 0) + Count(h[1..], pat, n - 1)
  }

  /** A close tag at `c` that makes the closes exceed the opens by `depth`. */
  predicate Returns(h: string, open: string, close: string, depth: nat, c: nat)
  {
    c <= |h| && close <= h[c..] && Count(h, close, c + 1) == Count(h, open, c) + depth
  }

  /** Every close tag before position `n` leaves the closes short of exceeding the opens by `depth`. */
  ghost predicate ShortBefore(h: string, open: string, close: string, depth: nat, n: nat)
  {
    forall c :: 0 <= c < n && c <= |h| && close <= h[c..] ==> Count(h, close, c + 1) < Count(h, open, c) + depth
  }

  lemma CountFirst(h: string, pat: string, n: nat)
    requires n > 0 && h != ""
    ensures Count(h, pat, n) == (if pat <= h then 1 else 0) + Count(h[1..], pat, n - 1)
  {
  }

  lemma ShortFirst(h: string, open: string, close: string, depth: nat, n: nat)
    requires IsTag(open) && IsTag(close) && open != close && h != "" && depth >= 1
    requires !(close <= h && depth == 1)
    requires ShortBefore(h[1..], open, close, NextDepth(h, open, close, depth), n)
    ensures ShortBefore(h, open, close, depth, n + 1)
  {
    NotBoth(h, open, close);
    forall c | 0 <= c < n + 1 && c <= |h| && close <= h[c..]
      ensures Count(h, close, c + 1) < Count(h, open, c) + depth
    {
      CountFirst(h, close, c + 1);
      if c == 0 {
        assert h[0..] == h;
      } else {
        CountFirst(h, open, c);
        assert h[1..][c - 1..] == h[c..];
      }
    }
  }

  function NextDepth(h: string, open: string, close: string, depth: nat): nat
    requires depth >= 1
  {
    if close <= h then depth - 1 else if open <= h then depth + 1 else depth
  }

  lemma NotBoth(h: string, open: string, close: string)
    requires IsTag(open) && IsTag(close) && open != close
    ensures !(open <= h && close <= h)
  {
    if open <= h {
      assert h == open + h[|open|..];
      TagPrefix(close, open, h[|open|..]);
    }
  }

  /** `CloseAt` is the first return; it is `None` exactly when there is no return at all. */
  lemma {:induction false} CloseAtIsFirstReturn(h: string, open: string, close: string, depth: nat)
    requires IsTag(open) && IsTag(close) && open != close && depth >= 1
    ensures match CloseAt(h, open, close, depth)
            case Some(c) => Returns(h, open, close, depth, c) && ShortBefore(h, open, close, depth, c)
            case None => ShortBefore(h, open, close, depth, |h| + 1)
  {
    if h == "" {
    } else if close <= h && depth == 1 {
      assert h[0..] == h;
      CountFirst(h, close, 1);
    } else {
      CloseAtIsFirstReturn(h[1..], open, close, NextDepth(h, open, close, depth));
      FirstReturnStep(h, open, close, depth);
    }
  }

  lemma FirstReturnStep(h: string, open: string, close: string, depth: nat)
    requires IsTag(open) && IsTag(close) && open != close && depth >= 1 && h != "" && !(close <= h && depth == 1)
    requires var d := NextDepth(h, open, close, depth);
             match CloseAt(h[1..], open, close, d)
             case Some(c) => Returns(h[1..], open, close, d, c) && ShortBefore(h[1..], open, close, d, c)
             case None => ShortBefore(h[1..], open, close, d, |h|)
    ensures match CloseAt(h, open, close, depth)
            case Some(c) => Returns(h, open, close, depth, c) && ShortBefore(h, open, close, depth, c)
            case None => ShortBefore(h, open, close, depth, |h| + 1)
  {
    hide CloseAt, IsTag, ShortBefore, Count;
    var r := CloseAt(h[1..], open, close, NextDepth(h, open, close, depth));
    NotBoth(h, open, close);
    CloseAtNext(h, open, close, depth);
    match r {
      case Some(c) =>
        ShortFirst(h, open, close, depth, c);
        CountFirst(h, close, c + 2);
        CountFirst(h, open, c + 1);
        assert h[1..][c..] == h[c + 1..];
      case None =>
        ShortFirst(h, open, close, depth, |h|);
    }
  }

  lemma CloseAtNext(h: string, open: string, close: string, depth: nat)
    requires depth >= 1 && h != "" && !(close <= h && depth == 1)
    ensures CloseAt(h, open, close, depth) == Shift(1, CloseAt(h[1..], open, close, NextDepth(h, open, close, depth)))
  {
  }

  /**
   The result of `extract_balanced` for every string: the text from behind the
   first open tag up to the first close tag at which the closes since then exceed
   the opens by one, and `None` exactly when there is no open tag or no such close.
   */
  lemma BalancedIsFirstReturn(h: string, tag: string)
    requires Plain(tag)
    ensures var open, close := Open(tag), Close(tag);
            match Find(h, open)
            case None => Balanced(h, tag) == None && forall i :: 0 <= i <= |h| ==> !(open <= h[i..])
            case Some(i) =>
              var body := h[i + |open|..];
              && open <= h[i..] && (forall j :: 0 <= j < i ==> !(open <= h[j..]))
              && match Balanced(h, tag)
                 case Some(text) =>
                   && text <= body
                   && Returns(body, open, close, 1, |text|)
                   && (forall c :: 0 <= c < |text| ==> !Returns(body, open, close, 1, c))
                 case None => forall c :: 0 <= c <= |body| ==> !Returns(body, open, close, 1, c)
  {
    var open, close := Open(tag), Close(tag);
    TagsDiffer(tag);
    FirstOccurrence(h, open);
    if Find(h, open).Some? {
      BetweenIsFirstReturn(h, open, close);
    }
  }

  lemma BetweenIsFirstReturn(h: string, open: string, close: string)
    requires IsTag(open) && IsTag(close) && open != close && Find(h, open).Some?
    ensures var body := h[Find(h, open).value + |open|..];
            match BalancedBetween(h, open, close)
            case Some(text) =>
              && text <= body
              && Returns(body, open, close, 1, |text|)
              && (forall c :: 0 <= c < |text| ==> !Returns(body, open, close, 1, c))
            case None => forall c :: 0 <= c <= |body| ==> !Returns(body, open, close, 1, c)
  {
    hide CloseAt, Find, Count, IsTag;
    var start := Find(h, open).value + |open|;
    var body := h[start..];
    CloseAtIsFirstReturn(body, open, close, 1);
    match CloseAt(body, open, close, 1) {
      case None =>
        ShortIsNoReturn(body, open, close, |body| + 1);
      case Some(c) =>
        ShortIsNoReturn(body, open, close, c);
        assert h[start..start + c] == body[..c];
    }
  }

  lemma ShortIsNoReturn(h: string, open: string, close: string, n: nat)
    requires n <= |h| + 1 && ShortBefore(h, open, close, 1, n)
    ensures forall c :: 0 <= c < n ==> !Returns(h, open, close, 1, c)
  {
    hide Count;
  }

  lemma FirstOccurrence(h: string, pat: string)
    ensures match Find(h, pat)
            case None => forall i :: 0 <= i <= |h| ==> !(pat <= h[i..])
            case Some(i) => pat <= h[i..] && forall j :: 0 <= j < i ==> !(pat <= h[j..])
  {
    FindFinds(h, pat);
    forall i | 0 <= i <= |h| && pat <= h[i..] ensures Find(h, pat).Some? && Find(h, pat).value <= i {
      FindIsFirst(h, pat, i);
    }
  }

  // -- the result is balanced in itself ------------------------------------------------------

  /** Cutting a string off in front of a tag neither makes nor breaks a tag before the cut. */
  lemma CutKeepsTags(text: string, rest: string, p: string, i: nat)
    requires IsTag(p) && i < |text| && rest != "" && rest[0] == '<'
    ensures p <= (text + rest)[i..] <==> p <= text[i..]
  {
    var here := (text + rest)[i..];
    var k := |text| - i;
    assert here == text[i..] + rest && here[k] == '<';
    BracketsAtEnds(p);
    if p <= here {
      assert forall j :: 0 <= j < |p| ==> p[j] == here[j];
      assert |p| <= k;
      assert p == text[i..][..|p|];
    }
  }

  lemma {:induction false} CutKeepsCount(text: string, rest: string, p: string, n: nat)
    requires IsTag(p) && n <= |text| && rest != "" && rest[0] == '<'
    ensures Count(text + rest, p, n) == Count(text, p, n)
  {
    if n > 0 {
      CutKeepsTags(text, rest, p, 0);
      assert (text + rest)[0..] == text + rest && text[0..] == text;
      assert (text + rest)[1..] == text[1..] + rest;
      CutKeepsCount(text[1..], rest, p, n - 1);
    }
  }

  lemma {:induction false} CountGrows(h: string, pat: string, n: nat)
    requires n < |h|
    ensures Count(h, pat, n + 1) == Count(h, pat, n) + if pat <= h[n..] then 1 else 0
  {
    CountFirst(h, pat, n + 1);
    if n > 0 {
      CountFirst(h, pat, n);
      CountGrows(h[1..], pat, n - 1);
      assert h[1..][n - 1..] == h[n..];
    } else {
      assert h[0..] == h;
    }
  }

  lemma {:induction false} NeverNegative(h: string, open: string, close: string, c: nat, n: nat)
    requires n <= c <= |h| && ShortBefore(h, open, close, 1, c)
    ensures Count(h, close, n) <= Count(h, open, n)
  {
    if n > 0 {
      NeverNegative(h, open, close, c, n - 1);
      CountGrows(h, close, n - 1);
      CountGrows(h, open, n - 1);
    }
  }

  lemma BalancedParts(h: string, tag: string) returns (body: string)
    requires Plain(tag) && Balanced(h, tag).Some?
    ensures var text := Balanced(h, tag).value;
            var c := |text|;
            && c < |body| && text == body[..c] && body[c] == '<' && Close(tag) <= body[c..]
            && Returns(body, Open(tag), Close(tag), 1, c) && ShortBefore(body, Open(tag), Close(tag), 1, c)
  {
    hide CloseAt, Find, Count, Balanced, Open, Close, IsTag;
    var open, close := Open(tag), Close(tag);
    TagsDiffer(tag);
    CloseStartsTag(tag);
    body := BalancedBody(h, tag);
    CloseAtIsFirstReturn(body, open, close, 1);
    var c := |Balanced(h, tag).value|;
    assert body[c..][0] == '<' == body[c];
  }

  lemma CloseStartsTag(tag: string)
    ensures Close(tag) != "" && Close(tag)[0] == '<'
  {
  }

  lemma BalancedBody(h: string, tag: string) returns (body: string)
    requires Balanced(h, tag).Some?
    ensures var text := Balanced(h, tag).value;
            |text| < |body| && text == body[..|text|] && CloseAt(body, Open(tag), Close(tag), 1) == Some(|text|)
  {
    hide CloseAt, Find, Open, Close;
    CloseStartsTag(tag);
    var start := Find(h, Open(tag)).value + |Open(tag)|;
    body := h[start..];
    var c := CloseAt(body, Open(tag), Close(tag), 1).value;
    assert h[start..start + c] == body[..c];
  }

  /** The extracted text holds as many open as close tags, and no prefix of it has more closes than opens. */
  lemma ResultIsBalanced(h: string, tag: string, n: nat)
    requires Plain(tag) && Balanced(h, tag).Some? && n <= |Balanced(h, tag).value|
    ensures var text := Balanced(h, tag).value;
            && Count(text, Open(tag), |text|) == Count(text, Close(tag), |text|)
            && Count(text, Close(tag), n) <= Count(text, Open(tag), n)
  {
    var body := BalancedParts(h, tag);
    var text := Balanced(h, tag).value;
    TagsDiffer(tag);
    hide Count, Balanced;
    assert body == text + body[|text|..];
    TextIsBalanced(text, body[|text|..], Open(tag), Close(tag), n);
  }

  lemma TextIsBalanced(text: string, rest: string, open: string, close: string, n: nat)
    requires IsTag(open) && IsTag(close) && n <= |text| && rest != "" && rest[0] == '<' && close <= rest
    requires Returns(text + rest, open, close, 1, |text|) && ShortBefore(text + rest, open, close, 1, |text|)
    ensures Count(text, open, |text|) == Count(text, close, |text|)
    ensures Count(text, close, n) <= Count(text, open, n)
  {
    hide Count;
    CutKeepsCount(text, rest, open, |text|);
    CutKeepsCount(text, rest, close, |text|);
    CutKeepsCount(text, rest, open, n);
    CutKeepsCount(text, rest, close, n);
    CountGrows(text + rest, close, |text|);
    NeverNegative(text + rest, open, close, |text|, n);
  }
}
