/**
 The substring scanners that stand in for an XML parser: what they return on
 every string, not only on well-formed documents.
 */
module XmlScan {
  import opened Options

  // -- substrings and tags ------------------------------------------------------------

  function Shift(n: nat, r: Option<nat>): Option<nat>
  {
    match r
    case None => None
    case Some(i) => Some(n + i)
  }

  /** `str::find`: where `pat` first occurs in `h`. */
  function Find(h: string, pat: string): (r: Option<nat>)
    ensures r.Some? ==> r.value + |pat| <= |h|
  {
    if pat <= h then Some(0)
    else if h == "" then None
    else Shift(1, Find(h[1..], pat))
  }

  lemma {:induction false} FindFinds(h: string, pat: string)
    ensures var r := Find(h, pat); r.Some? ==> pat <= h[r.value..]
  {
    if pat <= h {
      assert h[0..] == h;
    } else if h != "" {
      FindFinds(h[1..], pat);
      var r := Find(h[1..], pat);
      if r.Some? {
        assert h[1..][r.value..] == h[1 + r.value..];
      }
    }
  }

  /** `Find` returns the first occurrence, and `None` only when there is none. */
  lemma {:induction false} FindIsFirst(h: string, pat: string, i: nat)
    requires i <= |h| && pat <= h[i..]
    ensures Find(h, pat).Some? && Find(h, pat).value <= i
  {
    if i > 0 && !(pat <= h) {
      assert h[1..][i - 1..] == h[i..];
      FindIsFirst(h[1..], pat, i - 1);
    } else if i == 0 {
      assert h[0..] == h;
    }
  }

  function Open(tag: string): string { "<" + tag + ">" }

  function Close(tag: string): string { "</" + tag + ">" }

  /** A tag name that cannot be mistaken for markup. */
  predicate Plain(tag: string)
  {
    forall i :: 0 <= i < |tag| ==> tag[i] != '<' && tag[i] != '>'
  }

  /** Text between tags: `<` starts no tag in it. */
  predicate NoMarkup(s: string)
  {
    forall i :: 0 <= i < |s| ==> s[i] != '<'
  }

  /** A single tag: angle brackets at its two ends and nowhere else. */
  predicate IsTag(p: string)
  {
    |p| >= 2 && p[0] == '<' && p[|p| - 1] == '>' && Plain(p[1..|p| - 1])
  }

  lemma TagsAreTags(tag: string)
    requires Plain(tag)
    ensures IsTag(Open(tag)) && IsTag(Close(tag))
  {
    assert Open(tag)[1..|Open(tag)| - 1] == tag;
    assert Close(tag)[1..|Close(tag)| - 1] == "/" + tag;
  }

  /** One tag is a prefix of another tag followed by anything only if it is that tag. */
  lemma TagPrefix(p: string, q: string, rest: string)
    requires IsTag(p) && IsTag(q)
    ensures p <= q + rest <==> p == q
  {
    if p <= q + rest {
      BracketsAtEnds(p);
      BracketsAtEnds(q);
      var n := if |p| < |q| then |p| else |q|;
      assert p[n - 1] == (q + rest)[n - 1] == q[n - 1];
      assert |p| == |q|;
      assert forall i :: 0 <= i < |p| ==> p[i] == (q + rest)[i];
      assert p == q;
    }
  }

  /** A tag's first character is its only `<` and its last its only `>`. */
  lemma BracketsAtEnds(p: string)
    requires IsTag(p)
    ensures forall i :: 0 <= i < |p| ==> (p[i] == '>' <==> i == |p| - 1)
    ensures forall i :: 0 <= i < |p| ==> (p[i] == '<' <==> i == 0)
  {
    forall i | 0 < i < |p| - 1 ensures p[i] != '>' && p[i] != '<' {
      assert p[i] == p[1..|p| - 1][i - 1];
    }
  }

  // -- extract_balanced ---------------------------------------------------------------------

  /** Where, scanning `h` with `depth` elements open, the close tag lies that ends the outermost one. */
  function CloseAt(h: string, open: string, close: string, depth: nat): (r: Option<nat>)
    requires depth >= 1
    ensures r.Some? ==> r.value + |close| <= |h|
  {
    if h == "" then
      if close == "" && depth == 1 then Some(0) else None
    else if close <= h then
      if depth == 1 then Some(0) else Shift(1, CloseAt(h[1..], open, close, depth - 1))
    else if open <= h then
      Shift(1, CloseAt(h[1..], open, close, depth + 1))
    else
      Shift(1, CloseAt(h[1..], open, close, depth))
  }

  lemma {:induction false} CloseAtFinds(h: string, open: string, close: string, depth: nat)
    requires depth >= 1
    ensures var r := CloseAt(h, open, close, depth); r.Some? ==> close <= h[r.value..]
  {
    if h != "" && !(close <= h && depth == 1) {
      var d := if close <= h then depth - 1 else if open <= h then depth + 1 else depth;
      CloseAtFinds(h[1..], open, close, d);
      var r := CloseAt(h[1..], open, close, d);
      if r.Some? {
        assert h[1..][r.value..] == h[1 + r.value..];
      }
    } else {
      assert h[0..] == h;
    }
  }

  /** What `extract_balanced` returns, for given open and close tags. */
  function BalancedBetween(h: string, open: string, close: string): (r: Option<string>)
    ensures r.Some? ==> Find(h, open).Some? && Find(h, open).value + |open| + |r.value| + |close| <= |h|
  {
    match Find(h, open)
    case None => None
    case Some(i) =>
      var start := i + |open|;
      match CloseAt(h[start..], open, close, 1)
      case None => None
      case Some(c) => Some(h[start..start + c])
  }

  function Balanced(h: string, tag: string): (r: Option<string>)
  {
    BalancedBetween(h, Open(tag), Close(tag))
  }

  /** What is left of `h` behind the element that `extract_balanced` found. */
  function AfterFirst(h: string, tag: string): (rest: string)
    requires Balanced(h, tag).Some?
    ensures |rest| < |h|
  {
    h[Find(h, Open(tag)).value + |Open(tag)| + |Balanced(h, tag).value| + |Close(tag)|..]
  }

  /** `str::trim`: Unicode White_Space at both ends. */
  predicate IsSpace(c: char)
  {
    var n := c as int;
    0x9 <= n <= 0xD || n == 0x20 || n == 0x85 || n == 0xA0 || n == 0x1680 || 0x2000 <= n <= 0x200A ||
    n == 0x2028 || n == 0x2029 || n == 0x202F || n == 0x205F || n == 0x3000
  }

  function TrimStart(s: string): string
  {
    if s != "" && IsSpace(s[0]) then TrimStart(s[1..]) else s
  }

  function TrimEnd(s: string): string
  {
    if s != "" && IsSpace(s[|s| - 1]) then TrimEnd(s[..|s| - 1]) else s
  }

  function Trim(s: string): string { TrimEnd(TrimStart(s)) }

  /** What `extract_scalar` returns, for given open and close tags. */
  function Between(h: string, open: string, close: string): Option<string>
  {
    match Find(h, open)
    case None => None
    case Some(i) =>
      var start := i + |open|;
      match Find(h[start..], close)
      case None => None
      case Some(c) => Some(Trim(h[start..start + c]))
  }

  /** `extract_scalar` */
  function ExtractScalar(h: string, tag: string): Option<string>
  {
    Between(h, Open(tag), Close(tag))
  }

  /** Characters before the first tag change nothing. */
  lemma {:induction false} NothingUntil(h: string, open: string, close: string, depth: nat, n: nat)
    requires depth >= 1 && n <= |h|
    requires forall i :: 0 <= i < n ==> !(open <= h[i..]) && !(close <= h[i..])
    ensures CloseAt(h, open, close, depth) == Shift(n, CloseAt(h[n..], open, close, depth))
  {
    if n == 0 {
      assert h[0..] == h;
    } else {
      assert h[0..] == h;
      forall i | 0 <= i < n - 1 ensures !(open <= h[1..][i..]) && !(close <= h[1..][i..]) {
        assert h[1..][i..] == h[i + 1..];
      }
      NothingUntil(h[1..], open, close, depth, n - 1);
      assert h[1..][n - 1..] == h[n..];
    }
  }

  /** No tag starts inside a tag. */
  lemma NoTagInside(h: string, p: string, q: string, i: nat)
    requires IsTag(p) && IsTag(q) && p <= h && 0 < i < |p|
    ensures !(q <= h[i..])
  {
    assert h[i] == p[i];
    if i < |p| - 1 {
      assert p[i] == p[1..|p| - 1][i - 1];
    }
    assert h[i..][0] == h[i] != q[0];
  }

  lemma CloseAtOpen(h: string, open: string, close: string, depth: nat)
    requires depth >= 1 && h != "" && open <= h && !(close <= h)
    ensures CloseAt(h, open, close, depth) == Shift(1, CloseAt(h[1..], open, close, depth + 1))
  {
  }

  lemma CloseAtClose(h: string, open: string, close: string, depth: nat)
    requires depth >= 1 && h != "" && close <= h
    ensures CloseAt(h, open, close, depth) ==
            if depth == 1 then Some(0) else Shift(1, CloseAt(h[1..], open, close, depth - 1))
  {
  }

  /** An open tag counts one up and is then behind us. */
  lemma PastOpen(h: string, open: string, close: string, depth: nat)
    requires IsTag(open) && IsTag(close) && open != close && depth >= 1 && open <= h
    ensures CloseAt(h, open, close, depth) == Shift(|open|, CloseAt(h[|open|..], open, close, depth + 1))
  {
    hide CloseAt;
    assert h == open + h[|open|..];
    TagPrefix(close, open, h[|open|..]);
    CloseAtOpen(h, open, close, depth);
    PastFirst(h, open, open, close, depth + 1);
  }

  /** A close tag that does not end the outermost element counts one down and is then behind us. */
  lemma PastClose(h: string, open: string, close: string, depth: nat)
    requires IsTag(open) && IsTag(close) && depth >= 2 && close <= h
    ensures CloseAt(h, open, close, depth) == Shift(|close|, CloseAt(h[|close|..], open, close, depth - 1))
  {
    hide CloseAt, Find;
    CloseAtClose(h, open, close, depth);
    PastFirst(h, close, open, close, depth - 1);
  }

  lemma PastFirst(h: string, p: string, open: string, close: string, depth: nat)
    requires depth >= 1 && IsTag(p) && IsTag(open) && IsTag(close) && p <= h
    ensures CloseAt(h[1..], open, close, depth) == Shift(|p| - 1, CloseAt(h[|p|..], open, close, depth))
  {
    forall i | 0 <= i < |p| - 1 ensures !(open <= h[1..][i..]) && !(close <= h[1..][i..]) {
      NoTagInside(h, p, open, i + 1);
      NoTagInside(h, p, close, i + 1);
      assert h[1..][i..] == h[i + 1..];
    }
    NothingUntil(h[1..], open, close, depth, |p| - 1);
    assert h[1..][|p| - 1..] == h[|p|..];
  }

  /** No tag lies between `pos` and `i`. */
  ghost predicate Quiet(h: string, open: string, close: string, pos: nat, i: nat)
    requires i <= |h|
  {
    forall j :: pos <= j < i ==> !(open <= h[j..]) && !(close <= h[j..])
  }

  lemma FoundBefore(h: string, pat: string, pos: nat, j: nat)
    requires pos <= j <= |h| && (Find(h[pos..], pat).Some? ==> j < pos + Find(h[pos..], pat).value)
    ensures !(pat <= h[j..])
  {
    assert h[pos..][j - pos..] == h[j..];
    if pat <= h[j..] {
      FindIsFirst(h[pos..], pat, j - pos);
    }
  }

  lemma QuietUntil(h: string, open: string, close: string, pos: nat, i: nat)
    requires pos <= i <= |h|
    requires Find(h[pos..], open).Some? ==> i <= pos + Find(h[pos..], open).value
    requires Find(h[pos..], close).Some? ==> i <= pos + Find(h[pos..], close).value
    ensures Quiet(h, open, close, pos, i)
  {
    forall j | pos <= j < i ensures !(open <= h[j..]) && !(close <= h[j..]) {
      FoundBefore(h, open, pos, j);
      FoundBefore(h, close, pos, j);
    }
  }

  lemma FoundAt(h: string, pat: string, pos: nat)
    requires pos <= |h| && Find(h[pos..], pat).Some?
    ensures var i := pos + Find(h[pos..], pat).value;
            i + |pat| <= |h| && pat <= h[i..]
  {
    FindFinds(h[pos..], pat);
    assert h[pos..][Find(h[pos..], pat).value..] == h[pos + Find(h[pos..], pat).value..];
  }

  lemma NothingFrom(h: string, open: string, close: string, depth: nat, pos: nat, i: nat)
    requires depth >= 1 && pos <= i <= |h|
    requires Quiet(h, open, close, pos, i)
    ensures CloseAt(h[pos..], open, close, depth) == Shift(i - pos, CloseAt(h[i..], open, close, depth))
  {
    forall j | 0 <= j < i - pos ensures !(open <= h[pos..][j..]) && !(close <= h[pos..][j..]) {
      assert h[pos..][j..] == h[pos + j..];
    }
    NothingUntil(h[pos..], open, close, depth, i - pos);
    assert h[pos..][i - pos..] == h[i..];
  }

  lemma JumpToOpen(h: string, open: string, close: string, depth: nat, pos: nat, o: nat)
    requires IsTag(open) && IsTag(close) && open != close && depth >= 1
    requires pos <= o <= |h| && Quiet(h, open, close, pos, o) && open <= h[o..]
    ensures o + |open| <= |h|
    ensures CloseAt(h[pos..], open, close, depth) ==
            Shift(o + |open| - pos, CloseAt(h[o + |open|..], open, close, depth + 1))
  {
    hide CloseAt, Find;
    NothingFrom(h, open, close, depth, pos, o);
    PastOpen(h[o..], open, close, depth);
    assert h[o..][|open|..] == h[o + |open|..];
  }

  lemma JumpToClose(h: string, open: string, close: string, depth: nat, pos: nat, c: nat)
    requires IsTag(open) && IsTag(close) && depth >= 1
    requires pos <= c <= |h| && Quiet(h, open, close, pos, c) && close <= h[c..]
    ensures c + |close| <= |h|
    ensures CloseAt(h[pos..], open, close, depth) ==
            if depth == 1 then Some(c - pos)
            else Shift(c + |close| - pos, CloseAt(h[c + |close|..], open, close, depth - 1))
  {
    hide CloseAt, Find;
    NothingFrom(h, open, close, depth, pos, c);
    if depth == 1 {
      CloseAtClose(h[c..], open, close, depth);
    } else {
      PastClose(h[c..], open, close, depth);
      assert h[c..][|close|..] == h[c + |close|..];
    }
  }

  lemma NoCloseLeft(h: string, open: string, close: string, depth: nat, pos: nat)
    requires depth >= 1 && pos <= |h| && Find(h[pos..], close) == None
    ensures CloseAt(h[pos..], open, close, depth) == None
  {
    var r := CloseAt(h[pos..], open, close, depth);
    if r.Some? {
      CloseAtFinds(h[pos..], open, close, depth);
      FindIsFirst(h[pos..], close, r.value);
    }
  }

  /** From `pos`, the answer is still `answer`, counted from `start`. */
  ghost predicate OnTrack(h: string, open: string, close: string, depth: nat, start: nat, pos: nat, answer: Option<nat>)
    requires depth >= 1 && start <= pos <= |h|
  {
    answer == Shift(pos - start, CloseAt(h[pos..], open, close, depth))
  }

  lemma TrackOpen(h: string, open: string, close: string, depth: nat, start: nat, pos: nat, answer: Option<nat>)
    requires IsTag(open) && IsTag(close) && open != close && depth >= 1 && start <= pos <= |h|
    requires OnTrack(h, open, close, depth, start, pos, answer)
    requires Find(h[pos..], open).Some?
    requires Find(h[pos..], close).Some? ==> Find(h[pos..], open).value < Find(h[pos..], close).value
    ensures OnTrack(h, open, close, depth + 1, start, pos + Find(h[pos..], open).value + |open|, answer)
  {
    hide CloseAt, Find, IsTag, Quiet;
    var o := pos + Find(h[pos..], open).value;
    FoundAt(h, open, pos);
    QuietUntil(h, open, close, pos, o);
    JumpToOpen(h, open, close, depth, pos, o);
  }

  lemma TrackClose(h: string, open: string, close: string, depth: nat, start: nat, pos: nat, answer: Option<nat>)
    requires IsTag(open) && IsTag(close) && depth >= 1 && start <= pos <= |h|
    requires OnTrack(h, open, close, depth, start, pos, answer)
    requires Find(h[pos..], close).Some?
    requires Find(h[pos..], open).Some? ==> Find(h[pos..], close).value <= Find(h[pos..], open).value
    ensures var c := pos + Find(h[pos..], close).value;
            if depth == 1 then answer == Some(c - start)
            else OnTrack(h, open, close, depth - 1, start, c + |close|, answer)
  {
    hide CloseAt, Find, IsTag, Quiet;
    var c := pos + Find(h[pos..], close).value;
    FoundAt(h, close, pos);
    QuietUntil(h, open, close, pos, c);
    JumpToClose(h, open, close, depth, pos, c);
  }

  lemma TagsDiffer(tag: string)
    ensures Open(tag) != Close(tag)
    ensures Plain(tag) ==> IsTag(Open(tag)) && IsTag(Close(tag))
  {
    assert |Open(tag)| != |Close(tag)|;
    if Plain(tag) {
      TagsAreTags(tag);
    }
  }

  /** The loop of `extract_balanced`: jump from tag to tag, keeping the depth. */
  method ScanToClose(h: string, open: string, close: string, start: nat) returns (end: Option<nat>)
    requires start <= |h| && |open| > 0 && |close| > 0
    ensures end.Some? ==> start <= end.value <= |h|
    ensures IsTag(open) && IsTag(close) && open != close ==>
      end == Shift(start, CloseAt(h[start..], open, close, 1))
  {
    hide CloseAt, Find;
    ghost var tags := IsTag(open) && IsTag(close) && open != close;
    ghost var answer := CloseAt(h[start..], open, close, 1);
    var depth := 1;
    var pos := start;
    while true
      invariant start <= pos <= |h| && depth >= 1
      invariant tags ==> OnTrack(h, open, close, depth, start, pos, answer)
      decreases |h| - pos
    {
      var nextOpen := Find(h[pos..], open);
      var nextClose := Find(h[pos..], close);
      if nextOpen.Some? && nextClose.Some? && nextOpen.value < nextClose.value {
        if tags {
          TrackOpen(h, open, close, depth, start, pos, answer);
        }
        depth := depth + 1;
        pos := pos + nextOpen.value + |open|;
      } else if nextClose.Some? {
        if tags {
          TrackClose(h, open, close, depth, start, pos, answer);
        }
        depth := depth - 1;
        if depth == 0 {
          return Some(pos + nextClose.value);
        }
        pos := pos + nextClose.value + |close|;
      } else {
        if tags {
          NoCloseLeft(h, open, close, depth, pos);
        }
        return None;
      }
    }
  }

  method ExtractBalanced(haystack: string, tag: string) returns (r: Option<string>)
    ensures Plain(tag) ==> r == Balanced(haystack, tag)
  {
    hide CloseAt, Find;
    var open, close := Open(tag), Close(tag);
    TagsDiffer(tag);
    var first := Find(haystack, open);
    if first.None? {
      return None;
    }
    var start := first.value + |open|;
    var end := ScanToClose(haystack, open, close, start);
    if end.None? {
      return None;
    }
    r := Some(haystack[start..end.value]);
  }

  /** What is left behind the first element, whose content is `inner`. */
  method Behind(h: string, tag: string, inner: string) returns (rest: string)
    requires Balanced(h, tag) == Some(inner)
    ensures rest == AfterFirst(h, tag)
  {
    var start := Find(h, Open(tag)).value + |Open(tag)|;
    rest := h[start + |inner| + |Close(tag)|..];
  }

  // -- trim ------------------------------------------------------------------------------

  predicate AllSpace(s: string)
  {
    forall i :: 0 <= i < |s| ==> IsSpace(s[i])
  }

  /** The code points of the Unicode property White_Space. */
  lemma SpacesAre(c: char)
    ensures IsSpace(c) <==> c as int in {
      0x9, 0xA, 0xB, 0xC, 0xD, 0x20, 0x85, 0xA0, 0x1680, 0x2000, 0x2001, 0x2002, 0x2003, 0x2004, 0x2005, 0x2006,
      0x2007, 0x2008, 0x2009, 0x200A, 0x2028, 0x2029, 0x202F, 0x205F, 0x3000}
  {
  }

  lemma {:induction false} TrimStartCuts(s: string) returns (a: string)
    ensures s == a + TrimStart(s) && AllSpace(a) && (TrimStart(s) != "" ==> !IsSpace(TrimStart(s)[0]))
  {
    if s != "" && IsSpace(s[0]) {
      a := TrimStartCuts(s[1..]);
      a := [s[0]] + a;
      assert s == [s[0]] + s[1..];
    } else {
      a := "";
    }
  }

  lemma {:induction false} TrimEndCuts(s: string) returns (b: string)
    ensures s == TrimEnd(s) + b && AllSpace(b)
    ensures TrimEnd(s) != "" ==> !IsSpace(TrimEnd(s)[|TrimEnd(s)| - 1]) && TrimEnd(s)[0] == s[0]
  {
    if s != "" && IsSpace(s[|s| - 1]) {
      b := TrimEndCuts(s[..|s| - 1]);
      b := b + [s[|s| - 1]];
      assert s == s[..|s| - 1] + [s[|s| - 1]];
    } else {
      b := "";
    }
  }

  /** Trimming takes white space off both ends, and leaves none there. */
  lemma TrimCuts(s: string) returns (a: string, b: string)
    ensures s == a + Trim(s) + b && AllSpace(a) && AllSpace(b)
    ensures Trim(s) != "" ==> !IsSpace(Trim(s)[0]) && !IsSpace(Trim(s)[|Trim(s)| - 1])
  {
    a := TrimStartCuts(s);
    b := TrimEndCuts(TrimStart(s));
    assert a + (Trim(s) + b) == a + Trim(s) + b;
  }
}
