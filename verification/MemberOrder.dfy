/**
 How Redis orders a sorted set: by score first, and by the member's bytes when
 two scores are equal. `ZPOPMIN` and `ZRANGEBYSCORE` both follow this order.
 */
module MemberOrder {

  type Member = string

  /** Byte order of two members; a proper prefix comes first. */
  predicate LexLess(a: Member, b: Member)
  {
    if b == "" then false
    else if a == "" then true
    else a[0] < b[0] || (a[0] == b[0] && LexLess(a[1..], b[1..]))
  }

  /** Does `s` come before `t` in the sorted set `m`? */
  predicate Before(m: map<Member, int>, s: Member, t: Member)
    requires s in m && t in m
  {
    m[s] < m[t] || (m[s] == m[t] && LexLess(s, t))
  }

  lemma {:induction false} LexTrichotomy(a: Member, b: Member)
    ensures a == b || LexLess(a, b) || LexLess(b, a)
    ensures !(LexLess(a, b) && LexLess(b, a))
    ensures !LexLess(a, a)
  {
    if a != "" && b != "" {
      LexTrichotomy(a[1..], b[1..]);
      assert a == [a[0]] + a[1..] && b == [b[0]] + b[1..];
    }
    if a != "" {
      LexTrichotomy(a[1..], a[1..]);
    }
  }

  lemma {:induction false} LexTransitive(a: Member, b: Member, c: Member)
    requires LexLess(a, b) && LexLess(b, c)
    ensures LexLess(a, c)
  {
    if a != "" {
      if a[0] == b[0] && b[0] == c[0] {
        LexTransitive(a[1..], b[1..], c[1..]);
      }
    }
  }

  /** `Before` is a strict total order on the members of one sorted set. */
  lemma BeforeIsTotal(m: map<Member, int>, s: Member, t: Member)
    requires s in m && t in m
    ensures s == t || Before(m, s, t) || Before(m, t, s)
    ensures !(Before(m, s, t) && Before(m, t, s))
    ensures !Before(m, s, s)
  {
    LexTrichotomy(s, t);
    LexTrichotomy(s, s);
  }

  lemma BeforeTransitive(m: map<Member, int>, s: Member, t: Member, u: Member)
    requires s in m && t in m && u in m
    requires Before(m, s, t) && Before(m, t, u)
    ensures Before(m, s, u)
  {
    if m[s] == m[t] == m[u] {
      LexTransitive(s, t, u);
    }
  }

  ghost predicate IsLeast(m: map<Member, int>, s: Member)
  {
    s in m && forall t :: t in m && t != s ==> Before(m, s, t)
  }

  lemma {:induction false} LeastExists(m: map<Member, int>, keys: set<Member>) returns (s: Member)
    requires keys != {} && keys <= m.Keys
    ensures s in keys
    ensures forall t :: t in keys && t != s ==> Before(m, s, t)
    decreases keys
  {
    var k :| k in keys;
    if keys == {k} {
      s := k;
    } else {
      var r := LeastExists(m, keys - {k});
      BeforeIsTotal(m, k, r);
      s := if Before(m, k, r) then k else r;
      forall t | t in keys && t != s ensures Before(m, s, t) {
        if s == k && t != r {
          BeforeTransitive(m, k, r, t);
        }
      }
    }
  }

  lemma LeastIsUnique(m: map<Member, int>, s: Member, t: Member)
    requires IsLeast(m, s) && IsLeast(m, t)
    ensures s == t
  {
    BeforeIsTotal(m, s, t);
  }

  /** The member `ZPOPMIN` takes from a non-empty sorted set. */
  ghost function Least(m: map<Member, int>): (s: Member)
    requires m != map[]
    ensures IsLeast(m, s)
  {
    assert exists s :: IsLeast(m, s) by {
      assert m.Keys != {} by {
        var k :| k in m;
      }
      var s := LeastExists(m, m.Keys);
      assert IsLeast(m, s);
    }
    var s :| IsLeast(m, s);
    s
  }

  /** All members in the order Redis lists them. */
  ghost function Sorted(m: map<Member, int>): seq<Member>
    decreases |m|
  {
    if m == map[] then [] else
      var s := Least(m);
      [s] + Sorted(m - {s})
  }

  lemma SortedTakesLeast(m: map<Member, int>, s: Member)
    requires IsLeast(m, s)
    ensures Sorted(m) == [s] + Sorted(m - {s})
  {
    LeastIsUnique(m, s, Least(m));
  }

  /** The listing holds exactly the members, each once. */
  lemma {:induction false} SortedLists(m: map<Member, int>)
    ensures forall s :: s in Sorted(m) <==> s in m
    ensures forall i, j :: 0 <= i < j < |Sorted(m)| ==> Sorted(m)[i] != Sorted(m)[j]
    decreases |m|
  {
    if m != map[] {
      SortedLists(m - {Least(m)});
    }
  }

  /** Listing follows the order: earlier members come before later ones. */
  lemma {:induction false} SortedIsOrdered(m: map<Member, int>)
    ensures forall i, j :: 0 <= i < j < |Sorted(m)| ==>
      Sorted(m)[i] in m && Sorted(m)[j] in m && Before(m, Sorted(m)[i], Sorted(m)[j])
    decreases |m|
  {
    if m != map[] {
      var s := Least(m);
      var rest := m - {s};
      SortedIsOrdered(rest);
      SortedLists(rest);
      var ms, tail := Sorted(m), Sorted(rest);
      forall i, j | 0 <= i < j < |ms| ensures ms[i] in m && ms[j] in m && Before(m, ms[i], ms[j]) {
        assert ms[j] == tail[j - 1] && tail[j - 1] in tail;
        if i > 0 {
          assert ms[i] == tail[i - 1] && tail[i - 1] in tail;
          assert Before(rest, tail[i - 1], tail[j - 1]);
        }
      }
    } else {
      assert Sorted(m) == [];
    }
  }
}
