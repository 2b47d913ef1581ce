/** `sort_by_key`: stable, by an integer key. */
module Sorting {
  predicate Sorted<T>(s: seq<T>, key: T -> int)
  {
    forall i, j :: 0 <= i < j < |s| ==> key(s[i]) <= key(s[j])
  }

  /** `x` in front of everything that is not smaller. */
  function Insert<T>(x: T, s: seq<T>, key: T -> int): seq<T>
  {
    if s == [] || key(x) <= key(s[0]) then [x] + s else [s[0]] + Insert(x, s[1..], key)
  }

  function SortBy<T>(s: seq<T>, key: T -> int): seq<T>
  {
    if s == [] then [] else Insert(s[0], SortBy(s[1..], key), key)
  }

  lemma {:induction false} InsertKeeps<T>(x: T, s: seq<T>, key: T -> int)
    ensures multiset(Insert(x, s, key)) == multiset{x} + multiset(s)
  {
    if s != [] && key(x) > key(s[0]) {
      InsertKeeps(x, s[1..], key);
      assert s == [s[0]] + s[1..];
    }
  }

  lemma {:induction false} InsertSorts<T>(x: T, s: seq<T>, key: T -> int)
    requires Sorted(s, key)
    ensures Sorted(Insert(x, s, key), key)
  {
    if s != [] && key(x) > key(s[0]) {
      var rest := s[1..];
      var t := Insert(x, rest, key);
      InsertSorts(x, rest, key);
      InsertKeeps(x, rest, key);
      forall j | 0 <= j < |t| ensures key(s[0]) <= key(t[j]) {
        assert t[j] in multiset(t);
        if t[j] != x {
          assert t[j] in multiset(rest);
          var k :| 0 <= k < |rest| && rest[k] == t[j];
          assert s[k + 1] == t[j];
        }
      }
    }
  }

  lemma {:induction false} SortSorts<T>(s: seq<T>, key: T -> int)
    ensures Sorted(SortBy(s, key), key)
    ensures multiset(SortBy(s, key)) == multiset(s)
  {
    if s != [] {
      SortSorts(s[1..], key);
      InsertSorts(s[0], SortBy(s[1..], key), key);
      InsertKeeps(s[0], SortBy(s[1..], key), key);
      assert s == [s[0]] + s[1..];
    }
  }

  /** Sorting keeps the elements, each as often as before. */
  lemma {:induction false} SortKeeps<T>(s: seq<T>, key: T -> int)
    ensures |SortBy(s, key)| == |s|
    ensures forall x :: x in SortBy(s, key) <==> x in s
  {
    SortSorts(s, key);
    var t := SortBy(s, key);
    assert |multiset(t)| == |multiset(s)|;
    forall x ensures x in t <==> x in s {
      assert x in t <==> x in multiset(t);
      assert x in s <==> x in multiset(s);
    }
  }

  /** The ends of a sorted list: the first of the least elements and the last of the greatest. */
  lemma {:induction false} SortEnds<T>(s: seq<T>, key: T -> int) returns (first: nat, last: nat)
    requires s != []
    ensures first < |s| && SortBy(s, key)[0] == s[first]
    ensures forall k :: 0 <= k < |s| ==> key(s[first]) <= key(s[k]) && (k < first ==> key(s[first]) < key(s[k]))
    ensures last < |s| && SortBy(s, key) != [] && SortBy(s, key)[|SortBy(s, key)| - 1] == s[last]
    ensures forall k :: 0 <= k < |s| ==> key(s[k]) <= key(s[last]) && (k > last ==> key(s[k]) < key(s[last]))
  {
    first, last := 0, 0;
    if |s| > 1 {
      var rest, t := s[1..], SortBy(s[1..], key);
      var f, l := SortEnds(rest, key);
      assert forall k :: 1 <= k < |s| ==> s[k] == rest[k - 1];
      SortSorts(rest, key);
      InsertEnds(s[0], t, key);
      first := if key(s[0]) <= key(t[0]) then 0 else f + 1;
      last := if key(s[0]) <= key(t[|t| - 1]) then l + 1 else 0;
    }
  }

  lemma {:induction false} InsertEnds<T>(x: T, s: seq<T>, key: T -> int)
    requires s != [] && Sorted(s, key)
    ensures var t := Insert(x, s, key);
            && t != [] && t[0] == (if key(x) <= key(s[0]) then x else s[0])
            && t[|t| - 1] == if key(x) <= key(s[|s| - 1]) then s[|s| - 1] else x
  {
    if |s| > 1 && key(x) > key(s[0]) {
      InsertEnds(x, s[1..], key);
    }
  }

  /** Pairwise different keys stay pairwise different. */
  predicate DistinctKeys<T>(s: seq<T>, key: T -> int)
  {
    forall i, j :: 0 <= i < j < |s| ==> key(s[i]) != key(s[j])
  }

  lemma {:induction false} InsertKeepsDistinct<T>(x: T, s: seq<T>, key: T -> int)
    requires DistinctKeys(s, key) && forall i :: 0 <= i < |s| ==> key(s[i]) != key(x)
    ensures DistinctKeys(Insert(x, s, key), key)
  {
    if s != [] && key(x) > key(s[0]) {
      var rest := s[1..];
      var t := Insert(x, rest, key);
      InsertKeepsDistinct(x, rest, key);
      InsertKeeps(x, rest, key);
      forall j | 0 <= j < |t| ensures key(t[j]) != key(s[0]) {
        assert t[j] in multiset(t);
        if t[j] != x {
          assert t[j] in multiset(rest);
          var k :| 0 <= k < |rest| && rest[k] == t[j];
          assert s[k + 1] == t[j];
        }
      }
    }
  }

  lemma {:induction false} SortKeepsDistinct<T>(s: seq<T>, key: T -> int)
    requires DistinctKeys(s, key)
    ensures DistinctKeys(SortBy(s, key), key)
  {
    if s != [] {
      var rest := s[1..];
      var t := SortBy(rest, key);
      SortKeepsDistinct(rest, key);
      SortSorts(rest, key);
      forall i | 0 <= i < |t| ensures key(t[i]) != key(s[0]) {
        assert t[i] in multiset(t);
        assert t[i] in multiset(rest);
        var k :| 0 <= k < |rest| && rest[k] == t[i];
        assert s[k + 1] == t[i];
      }
      InsertKeepsDistinct(s[0], t, key);
    }
  }

  /** The elements whose key is `k`, in the order in which they stand. */
  function WithKey<T>(s: seq<T>, key: T -> int, k: int): seq<T>
  {
    if s == [] then [] else (if key(s[0]) == k then [s[0]] else []) + WithKey(s[1..], key, k)
  }

  lemma {:induction false} WithKeyFirst<T>(x: T, s: seq<T>, key: T -> int, k: int)
    ensures WithKey([x] + s, key, k) == (if key(x) == k then [x] else []) + WithKey(s, key, k)
  {
    assert ([x] + s)[1..] == s;
  }

  lemma {:induction false} InsertInFront<T>(x: T, s: seq<T>, key: T -> int, k: int)
    ensures WithKey(Insert(x, s, key), key, k) == (if key(x) == k then [x] else []) + WithKey(s, key, k)
  {
    hide WithKey;
    if s != [] && key(x) > key(s[0]) {
      InsertInFront(x, s[1..], key, k);
      assert s == [s[0]] + s[1..];
      WithKeyFirst(s[0], s[1..], key, k);
      WithKeyFirst(s[0], Insert(x, s[1..], key), key, k);
    } else {
      WithKeyFirst(x, s, key, k);
    }
  }

  /** `sort_by_key` is stable: elements with the same key keep their order. */
  lemma {:induction false} SortIsStable<T>(s: seq<T>, key: T -> int, k: int)
    ensures WithKey(SortBy(s, key), key, k) == WithKey(s, key, k)
  {
    if s != [] {
      SortIsStable(s[1..], key, k);
      InsertInFront(s[0], SortBy(s[1..], key), key, k);
    }
  }
}
