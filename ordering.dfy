/** The collection operations the generators chain together: lodash's
    `filter`/`reject` and the engine's query `filter`, and the stable
    descending sorts done by lodash's `orderBy(key, 'desc')` and by the
    engine's `sort('-key')`. */
module Ordering {

  /** The elements of `s` that satisfy `p`, in their original order. */
  function Keep<T>(s: seq<T>, p: T -> bool): (r: seq<T>)
    ensures |r| == Count(s, p) <= |s|
    ensures forall i :: 0 <= i < |r| ==> p(r[i])
  {
    if s == [] then [] else (if p(s[0]) then [s[0]] else []) + Keep(s[1..], p)
  }

  /** The number of elements that satisfy `p`. */
  function Count<T>(s: seq<T>, p: T -> bool): (n: nat)
    ensures n <= |s|
  {
    if s == [] then 0 else (if p(s[0]) then 1 else 0) + Count(s[1..], p)
  }

  /** An element is kept exactly when it occurs in the input and satisfies the predicate. */
  lemma {:induction false} KeepMembers<T>(s: seq<T>, p: T -> bool, x: T)
    ensures x in Keep(s, p) <==> x in s && p(x)
  {
    if s != [] {
      KeepMembers(s[1..], p, x);
      assert s == [s[0]] + s[1..];
    }
  }

  /** Filtering splits over concatenation. */
  lemma {:induction false} KeepAppend<T>(s: seq<T>, t: seq<T>, p: T -> bool)
    ensures Keep(s + t, p) == Keep(s, p) + Keep(t, p)
  {
    if s == [] {
      assert s + t == t;
    } else {
      assert (s + t)[0] == s[0];
      assert (s + t)[1..] == s[1..] + t;
      KeepAppend(s[1..], t, p);
    }
  }

  /** Non-increasing by `key`: the order of lodash's `orderBy(key, 'desc')`. */
  predicate SortedDesc<T>(s: seq<T>, key: T -> int)
  {
    forall i, j :: 0 <= i < j < |s| ==> key(s[i]) >= key(s[j])
  }

  /** Places `x` in front of the first element whose key is not larger
      than its own, so that `x` precedes the elements of equal key. */
  function Insert<T>(x: T, t: seq<T>, key: T -> int): (r: seq<T>)
    ensures SortedDesc(t, key) ==> SortedDesc(r, key)
    ensures |r| == |t| + 1
    ensures r[0] == x || (t != [] && r[0] == t[0])
  {
    if t == [] || key(x) >= key(t[0]) then
      [x] + t
    else
      assert t == [t[0]] + t[1..];
      [t[0]] + Insert(x, t[1..], key)
  }

  /** Stable descending sort by `key` (insertion sort from the back). */
  function SortDesc<T>(s: seq<T>, key: T -> int): (r: seq<T>)
    ensures SortedDesc(r, key)
    ensures |r| == |s|
  {
    if s == [] then [] else Insert(s[0], SortDesc(s[1..], key), key)
  }

  lemma {:induction false} InsertPermutes<T>(x: T, t: seq<T>, key: T -> int)
    ensures multiset(Insert(x, t, key)) == multiset(t) + multiset{x}
  {
    if t != [] && key(x) < key(t[0]) {
      InsertPermutes(x, t[1..], key);
      assert t == [t[0]] + t[1..];
    }
  }

  lemma MultisetCons<T>(s: seq<T>)
    requires s != []
    ensures multiset(s) == multiset(s[1..]) + multiset{s[0]}
  {
    assert s == [s[0]] + s[1..];
  }

  /** The sort is a permutation of its input. */
  lemma {:induction false} SortPermutes<T>(s: seq<T>, key: T -> int)
    ensures multiset(SortDesc(s, key)) == multiset(s)
  {
    if s != [] {
      var tail := s[1..];
      var sorted := SortDesc(tail, key);
      SortPermutes(tail, key);
      InsertPermutes(s[0], sorted, key);
      MultisetCons(s);
      assert SortDesc(s, key) == Insert(s[0], sorted, key);
    }
  }

  /** Sorting a filtered sequence keeps every element satisfying the predicate. */
  lemma SortKeeps<T>(s: seq<T>, key: T -> int, p: T -> bool)
    requires forall i :: 0 <= i < |s| ==> p(s[i])
    ensures forall i :: 0 <= i < |SortDesc(s, key)| ==> p(SortDesc(s, key)[i]) && SortDesc(s, key)[i] in s
  {
    var r := SortDesc(s, key);
    forall i | 0 <= i < |r| ensures p(r[i]) && r[i] in s {
      SortMembers(s, key, r[i]);
    }
  }

  /** The sort keeps exactly the elements of its input. */
  lemma SortMembers<T>(s: seq<T>, key: T -> int, x: T)
    ensures x in SortDesc(s, key) <==> x in s
  {
    SortPermutes(s, key);
    var r := SortDesc(s, key);
    assert x in r <==> x in multiset(r);
    assert x in s <==> x in multiset(s);
  }

  lemma {:induction false} KeepSorted<T>(s: seq<T>, key: T -> int, p: T -> bool)
    requires SortedDesc(s, key)
    ensures SortedDesc(Keep(s, p), key)
  {
    if s != [] {
      KeepSorted(s[1..], key, p);
      var k := Keep(s[1..], p);
      forall i | 0 <= i < |k| ensures key(s[0]) >= key(k[i]) {
        KeepMembers(s[1..], p, k[i]);
        var j :| 0 <= j < |s[1..]| && s[1..][j] == k[i];
        assert s[1 + j] == k[i];
      }
    }
  }

  /** Filtering a sequence with a known head. */
  lemma KeepCons<T>(x: T, t: seq<T>, p: T -> bool)
    ensures Keep([x] + t, p) == (if p(x) then [x] else []) + Keep(t, p)
  {
    var r := [x] + t;
    assert r[0] == x && r[1..] == t;
  }

  /** Filtering the result of an insertion into a sorted sequence equals
      inserting into the filtered sequence. */
  lemma {:induction false} KeepInsert<T>(x: T, t: seq<T>, key: T -> int, p: T -> bool)
    requires SortedDesc(t, key)
    ensures Keep(Insert(x, t, key), p) ==
            if p(x) then Insert(x, Keep(t, p), key) else Keep(t, p)
  {
    if t == [] {
    } else if key(x) >= key(t[0]) {
      KeepCons(x, t, p);
      var k := Keep(t, p);
      if k != [] {
        KeepMembers(t, p, k[0]);
        var j :| 0 <= j < |t| && t[j] == k[0];
        assert key(t[0]) >= key(t[j]);
      }
    } else {
      KeepInsert(x, t[1..], key, p);
      KeepInsertBehind(x, t, key, p);
    }
  }

  lemma KeepInsertBehind<T>(x: T, t: seq<T>, key: T -> int, p: T -> bool)
    requires t != [] && key(x) < key(t[0])
    requires Keep(Insert(x, t[1..], key), p) ==
             if p(x) then Insert(x, Keep(t[1..], p), key) else Keep(t[1..], p)
    ensures Keep(Insert(x, t, key), p) ==
            if p(x) then Insert(x, Keep(t, p), key) else Keep(t, p)
  {
    var tail := t[1..];
    var rest := Insert(x, tail, key);
    var kt := Keep(tail, p);
    assert t == [t[0]] + tail;
    InsertBehindHead(x, t[0], tail, key);
    KeepCons(t[0], rest, p);
    KeepCons(t[0], tail, p);
    if p(t[0]) {
      assert Keep(t, p) == [t[0]] + kt;
      assert Keep(Insert(x, t, key), p) == [t[0]] + Keep(rest, p);
      if p(x) {
        InsertBehindHead(x, t[0], kt, key);
      }
    } else {
      assert Keep(t, p) == kt;
      assert Keep(Insert(x, t, key), p) == Keep(rest, p);
    }
  }

  /** Inserting an element whose key is below the head's passes the head by. */
  lemma InsertBehindHead<T>(x: T, h: T, k: seq<T>, key: T -> int)
    requires key(x) < key(h)
    ensures Insert(x, [h] + k, key) == [h] + Insert(x, k, key)
  {
    var hk := [h] + k;
    assert hk[0] == h && hk[1..] == k;
  }

  /** Filtering and the sort commute: sorting and then filtering (as the feed
      does with the engine's query `sort` and `filter`) gives the same sequence as filtering and then sorting. */
  lemma {:induction false} KeepSortCommute<T>(s: seq<T>, key: T -> int, p: T -> bool)
    ensures Keep(SortDesc(s, key), p) == SortDesc(Keep(s, p), key)
  {
    if s != [] {
      var tail := s[1..];
      KeepSortCommute(tail, key, p);
      KeepInsert(s[0], SortDesc(tail, key), key, p);
      var k := Keep(s, p);
      assert k == (if p(s[0]) then [s[0]] else []) + Keep(tail, p);
      if p(s[0]) {
        assert k[0] == s[0] && k[1..] == Keep(tail, p);
        assert SortDesc(k, key) == Insert(s[0], SortDesc(Keep(tail, p), key), key);
      } else {
        assert k == Keep(tail, p);
      }
    }
  }

  /** A sequence whose elements all share one key is left as it is. */
  lemma {:induction false} SortConstantKey<T>(s: seq<T>, key: T -> int, c: int)
    requires forall i :: 0 <= i < |s| ==> key(s[i]) == c
    ensures SortDesc(s, key) == s
  {
    if s != [] {
      SortConstantKey(s[1..], key, c);
      assert s == [s[0]] + s[1..];
      if |s| > 1 {
        assert s[1..][0] == s[1];
      }
    }
  }

  /** Stability: elements whose keys tie keep their input order. For any
      predicate that selects only elements of key `c`, the selected elements
      come out of the sort in the order they went in. */
  lemma SortStable<T(!new)>(s: seq<T>, key: T -> int, p: T -> bool, c: int)
    requires forall x :: p(x) ==> key(x) == c
    ensures Keep(SortDesc(s, key), p) == Keep(s, p)
  {
    KeepSortCommute(s, key, p);
    SortConstantKey(Keep(s, p), key, c);
  }
}
