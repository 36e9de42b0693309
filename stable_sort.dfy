/**
 * `Array.prototype.sort` with a comparator `(a, b) => key(b) - key(a)`: since ES2019 the sort is
 * stable, so it puts the elements in non-increasing key order and keeps the input order among
 * equal keys. The three rankings of the services (keyword frequencies, topic match counts and
 * fusion scores) all go through this one sort.
 */
module StableSort {
  import opened Sequences

  ghost predicate NonIncreasing<T>(s: seq<T>, key: T -> real) {
    forall i, j :: 0 <= i < j < |s| ==> key(s[i]) >= key(s[j])
  }

  /** Places `e` after every element whose key is at least `key(e)`. */
  function InsertDesc<T>(sorted: seq<T>, e: T, key: T -> real): (r: seq<T>)
    ensures multiset(r) == multiset(sorted) + multiset{e}
    ensures NonIncreasing(sorted, key) ==> NonIncreasing(r, key)
    decreases |sorted|
  {
    if sorted == [] || key(sorted[|sorted| - 1]) >= key(e) then sorted + [e]
    else
      var init, last := sorted[..|sorted| - 1], sorted[|sorted| - 1];
      assert sorted == init + [last];
      var r := InsertDesc(init, e, key) + [last];
      assert NonIncreasing(sorted, key) ==> NonIncreasing(r, key) by {
        if NonIncreasing(sorted, key) {
          assert forall i :: 0 <= i < |init| ==> init[i] == sorted[i];
          KeysAtLeast(InsertDesc(init, e, key), init, e, key(last), key);
        }
      }
      r
  }

  lemma KeysAtLeast<T>(m: seq<T>, init: seq<T>, e: T, bound: real, key: T -> real)
    requires multiset(m) == multiset(init) + multiset{e}
    requires key(e) >= bound && forall i :: 0 <= i < |init| ==> key(init[i]) >= bound
    ensures forall i :: 0 <= i < |m| ==> key(m[i]) >= bound
  {
    forall i | 0 <= i < |m| ensures key(m[i]) >= bound {
      assert m[i] in multiset(m);
      assert m[i] in multiset(init) || m[i] == e;
    }
  }

  /** The stable sort by non-increasing key. */
  function SortDesc<T>(s: seq<T>, key: T -> real): (r: seq<T>)
    ensures multiset(r) == multiset(s)
    ensures NonIncreasing(r, key)
  {
    if s == [] then []
    else
      assert s == s[..|s| - 1] + [s[|s| - 1]];
      InsertDesc(SortDesc(s[..|s| - 1], key), s[|s| - 1], key)
  }

  /** The elements of `s` whose key is `x`, in order. */
  function WithKey<T>(s: seq<T>, key: T -> real, x: real): (r: seq<T>)
    ensures forall i :: 0 <= i < |r| ==> r[i] in s && key(r[i]) == x
  {
    if s == [] then []
    else
      var init := s[..|s| - 1];
      assert forall y :: y in init ==> y in s;
      WithKey(init, key, x) + (if key(s[|s| - 1]) == x then [s[|s| - 1]] else [])
  }

  lemma {:induction false} WithKeyAppend<T>(s: seq<T>, e: T, key: T -> real, x: real)
    ensures WithKey(s + [e], key, x) == WithKey(s, key, x) + (if key(e) == x then [e] else [])
  {
    assert (s + [e])[..|s|] == s;
  }

  lemma {:induction false} InsertDescWithKey<T>(sorted: seq<T>, e: T, key: T -> real, x: real)
    ensures WithKey(InsertDesc(sorted, e, key), key, x)
         == WithKey(sorted, key, x) + (if key(e) == x then [e] else [])
    decreases |sorted|
  {
    if sorted == [] || key(sorted[|sorted| - 1]) >= key(e) {
      WithKeyAppend(sorted, e, key, x);
    } else {
      var init, last := sorted[..|sorted| - 1], sorted[|sorted| - 1];
      InsertDescWithKey(init, e, key, x);
      WithKeyAppend(InsertDesc(init, e, key), last, key, x);
      assert sorted == init + [last];
      WithKeyAppend(init, last, key, x);
    }
  }

  /** Stability: sorting does not reorder the elements that share a key. */
  lemma {:induction false} SortDescStable<T>(s: seq<T>, key: T -> real, x: real)
    ensures WithKey(SortDesc(s, key), key, x) == WithKey(s, key, x)
  {
    if s != [] {
      var init, last := s[..|s| - 1], s[|s| - 1];
      assert s == init + [last];
      assert SortDesc(s, key) == InsertDesc(SortDesc(init, key), last, key);
      SortDescStable(init, key, x);
      InsertDescWithKey(SortDesc(init, key), last, key, x);
      WithKeyAppend(init, last, key, x);
    }
  }

  lemma {:induction false} WithKeyMember<T>(s: seq<T>, key: T -> real, i: nat)
    requires i < |s|
    ensures exists k :: 0 <= k < |WithKey(s, key, key(s[i]))| && WithKey(s, key, key(s[i]))[k] == s[i]
  {
    var init := s[..|s| - 1];
    var x := key(s[i]);
    if i < |s| - 1 {
      WithKeyMember(init, key, i);
      var k :| 0 <= k < |WithKey(init, key, x)| && WithKey(init, key, x)[k] == init[i];
      assert WithKey(s, key, x)[k] == s[i];
    } else {
      assert WithKey(s, key, x)[|WithKey(s, key, x)| - 1] == s[i];
    }
  }

  lemma {:induction false} PrecedesInWithKey<T>(s: seq<T>, key: T -> real, i: nat, j: nat)
    requires i < j < |s| && key(s[i]) == key(s[j])
    ensures Precedes(WithKey(s, key, key(s[i])), s[i], s[j])
  {
    var init := s[..|s| - 1];
    var x := key(s[i]);
    var w := WithKey(init, key, x);
    assert WithKey(s, key, x) == w + (if key(s[|s| - 1]) == x then [s[|s| - 1]] else []);
    if j < |s| - 1 {
      PrecedesInWithKey(init, key, i, j);
      var a, b :| 0 <= a < b < |w| && w[a] == init[i] && w[b] == init[j];
      assert WithKey(s, key, x)[a] == s[i] && WithKey(s, key, x)[b] == s[j];
    } else {
      WithKeyMember(init, key, i);
      var a :| 0 <= a < |w| && w[a] == init[i];
      assert WithKey(s, key, x)[a] == s[i] && WithKey(s, key, x)[|w|] == s[j];
    }
  }

  lemma {:induction false} PrecedesFromWithKey<T>(s: seq<T>, key: T -> real, x: real, a: T, b: T)
    requires Precedes(WithKey(s, key, x), a, b)
    ensures Precedes(s, a, b)
  {
    var init := s[..|s| - 1];
    var w := WithKey(init, key, x);
    var ws := WithKey(s, key, x);
    assert ws == w + (if key(s[|s| - 1]) == x then [s[|s| - 1]] else []);
    var p, q :| 0 <= p < q < |ws| && ws[p] == a && ws[q] == b;
    if q < |w| {
      assert w[p] == a && w[q] == b;
      PrecedesFromWithKey(init, key, x, a, b);
      PrecedesPrefix(s, |s| - 1, a, b);
      assert s[..|s| - 1] == init;
    } else {
      assert b == s[|s| - 1];
      assert w[p] == a;
      var i :| 0 <= i < |init| && init[i] == a;
      assert s[i] == a;
    }
  }

  /** Elements with equal keys come out in the order they went in. */
  lemma SortDescTiesKeepOrder<T>(s: seq<T>, key: T -> real, i: nat, j: nat)
    requires i < j < |SortDesc(s, key)|
    requires key(SortDesc(s, key)[i]) == key(SortDesc(s, key)[j])
    ensures Precedes(s, SortDesc(s, key)[i], SortDesc(s, key)[j])
  {
    var r := SortDesc(s, key);
    var x := key(r[i]);
    PrecedesInWithKey(r, key, i, j);
    SortDescStable(s, key, x);
    PrecedesFromWithKey(s, key, x, r[i], r[j]);
  }

  lemma {:induction false} InsertDescDistinct<T>(sorted: seq<T>, e: T, key: T -> real)
    requires Distinct(sorted) && e !in sorted
    ensures Distinct(InsertDesc(sorted, e, key))
    decreases |sorted|
  {
    if !(sorted == [] || key(sorted[|sorted| - 1]) >= key(e)) {
      var init, last := sorted[..|sorted| - 1], sorted[|sorted| - 1];
      InsertDescDistinct(init, e, key);
      var m := InsertDesc(init, e, key);
      assert last !in init && last != e;
      assert last !in multiset(m);
    }
  }

  lemma {:induction false} SortDescDistinct<T>(s: seq<T>, key: T -> real)
    requires Distinct(s)
    ensures Distinct(SortDesc(s, key))
  {
    if s != [] {
      var init, last := s[..|s| - 1], s[|s| - 1];
      SortDescDistinct(init, key);
      assert last !in multiset(init);
      assert last !in multiset(SortDesc(init, key));
      InsertDescDistinct(SortDesc(init, key), last, key);
    }
  }

  /** Sorting an already non-increasing sequence changes nothing. */
  lemma {:induction false} SortDescOfSorted<T>(s: seq<T>, key: T -> real)
    requires NonIncreasing(s, key)
    ensures SortDesc(s, key) == s
  {
    if s != [] {
      var init, last := s[..|s| - 1], s[|s| - 1];
      assert NonIncreasing(init, key) by {
        forall i, j | 0 <= i < j < |init| ensures key(init[i]) >= key(init[j]) {
          assert init[i] == s[i] && init[j] == s[j];
        }
      }
      SortDescOfSorted(init, key);
      assert init == [] || key(init[|init| - 1]) >= key(last);
      assert InsertDesc(init, last, key) == init + [last];
      assert s == init + [last];
    }
  }

  /** Keeping the first `n` of the sorted elements keeps a top-`n` selection: whatever is left out
      ranks no higher than anything kept, and is left out only when `n` elements were kept. */
  lemma TopSelection<T>(s: seq<T>, key: T -> real, n: nat, x: T)
    requires x in s && x !in SlicePrefix(SortDesc(s, key), n)
    ensures |SlicePrefix(SortDesc(s, key), n)| == n
    ensures forall y :: y in SlicePrefix(SortDesc(s, key), n) ==> key(y) >= key(x)
  {
    var r := SortDesc(s, key);
    assert x in multiset(s);
    var k :| 0 <= k < |r| && r[k] == x;
    var t := SlicePrefix(r, n);
    assert k >= n;
    forall y | y in t ensures key(y) >= key(x) {
      var i :| 0 <= i < |t| && t[i] == y;
      assert r[i] == y;
    }
  }
}
