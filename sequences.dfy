/**
 * The array operations the task views are built from: `Array.prototype.filter`,
 * counting with `filter(...).length`, and `Array.prototype.sort`, which since
 * ECMAScript 2019 is stable. A comparator is modelled by a sort key compared
 * lexicographically; `SortBy` is a stable insertion sort on that key.
 */
module Sequences {
  import opened Text

  /** `s.filter(p)`. */
  function Filter<T>(s: seq<T>, p: T -> bool): (r: seq<T>)
    ensures |r| <= |s|
  {
    if s == [] then [] else (if p(s[0]) then [s[0]] else []) + Filter(s[1..], p)
  }

  /** The filtered sequence holds exactly the elements that pass the test. */
  lemma {:induction false} FilterMembers<T>(s: seq<T>, p: T -> bool)
    ensures forall x :: x in Filter(s, p) <==> x in s && p(x)
  {
    if s != [] {
      FilterMembers(s[1..], p);
      assert s == [s[0]] + s[1..];
    }
  }

  /** `r` is `s` read at the strictly increasing positions `idx`. */
  ghost predicate ReadsAt<T>(r: seq<T>, s: seq<T>, idx: seq<nat>)
  {
    && |idx| == |r|
    && (forall k :: 0 <= k < |idx| ==> idx[k] < |s| && r[k] == s[idx[k]])
    && (forall k, l :: 0 <= k < l < |idx| ==> idx[k] < idx[l])
  }

  /**
   * The filtered sequence is `s` read at its passing positions, in increasing
   * order: `filter` keeps the order of the elements it keeps.
   */
  lemma {:induction false} FilterInOrder<T>(s: seq<T>, p: T -> bool) returns (idx: seq<nat>)
    ensures ReadsAt(Filter(s, p), s, idx)
    ensures forall i: nat :: i in idx <==> i < |s| && p(s[i])
    decreases |s|
  {
    if s == [] {
      idx := [];
    } else {
      var init, x := s[..|s| - 1], s[|s| - 1];
      assert s == init + [x];
      var rest := FilterInOrder(init, p);
      FilterAppend(init, x, p);
      idx := if p(x) then rest + [|init|] else rest;
      ReadsAtSnoc(Filter(init, p), init, rest, x, p(x));
      PositionsInOrderSnoc(init, rest, x, p);
    }
  }

  /** Reading one more element at the new last position keeps the positions increasing. */
  lemma ReadsAtSnoc<T>(r: seq<T>, s: seq<T>, idx: seq<nat>, x: T, keep: bool)
    requires ReadsAt(r, s, idx)
    ensures ReadsAt(r + (if keep then [x] else []), s + [x], if keep then idx + [|s|] else idx)
  {
    var r', s', idx' := r + (if keep then [x] else []), s + [x], if keep then idx + [|s|] else idx;
    forall k | 0 <= k < |idx'|
      ensures idx'[k] < |s'| && r'[k] == s'[idx'[k]]
    {
      if k < |idx| {
        assert idx'[k] == idx[k] && r'[k] == r[k] && s'[idx[k]] == s[idx[k]];
      }
    }
  }

  /** The passing positions of `s + [x]` are those of `s`, and `|s|` when `x` passes. */
  lemma PositionsInOrderSnoc<T>(s: seq<T>, idx: seq<nat>, x: T, p: T -> bool)
    requires forall k :: 0 <= k < |idx| ==> idx[k] < |s|
    requires forall i: nat :: i in idx <==> i < |s| && p(s[i])
    ensures forall i: nat :: i in (if p(x) then idx + [|s|] else idx) <==> i < |s| + 1 && p((s + [x])[i])
  {
    forall i: nat
      ensures i in (if p(x) then idx + [|s|] else idx) <==> i < |s| + 1 && p((s + [x])[i])
    {
      if i in idx {
        var k :| 0 <= k < |idx| && idx[k] == i;
      }
      if i < |s| {
        assert (s + [x])[i] == s[i];
      }
    }
  }

  /** `s.filter(p).length`. */
  function Count<T>(s: seq<T>, p: T -> bool): (n: nat)
    ensures n <= |s|
  {
    |Filter(s, p)|
  }

  /** The positions of `s` whose element satisfies `p`. */
  function Positions<T>(s: seq<T>, p: T -> bool): set<nat>
  {
    set i: nat | i < |s| && p(s[i])
  }

  /** The count is the number of positions whose element satisfies the test. */
  lemma {:induction false} CountPositions<T>(s: seq<T>, p: T -> bool)
    ensures Count(s, p) == |Positions(s, p)|
    decreases |s|
  {
    if s != [] {
      var init, x := s[..|s| - 1], s[|s| - 1];
      assert s == init + [x];
      CountPositions(init, p);
      FilterAppend(init, x, p);
      PositionsSnoc(init, x, p);
    }
  }

  /** Appending an element adds its position exactly when it satisfies the test. */
  lemma PositionsSnoc<T>(s: seq<T>, x: T, p: T -> bool)
    ensures Positions(s + [x], p) == Positions(s, p) + (if p(x) then {|s|} else {})
    ensures |s| !in Positions(s, p)
  {
    forall i: nat
      ensures i in Positions(s + [x], p) <==> i in Positions(s, p) + (if p(x) then {|s|} else {})
    {
      if i < |s| {
        assert (s + [x])[i] == s[i];
      }
    }
  }

  lemma {:induction false} FilterAppend<T>(s: seq<T>, x: T, p: T -> bool)
    ensures Filter(s + [x], p) == Filter(s, p) + (if p(x) then [x] else [])
  {
    if s == [] {
      assert s + [x] == [x];
    } else {
      var head := if p(s[0]) then [s[0]] else [];
      assert (s + [x])[0] == s[0] && (s + [x])[1..] == s[1..] + [x];
      assert Filter(s + [x], p) == head + Filter(s[1..] + [x], p);
      FilterAppend(s[1..], x, p);
      assert Filter(s, p) == head + Filter(s[1..], p);
    }
  }

  lemma {:induction false} FilterConcat<T>(a: seq<T>, b: seq<T>, p: T -> bool)
    ensures Filter(a + b, p) == Filter(a, p) + Filter(b, p)
  {
    if a == [] {
      assert a + b == b;
    } else {
      var head := if p(a[0]) then [a[0]] else [];
      assert (a + b)[0] == a[0] && (a + b)[1..] == a[1..] + b;
      assert Filter(a + b, p) == head + Filter(a[1..] + b, p);
      FilterConcat(a[1..], b, p);
      assert Filter(a, p) == head + Filter(a[1..], p);
    }
  }

  lemma MultisetCons<T>(s: seq<T>)
    requires s != []
    ensures multiset(s) == multiset{s[0]} + multiset(s[1..])
  {
    assert s == [s[0]] + s[1..];
  }

  /** Filtering keeps a sub-multiset of the input. */
  lemma {:induction false} FilterMultiset<T>(s: seq<T>, p: T -> bool)
    ensures multiset(Filter(s, p)) <= multiset(s)
  {
    if s != [] {
      FilterMultiset(s[1..], p);
      assert s == [s[0]] + s[1..];
    }
  }

  /** `s.map(f)`. */
  function Map<A, B>(s: seq<A>, f: A -> B): (r: seq<B>)
  {
    seq(|s|, k requires 0 <= k < |s| => f(s[k]))
  }

  /** Mapping a prefix one element longer adds that element's image. */
  lemma MapSnoc<A, B>(s: seq<A>, f: A -> B, i: nat)
    requires i < |s|
    ensures Map(s[..i + 1], f) == Map(s[..i], f) + [f(s[i])]
  {
  }

  /** `s.map(f).filter(Boolean)` for an `f` that returns a value or nothing. */
  function FilterMap<A, B>(s: seq<A>, f: A -> Option<B>): (r: seq<B>)
    ensures |r| <= |s|
  {
    if s == [] then [] else (match f(s[0]) case Some(y) => [y] case None => []) + FilterMap(s[1..], f)
  }

  /** Every value kept comes from an element of the input, in the input's order. */
  lemma {:induction false} FilterMapSource<A, B>(s: seq<A>, f: A -> Option<B>, y: B) returns (k: nat)
    requires y in FilterMap(s, f)
    ensures k < |s| && f(s[k]) == Some(y)
  {
    var head := match f(s[0]) case Some(z) => [z] case None => [];
    if y in head {
      k := 0;
    } else {
      assert y in FilterMap(s[1..], f);
      var j := FilterMapSource(s[1..], f, y);
      k := j + 1;
    }
  }

  /** Every value an element gives is kept. */
  lemma {:induction false} FilterMapKeeps<A, B>(s: seq<A>, f: A -> Option<B>, k: nat)
    requires k < |s| && f(s[k]).Some?
    ensures f(s[k]).value in FilterMap(s, f)
  {
    if k > 0 {
      FilterMapKeeps(s[1..], f, k - 1);
    }
  }

  lemma {:induction false} FilterMapAppend<A, B>(s: seq<A>, x: A, f: A -> Option<B>)
    ensures FilterMap(s + [x], f) == FilterMap(s, f) + (match f(x) case Some(y) => [y] case None => [])
  {
    if s == [] {
      assert s + [x] == [x];
    } else {
      assert (s + [x])[1..] == s[1..] + [x];
      FilterMapAppend(s[1..], x, f);
    }
  }

  /** When `f` gives a value for every element, nothing is dropped and the order is kept. */
  lemma {:induction false} FilterMapTotal<A, B>(s: seq<A>, f: A -> Option<B>, r: seq<B>)
    requires |r| == |s| && forall k :: 0 <= k < |s| ==> f(s[k]) == Some(r[k])
    ensures FilterMap(s, f) == r
  {
    if s != [] {
      FilterMapTotal(s[1..], f, r[1..]);
    }
  }

  /** Strict lexicographic order on keys; a proper prefix comes first. */
  predicate LexLess(a: seq<int>, b: seq<int>)
  {
    if a == [] then b != []
    else b != [] && (a[0] < b[0] || (a[0] == b[0] && LexLess(a[1..], b[1..])))
  }

  lemma {:induction false} LexIrreflexive(a: seq<int>)
    ensures !LexLess(a, a)
  {
    if a != [] {
      LexIrreflexive(a[1..]);
    }
  }

  lemma {:induction false} LexTransitive(a: seq<int>, b: seq<int>, c: seq<int>)
    requires LexLess(a, b) && LexLess(b, c)
    ensures LexLess(a, c)
  {
    if a != [] && b != [] && c != [] && a[0] == b[0] == c[0] {
      LexTransitive(a[1..], b[1..], c[1..]);
    }
  }

  lemma {:induction false} LexTotal(a: seq<int>, b: seq<int>)
    ensures a == b || LexLess(a, b) || LexLess(b, a)
  {
    if a != [] && b != [] && a[0] == b[0] {
      LexTotal(a[1..], b[1..]);
      if a[1..] == b[1..] {
        assert a == [a[0]] + a[1..] && b == [b[0]] + b[1..];
      }
    }
  }

  lemma LexAsymmetric(a: seq<int>, b: seq<int>)
    requires LexLess(a, b)
    ensures !LexLess(b, a)
  {
    if LexLess(b, a) {
      LexTransitive(a, b, a);
      LexIrreflexive(a);
    }
  }

  /** No element has a smaller key than an element before it. */
  predicate SortedBy<T>(s: seq<T>, key: T -> seq<int>)
  {
    forall i, j :: 0 <= i < j < |s| ==> !LexLess(key(s[j]), key(s[i]))
  }

  /** The elements of `s` whose key is `k`, in their order in `s`. */
  function WithKey<T>(s: seq<T>, key: T -> seq<int>, k: seq<int>): (r: seq<T>)
    ensures |r| <= |s|
  {
    if s == [] then [] else (if key(s[0]) == k then [s[0]] else []) + WithKey(s[1..], key, k)
  }

  /** Inserts `x` before the first element whose key is not smaller than its own. */
  function Insert<T>(x: T, s: seq<T>, key: T -> seq<int>): (r: seq<T>)
    ensures |r| == |s| + 1
    ensures multiset(r) == multiset(s) + multiset{x}
  {
    if s == [] || !LexLess(key(s[0]), key(x)) then [x] + s
    else
      var r := [s[0]] + Insert(x, s[1..], key);
      assert s == [s[0]] + s[1..];
      r
  }

  /** A stable sort by `key`: the model of `[...s].sort(cmp)` for a comparator that compares keys. */
  function SortBy<T>(s: seq<T>, key: T -> seq<int>): (r: seq<T>)
    ensures |r| == |s|
    ensures multiset(r) == multiset(s)
  {
    if s == [] then []
    else
      var r := Insert(s[0], SortBy(s[1..], key), key);
      assert s == [s[0]] + s[1..];
      r
  }

  lemma {:induction false} InsertSorted<T>(x: T, s: seq<T>, key: T -> seq<int>)
    requires SortedBy(s, key)
    ensures SortedBy(Insert(x, s, key), key)
  {
    if s != [] && LexLess(key(s[0]), key(x)) {
      var rest := Insert(x, s[1..], key);
      InsertSorted(x, s[1..], key);
      var r := [s[0]] + rest;
      forall j | 0 < j < |r| ensures !LexLess(key(r[j]), key(s[0])) {
        var y := r[j];
        assert y in multiset(rest);
        assert y == x || y in multiset(s[1..]);
        if y == x {
          LexAsymmetric(key(s[0]), key(x));
        } else {
          var k :| 0 <= k < |s[1..]| && s[1..][k] == y;
          assert s[k + 1] == y;
        }
      }
    } else if s != [] {
      var r := [x] + s;
      forall j | 0 < j < |r| ensures !LexLess(key(r[j]), key(x)) {
        LexTotal(key(s[0]), key(x));
        if j > 1 && LexLess(key(r[j]), key(x)) {
          assert !LexLess(key(r[j]), key(s[0]));
          LexTotal(key(r[j]), key(s[0]));
          if key(r[j]) != key(s[0]) {
            LexTransitive(key(s[0]), key(r[j]), key(x));
          }
        }
      }
    }
  }

  /** Every element `Insert` steps over has a smaller key, so none of them shares the key of `x`. */
  lemma {:induction false} InsertWithKey<T>(x: T, s: seq<T>, key: T -> seq<int>, k: seq<int>)
    ensures WithKey(Insert(x, s, key), key, k) == (if key(x) == k then [x] else []) + WithKey(s, key, k)
  {
    if s != [] && LexLess(key(s[0]), key(x)) {
      InsertWithKey(x, s[1..], key, k);
      var r := [s[0]] + Insert(x, s[1..], key);
      assert r[1..] == Insert(x, s[1..], key);
      if key(s[0]) == k && key(x) == k {
        LexIrreflexive(k);
      }
    } else {
      var r := [x] + s;
      assert r[1..] == s;
    }
  }

  /**
   * `SortBy` is a stable sort: its output is ordered by key, is a permutation
   * of its input, and lists the elements sharing any one key in input order.
   */
  lemma {:induction false} SortByCorrect<T>(s: seq<T>, key: T -> seq<int>)
    ensures SortedBy(SortBy(s, key), key)
    ensures multiset(SortBy(s, key)) == multiset(s)
    ensures forall k :: WithKey(SortBy(s, key), key, k) == WithKey(s, key, k)
  {
    if s != [] {
      SortByCorrect(s[1..], key);
      InsertSorted(s[0], SortBy(s[1..], key), key);
      forall k ensures WithKey(SortBy(s, key), key, k) == WithKey(s, key, k) {
        InsertWithKey(s[0], SortBy(s[1..], key), key, k);
      }
    }
  }

  /** The elements sharing a key are a subsequence; collecting all keys' elements covers the input. */
  lemma {:induction false} WithKeyMembers<T>(s: seq<T>, key: T -> seq<int>, x: T)
    ensures x in s <==> x in WithKey(s, key, key(x))
  {
    if s != [] {
      WithKeyMembers(s[1..], key, x);
    }
  }
}
