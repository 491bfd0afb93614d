/** Orderings and the sort used by the JSON canonicaliser: Python's code-point string order
    and a stable sort by a key order (the behaviour of `sorted` / `list.sort`). */
module Sorting {

  /** Python's `<=` on `str`: lexicographic by code point, a proper prefix first. */
  predicate StrLe(s: string, t: string)
    decreases |s|
  {
    s == [] || (t != [] && (s[0] < t[0] || (s[0] == t[0] && StrLe(s[1..], t[1..]))))
  }

  /** Python's `<` on `str`. */
  predicate StrLt(s: string, t: string) {
    StrLe(s, t) && s != t
  }

  lemma {:induction false} StrLeReflexive(s: string)
    ensures StrLe(s, s)
    decreases |s|
  {
    if s != [] { StrLeReflexive(s[1..]); }
  }

  lemma {:induction false} StrLeAntisymmetric(s: string, t: string)
    requires StrLe(s, t) && StrLe(t, s)
    ensures s == t
    decreases |s|
  {
    if s != [] && t != [] {
      StrLeAntisymmetric(s[1..], t[1..]);
      assert s == [s[0]] + s[1..] && t == [t[0]] + t[1..];
    }
  }

  lemma {:induction false} StrLeTransitive(s: string, t: string, u: string)
    requires StrLe(s, t) && StrLe(t, u)
    ensures StrLe(s, u)
    decreases |s|
  {
    if s != [] && t != [] && u != [] && s[0] == t[0] == u[0] {
      StrLeTransitive(s[1..], t[1..], u[1..]);
    }
  }

  lemma {:induction false} StrLeTotal(s: string, t: string)
    ensures StrLe(s, t) || StrLe(t, s)
    decreases |s|
  {
    if s != [] && t != [] && s[0] == t[0] {
      StrLeTotal(s[1..], t[1..]);
    }
  }

  /** `s` is ordered by `le` at every pair of positions. */
  predicate SortedBy<T>(s: seq<T>, le: (T, T) -> bool) {
    forall i, j :: 0 <= i < j < |s| ==> le(s[i], s[j])
  }

  /** `le` is total and transitive: the order Python compares sort keys with. */
  ghost predicate TotalPreorder<T(!new)>(le: (T, T) -> bool) {
    (forall a, b :: le(a, b) || le(b, a)) &&
    (forall a, b, c :: le(a, b) && le(b, c) ==> le(a, c))
  }

  /** Inserts `x` before the first element it is `le`; earlier elements stay first, so the sort is stable. */
  function Insert<T>(x: T, s: seq<T>, le: (T, T) -> bool): (r: seq<T>)
    ensures multiset(r) == multiset(s) + multiset{x}
  {
    if s == [] || le(x, s[0]) then [x] + s
    else
      assert s == [s[0]] + s[1..];
      [s[0]] + Insert(x, s[1..], le)
  }

  /** A stable sort: the result is a permutation of the input. */
  function SortBy<T>(s: seq<T>, le: (T, T) -> bool): (r: seq<T>)
    ensures multiset(r) == multiset(s)
  {
    if s == [] then []
    else
      assert s == [s[0]] + s[1..];
      Insert(s[0], SortBy(s[1..], le), le)
  }

  lemma InsertMember<T>(x: T, s: seq<T>, y: T, le: (T, T) -> bool)
    requires y in Insert(x, s, le)
    ensures y == x || y in s
  {
    assert y in multiset(Insert(x, s, le));
  }

  lemma {:induction false} InsertSorted<T(!new)>(x: T, s: seq<T>, le: (T, T) -> bool)
    requires TotalPreorder(le) && SortedBy(s, le)
    ensures SortedBy(Insert(x, s, le), le)
    decreases |s|
  {
    if s == [] || le(x, s[0]) {
    } else {
      var rest := Insert(x, s[1..], le);
      InsertSorted(x, s[1..], le);
      forall y | y in rest ensures le(s[0], y) {
        InsertMember(x, s[1..], y, le);
        if y != x {
          var k :| 0 <= k < |s[1..]| && s[1..][k] == y;
          assert s[k + 1] == y;
        }
      }
      var r := [s[0]] + rest;
      forall i, j | 0 <= i < j < |r| ensures le(r[i], r[j]) {
        if i == 0 {
          assert r[j] == rest[j - 1] && rest[j - 1] in rest;
        } else {
          assert r[i] == rest[i - 1] && r[j] == rest[j - 1];
        }
      }
    }
  }

  /** With a total preorder, the sort's result is sorted. */
  lemma {:induction false} SortBySorted<T(!new)>(s: seq<T>, le: (T, T) -> bool)
    requires TotalPreorder(le)
    ensures SortedBy(SortBy(s, le), le)
    decreases |s|
  {
    if s != [] {
      SortBySorted(s[1..], le);
      InsertSorted(s[0], SortBy(s[1..], le), le);
    }
  }

  /** Sorting an already sorted sequence changes nothing. */
  lemma {:induction false} SortByIdentity<T>(s: seq<T>, le: (T, T) -> bool)
    requires SortedBy(s, le)
    ensures SortBy(s, le) == s
    decreases |s|
  {
    if s != [] {
      SortedTail(s, le);
      SortByIdentity(s[1..], le);
      if |s| > 1 { assert le(s[0], s[1]); }
      assert s == [s[0]] + s[1..];
    }
  }

  lemma SortedTail<T>(s: seq<T>, le: (T, T) -> bool)
    requires s != [] && SortedBy(s, le)
    ensures SortedBy(s[1..], le)
  {
    forall i, j | 0 <= i < j < |s[1..]| ensures le(s[1..][i], s[1..][j]) {
      assert s[1..][i] == s[i + 1] && s[1..][j] == s[j + 1];
    }
  }

  lemma SortedHeadsEqual<T>(s: seq<T>, t: seq<T>, le: (T, T) -> bool)
    requires s != [] && SortedBy(s, le) && SortedBy(t, le)
    requires multiset(s) == multiset(t)
    requires forall a, b :: a in s && b in s && le(a, b) && le(b, a) ==> a == b
    ensures t != [] && s[0] == t[0]
  {
    assert s[0] in multiset(t) && t != [] && t[0] in multiset(s);
    var i :| 0 <= i < |t| && t[i] == s[0];
    var j :| 0 <= j < |s| && s[j] == t[0];
    if i > 0 && j > 0 {
      assert le(s[0], s[j]) && le(t[0], t[i]);
      assert s[0] in s && s[j] in s;
    }
  }

  lemma TailsPermutation<T>(s: seq<T>, t: seq<T>)
    requires s != [] && t != [] && s[0] == t[0] && multiset(s) == multiset(t)
    ensures multiset(s[1..]) == multiset(t[1..])
  {
    assert s == [s[0]] + s[1..] && t == [t[0]] + t[1..];
    calc {
      multiset(s[1..]);
      multiset(s) - multiset{s[0]};
      multiset(t) - multiset{t[0]};
      multiset(t[1..]);
    }
  }

  /** Two sorted permutations of one multiset are equal when `le` identifies no two distinct
      elements of it: the order of the result does not depend on the order of the input. */
  lemma {:induction false} SortedUnique<T>(s: seq<T>, t: seq<T>, le: (T, T) -> bool)
    requires SortedBy(s, le) && SortedBy(t, le)
    requires multiset(s) == multiset(t)
    requires forall a, b :: a in s && b in s && le(a, b) && le(b, a) ==> a == b
    ensures s == t
    decreases |s|
  {
    assert |s| == |multiset(s)| == |t|;
    if s != [] {
      SortedHeadsEqual(s, t, le);
      TailsPermutation(s, t);
      forall a, b | a in s[1..] && b in s[1..] && le(a, b) && le(b, a) ensures a == b {
        assert a in s && b in s;
      }
      SortedTail(s, le);
      SortedTail(t, le);
      SortedUnique(s[1..], t[1..], le);
      assert s == [s[0]] + s[1..] && t == [t[0]] + t[1..];
    }
  }

  /** Permuting the input of a sort does not change its result (under the same condition). */
  lemma SortByPermutationInvariant<T(!new)>(s: seq<T>, t: seq<T>, le: (T, T) -> bool)
    requires TotalPreorder(le)
    requires multiset(s) == multiset(t)
    requires forall a, b :: a in s && b in s && le(a, b) && le(b, a) ==> a == b
    ensures SortBy(s, le) == SortBy(t, le)
  {
    var rs, rt := SortBy(s, le), SortBy(t, le);
    SortBySorted(s, le);
    SortBySorted(t, le);
    forall a, b | a in rs && b in rs && le(a, b) && le(b, a) ensures a == b {
      assert a in multiset(rs) && b in multiset(rs);
      assert a in multiset(s) && b in multiset(s);
    }
    SortedUnique(rs, rt, le);
  }

  // ------------------------------------------------------------ permutations

  /** No element occurs twice. */
  predicate Distinct<T(==)>(s: seq<T>) {
    forall i, k :: 0 <= i < k < |s| ==> s[i] != s[k]
  }

  /** `[f(x) for x in s]`. */
  function MapSeq<T, U>(f: T -> U, s: seq<T>): (r: seq<U>)
    ensures |r| == |s| && forall i :: 0 <= i < |s| ==> r[i] == f(s[i])
  {
    seq(|s|, i requires 0 <= i < |s| => f(s[i]))
  }

  lemma MapSeqAppend<T, U>(f: T -> U, s: seq<T>, t: seq<T>)
    ensures MapSeq(f, s + t) == MapSeq(f, s) + MapSeq(f, t)
  {
  }

  lemma MultisetSplice<T>(a: seq<T>, x: T, b: seq<T>)
    ensures multiset(a + [x] + b) == multiset(a + b) + multiset{x}
  {
    assert multiset(a + [x] + b) == multiset(a) + multiset{x} + multiset(b);
    assert multiset(a + b) == multiset(a) + multiset(b);
  }

  /** Taking out the element at `k` takes one copy of it out of the multiset. */
  lemma RemoveAt<T>(t: seq<T>, k: int)
    requires 0 <= k < |t|
    ensures multiset(t[..k] + t[k + 1..]) == multiset(t) - multiset{t[k]}
  {
    assert t == t[..k] + [t[k]] + t[k + 1..];
    MultisetSplice(t[..k], t[k], t[k + 1..]);
  }

  lemma MapSeqRemoveAt<T, U>(f: T -> U, t: seq<T>, k: int)
    requires 0 <= k < |t|
    ensures multiset(MapSeq(f, t)) == multiset(MapSeq(f, t[..k] + t[k + 1..])) + multiset{f(t[k])}
  {
    var a, b := MapSeq(f, t[..k]), MapSeq(f, t[k + 1..]);
    assert MapSeq(f, t) == a + [f(t[k])] + b;
    assert MapSeq(f, t[..k] + t[k + 1..]) == a + b;
    MultisetSplice(a, f(t[k]), b);
  }

  /** The first element of `s` sits somewhere in its permutation `t`; the rest of `s` is a
      permutation of what is left of `t`. */
  lemma PickHead<T>(s: seq<T>, t: seq<T>) returns (k: int)
    requires s != [] && multiset(s) == multiset(t)
    ensures 0 <= k < |t| && t[k] == s[0]
    ensures multiset(s[1..]) == multiset(t[..k] + t[k + 1..])
  {
    assert s[0] in multiset(t);
    k :| 0 <= k < |t| && t[k] == s[0];
    calc {
      multiset(s[1..]);
      { RemoveAt(s, 0); assert s[..0] + s[1..] == s[1..]; }
      multiset(s) - multiset{s[0]};
      multiset(t) - multiset{t[k]};
      { RemoveAt(t, k); }
      multiset(t[..k] + t[k + 1..]);
    }
  }

  lemma MapSeqHead<T, U>(f: T -> U, s: seq<T>)
    requires s != []
    ensures multiset(MapSeq(f, s)) == multiset(MapSeq(f, s[1..])) + multiset{f(s[0])}
  {
    MapSeqRemoveAt(f, s, 0);
    assert s[..0] + s[1..] == s[1..];
  }

  /** Mapping a function over two permutations of one multiset gives two permutations. */
  lemma {:induction false} MapSeqPermutation<T, U>(f: T -> U, s: seq<T>, t: seq<T>)
    requires multiset(s) == multiset(t)
    ensures multiset(MapSeq(f, s)) == multiset(MapSeq(f, t))
    decreases |s|
  {
    if s != [] {
      var k := PickHead(s, t);
      MapSeqPermutation(f, s[1..], t[..k] + t[k + 1..]);
      MapSeqRemoveAt(f, t, k);
      MapSeqHead(f, s);
    } else {
      assert |t| == |multiset(t)| == 0;
    }
  }

  lemma {:induction false} DistinctCount<T>(s: seq<T>, x: T)
    requires Distinct(s)
    ensures multiset(s)[x] <= 1
    decreases |s|
  {
    if s != [] {
      assert s == [s[0]] + s[1..];
      assert Distinct(s[1..]) by {
        forall i, k | 0 <= i < k < |s[1..]| ensures s[1..][i] != s[1..][k] {
          assert s[1..][i] == s[i + 1] && s[1..][k] == s[k + 1];
        }
      }
      DistinctCount(s[1..], x);
      if s[0] == x {
        forall i | 0 <= i < |s[1..]| ensures s[1..][i] != x {
          assert s[1..][i] == s[i + 1];
        }
        assert x !in multiset(s[1..]);
      }
    }
  }

  /** A permutation of a sequence without repeats has none either. */
  lemma DistinctPermutation<T>(s: seq<T>, t: seq<T>)
    requires Distinct(s) && multiset(s) == multiset(t)
    ensures Distinct(t)
  {
    forall i, k | 0 <= i < k < |t| ensures t[i] != t[k] {
      if t[i] == t[k] {
        assert t == t[..k] + t[k..];
        assert t[i] in multiset(t[..k]) && t[k] in multiset(t[k..]);
        assert multiset(t)[t[i]] == multiset(t[..k])[t[i]] + multiset(t[k..])[t[i]];
        DistinctCount(s, t[i]);
      }
    }
  }

  /** Two sequences without repeats that hold the same elements are permutations of each other. */
  lemma DistinctSameElements<T>(s: seq<T>, t: seq<T>)
    requires Distinct(s) && Distinct(t)
    requires forall x :: x in s <==> x in t
    ensures multiset(s) == multiset(t)
  {
    forall x ensures multiset(s)[x] == multiset(t)[x] {
      DistinctCount(s, x);
      DistinctCount(t, x);
      assert x in s <==> x in t;
      assert x in multiset(s) <==> x in multiset(t);
    }
  }
}
