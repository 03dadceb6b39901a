/**
 * Kotlin's `sortedBy` / `sortBy`: the elements ordered by a key under a
 * total preorder on keys (strings by `compareTo`, numbers by `<=`).
 * The sort is an insertion sort that places each element after every
 * element already placed whose key is not greater, as a stable sort does.
 */
module Sorting {
  import opened Text

  /** `le` orders any two keys and chains. */
  ghost predicate TotalPreorder<K(!new)>(le: (K, K) -> bool)
  {
    (forall a, b :: le(a, b) || le(b, a)) &&
    (forall a, b, c :: le(a, b) && le(b, c) ==> le(a, c))
  }

  predicate SortedBy<T, K>(s: seq<T>, key: T -> K, le: (K, K) -> bool)
  {
    forall i, j :: 0 <= i < j < |s| ==> le(key(s[i]), key(s[j]))
  }

  /** Inserts `x` into sorted `s` after the last element whose key is not greater than x's. */
  function InsertBy<T, K(!new)>(x: T, s: seq<T>, key: T -> K, le: (K, K) -> bool): (r: seq<T>)
    requires TotalPreorder(le) && SortedBy(s, key, le)
    ensures multiset(r) == multiset(s) + multiset{x}
    ensures |r| == |s| + 1
    ensures SortedBy(r, key, le)
  {
    if s == [] then [x]
    else
      var init, last := s[..|s| - 1], s[|s| - 1];
      assert s == init + [last];
      if le(key(last), key(x)) then
        AboveAll(s, x, key, le);
        s + [x]
      else
        var r' := InsertBy(x, init, key, le);
        BelowLast(x, init, last, r', key, le);
        AboveAll(r', last, key, le);
        r' + [last]
  }

  /** Appending an element whose key is not below any key keeps a sorted sequence sorted. */
  lemma AboveAll<T, K>(s: seq<T>, x: T, key: T -> K, le: (K, K) -> bool)
    requires SortedBy(s, key, le) && forall i :: 0 <= i < |s| ==> le(key(s[i]), key(x))
    ensures SortedBy(s + [x], key, le)
  {
  }

  /**
   * The elements of `init` with `x` added all have keys not above `last`'s
   * when `init + [last]` is sorted and x's key is below last's.
   */
  lemma BelowLast<T, K(!new)>(x: T, init: seq<T>, last: T, r: seq<T>, key: T -> K, le: (K, K) -> bool)
    requires TotalPreorder(le) && SortedBy(init + [last], key, le) && !le(key(last), key(x))
    requires multiset(r) == multiset(init) + multiset{x}
    ensures forall i :: 0 <= i < |r| ==> le(key(r[i]), key(last))
  {
    var s := init + [last];
    forall i | 0 <= i < |r|
      ensures le(key(r[i]), key(last))
    {
      assert r[i] in multiset(r);
      if r[i] != x {
        assert r[i] in init;
        var k :| 0 <= k < |init| && init[k] == r[i];
        assert s[k] == r[i] && s[|init|] == last;
      }
    }
  }

  /** The elements of `s` in ascending key order: a sorted permutation of `s`. */
  function SortBy<T, K(!new)>(s: seq<T>, key: T -> K, le: (K, K) -> bool): (r: seq<T>)
    requires TotalPreorder(le)
    ensures multiset(r) == multiset(s)
    ensures |r| == |s|
    ensures SortedBy(r, key, le)
  {
    if s == [] then []
    else
      assert s == s[..|s| - 1] + [s[|s| - 1]];
      InsertBy(s[|s| - 1], SortBy(s[..|s| - 1], key, le), key, le)
  }

  /** `le` ranks the keys `a` and `b` alike: neither is greater than the other. */
  predicate Tied<K>(le: (K, K) -> bool, a: K, b: K)
  {
    le(a, b) && le(b, a)
  }

  /** The elements of `s` whose key ties with `k`, in their order in `s`. */
  function Ties<T, K>(s: seq<T>, key: T -> K, le: (K, K) -> bool, k: K): seq<T>
  {
    if s == [] then []
    else Ties(s[..|s| - 1], key, le, k) + (if Tied(le, key(s[|s| - 1]), k) then [s[|s| - 1]] else [])
  }

  lemma TiesAppend<T, K>(s: seq<T>, x: T, key: T -> K, le: (K, K) -> bool, k: K)
    ensures Ties(s + [x], key, le, k) == Ties(s, key, le, k) + (if Tied(le, key(x), k) then [x] else [])
  {
    assert (s + [x])[..|s|] == s;
  }

  /** Inserting `x` puts it after every element whose key ties with its own. */
  lemma {:induction false} InsertByStable<T, K(!new)>(x: T, s: seq<T>, key: T -> K, le: (K, K) -> bool, k: K)
    requires TotalPreorder(le) && SortedBy(s, key, le)
    ensures Ties(InsertBy(x, s, key, le), key, le, k) == Ties(s, key, le, k) + (if Tied(le, key(x), k) then [x] else [])
  {
    if s != [] {
      var init, last := s[..|s| - 1], s[|s| - 1];
      assert s == init + [last];
      TiesAppend(init, last, key, le, k);
      if le(key(last), key(x)) {
        TiesAppend(s, x, key, le, k);
      } else {
        assert !(Tied(le, key(last), k) && Tied(le, key(x), k));
        InsertByStable(x, init, key, le, k);
        TiesAppend(InsertBy(x, init, key, le), last, key, le, k);
      }
    }
  }

  /** The sort is stable: elements whose keys tie keep their relative order. */
  lemma SortByStable<T, K(!new)>(s: seq<T>, key: T -> K, le: (K, K) -> bool)
    requires TotalPreorder(le)
    ensures forall k :: Ties(SortBy(s, key, le), key, le, k) == Ties(s, key, le, k)
  {
    forall k
      ensures Ties(SortBy(s, key, le), key, le, k) == Ties(s, key, le, k)
    {
      SortByStableAt(s, key, le, k);
    }
  }

  lemma {:induction false} SortByStableAt<T, K(!new)>(s: seq<T>, key: T -> K, le: (K, K) -> bool, k: K)
    requires TotalPreorder(le)
    ensures Ties(SortBy(s, key, le), key, le, k) == Ties(s, key, le, k)
  {
    if s != [] {
      var init, last := s[..|s| - 1], s[|s| - 1];
      assert s == init + [last];
      SortByStableAt(init, key, le, k);
      InsertByStable(last, SortBy(init, key, le), key, le, k);
      TiesAppend(init, last, key, le, k);
    }
  }

  /** Sorting a sequence that is already in order leaves it as it is. */
  lemma {:induction false} SortBySorted<T, K(!new)>(s: seq<T>, key: T -> K, le: (K, K) -> bool)
    requires TotalPreorder(le) && SortedBy(s, key, le)
    ensures SortBy(s, key, le) == s
  {
    if s != [] {
      var init, last := s[..|s| - 1], s[|s| - 1];
      assert s == init + [last];
      SortBySorted(init, key, le);
      if init != [] {
        assert le(key(init[|init| - 1]), key(last));
      }
    }
  }

  /** Order of integer keys. */
  function IntLe(a: int, b: int): bool { a <= b }

  lemma IntLeTotalPreorder()
    ensures TotalPreorder(IntLe)
  {
  }

  /** String order by `compareTo` is a total preorder, so sorting by a name or an address is defined. */
  lemma StrLeTotalPreorder()
    ensures TotalPreorder(StrLe)
  {
    forall a, b
      ensures StrLe(a, b) || StrLe(b, a)
    {
      StrLeTotal(a, b);
    }
    forall a, b, c | StrLe(a, b) && StrLe(b, c)
      ensures StrLe(a, c)
    {
      StrLeTransitive(a, b, c);
    }
  }

  /** `sortedBy` a string key: the elements in `compareTo` order of their keys, stably. */
  function SortByString<T>(s: seq<T>, key: T -> string): (r: seq<T>)
    ensures multiset(r) == multiset(s) && |r| == |s|
    ensures SortedBy(r, key, StrLe)
    ensures forall k :: Ties(r, key, StrLe, k) == Ties(s, key, StrLe, k)
  {
    StrLeTotalPreorder();
    SortByStable(s, key, StrLe);
    SortBy(s, key, StrLe)
  }
}
