/**
 * The two sequence builtins the conversion is made of: `filter` (materialised
 * with `list(...)`) and the stable `sorted(..., key=...)`.
 */
module Seqs {

  import opened Wrappers

  /*** filter ***/

  /** The elements of `s` that satisfy `p`, in their order in `s`. */
  function Filter<T(==,!new)>(s: seq<T>, p: T -> bool): (r: seq<T>)
    ensures |r| <= |s|
    ensures forall i :: 0 <= i < |r| ==> p(r[i])
    ensures forall x :: x in r <==> x in s && p(x)
  {
    if s == [] then []
    else if p(s[0]) then [s[0]] + Filter(s[1..], p)
    else Filter(s[1..], p)
  }

  /** `r` can be obtained from `s` by deleting elements. */
  predicate IsSubsequence<T(==,!new)>(r: seq<T>, s: seq<T>)
  {
    if r == [] then true
    else if s == [] then false
    else (r[0] == s[0] && IsSubsequence(r[1..], s[1..])) || IsSubsequence(r, s[1..])
  }

  /** Filtering keeps the input order and drops nothing that satisfies `p`. */
  lemma {:induction false} FilterIsSubsequence<T(!new)>(s: seq<T>, p: T -> bool)
    ensures IsSubsequence(Filter(s, p), s)
  {
    if s != [] {
      FilterIsSubsequence(s[1..], p);
      var r := Filter(s[1..], p);
      if !p(s[0]) {
        SubsequenceOfTail(r, s);
      }
    }
  }

  lemma {:induction false} SubsequenceOfTail<T(!new)>(r: seq<T>, s: seq<T>)
    requires s != [] && IsSubsequence(r, s[1..])
    ensures IsSubsequence(r, s)
  {
  }

  /** Every element satisfying `p` keeps its multiplicity, every other one disappears. */
  lemma {:induction false} FilterMultiset<T(!new)>(s: seq<T>, p: T -> bool)
    ensures forall x {:trigger multiset(Filter(s, p))[x]} ::
      multiset(Filter(s, p))[x] == if p(x) then multiset(s)[x] else 0
  {
    if s != [] {
      FilterMultiset(s[1..], p);
      assert s == [s[0]] + s[1..];
    }
  }

  /** A subsequence never holds an element more often than the whole. */
  lemma {:induction false} SubsequenceMultiset<T(!new)>(r: seq<T>, s: seq<T>)
    requires IsSubsequence(r, s)
    ensures multiset(r) <= multiset(s)
  {
    if r != [] {
      assert s != [];
      assert s == [s[0]] + s[1..];
      if r[0] == s[0] && IsSubsequence(r[1..], s[1..]) {
        SubsequenceMultiset(r[1..], s[1..]);
        assert r == [r[0]] + r[1..];
      } else {
        SubsequenceMultiset(r, s[1..]);
      }
    }
  }

  /**
   * The converse of the three facts above: an order-preserving selection of
   * elements satisfying `p` that misses none of them is exactly `Filter(s, p)`.
   */
  lemma {:induction false} FilterUnique<T(!new)>(r: seq<T>, s: seq<T>, p: T -> bool)
    requires IsSubsequence(r, s)
    requires forall i :: 0 <= i < |r| ==> p(r[i])
    requires forall x :: p(x) ==> multiset(r)[x] == multiset(s)[x]
    ensures r == Filter(s, p)
  {
    if s == [] {
    } else {
      assert s == [s[0]] + s[1..];
      if r != [] && r[0] == s[0] && IsSubsequence(r[1..], s[1..]) {
        assert r == [r[0]] + r[1..];
        forall x | p(x) ensures multiset(r[1..])[x] == multiset(s[1..])[x] {
          assert multiset(r)[x] == multiset(s)[x];
        }
        FilterUnique(r[1..], s[1..], p);
      } else {
        assert IsSubsequence(r, s[1..]);
        SubsequenceMultiset(r, s[1..]);
        assert !p(s[0]);
        FilterUnique(r, s[1..], p);
      }
    }
  }

  /**
   * `r` is `s` with exactly the elements satisfying `p` kept: in their order in
   * `s`, none that fails `p`, and none that satisfies it missing.
   */
  ghost predicate IsSelectionOf<T(!new)>(r: seq<T>, s: seq<T>, p: T -> bool)
  {
    && IsSubsequence(r, s)
    && (forall i :: 0 <= i < |r| ==> p(r[i]))
    && (forall x :: p(x) ==> multiset(r)[x] == multiset(s)[x])
  }

  lemma FilterIsSelection<T(!new)>(s: seq<T>, p: T -> bool)
    ensures IsSelectionOf(Filter(s, p), s, p)
  {
    FilterIsSubsequence(s, p);
    FilterMultiset(s, p);
  }

  /** The selection is unique: whatever meets `IsSelectionOf` is `Filter(s, p)`. */
  lemma SelectionIsFilter<T(!new)>(r: seq<T>, s: seq<T>, p: T -> bool)
    requires IsSelectionOf(r, s, p)
    ensures r == Filter(s, p)
  {
    FilterUnique(r, s, p);
  }

  /*** list(map(f, ...)) where f may raise ***/

  /**
   * Applies `f` to every element in order; the first failure aborts the whole
   * map, as an exception raised inside `map` escapes `list(...)`.
   */
  function MapAll<A, B, E>(s: seq<A>, f: A -> Result<B, E>): (r: Result<seq<B>, E>)
    ensures r.Success? <==> forall i :: 0 <= i < |s| ==> f(s[i]).Success?
    ensures r.Success? ==> |r.value| == |s| && forall i :: 0 <= i < |s| ==> r.value[i] == f(s[i]).value
    ensures r.Failure? ==> exists i :: 0 <= i < |s| && f(s[i]) == Failure(r.error)
                                    && forall j :: 0 <= j < i ==> f(s[j]).Success?
  {
    if s == [] then Success([])
    else
      match f(s[0])
      case Failure(e) => Failure(e)
      case Success(b) =>
        match MapAll(s[1..], f)
        case Failure(e) => Failure(e)
        case Success(bs) => Success([b] + bs)
  }

  /*** sorted(..., key=...) ***/

  /** Non-decreasing by `key`. */
  predicate SortedBy<T(==,!new)>(s: seq<T>, key: T -> int)
  {
    forall i, j :: 0 <= i < j < |s| ==> key(s[i]) <= key(s[j])
  }

  /** The elements of `s` whose key is `k`, in their order in `s`. */
  function WithKey<T(==,!new)>(s: seq<T>, key: T -> int, k: int): (r: seq<T>)
    ensures forall x :: x in r ==> x in s && key(x) == k
  {
    if s == [] then []
    else if key(s[0]) == k then [s[0]] + WithKey(s[1..], key, k)
    else WithKey(s[1..], key, k)
  }

  /**
   * What Python promises of `sorted(s, key=key)`: `r` is ordered by `key`, is
   * a permutation of `s`, and elements with equal keys keep their relative order.
   */
  ghost predicate IsStableSortOf<T(!new)>(r: seq<T>, s: seq<T>, key: T -> int)
  {
    && SortedBy(r, key)
    && multiset(r) == multiset(s)
    && forall k :: WithKey(r, key, k) == WithKey(s, key, k)
  }

  /** Inserts `x` in front of the first element whose key is not smaller than its own. */
  function Insert<T(==,!new)>(x: T, s: seq<T>, key: T -> int): seq<T>
  {
    if s == [] || key(x) <= key(s[0]) then [x] + s
    else [s[0]] + Insert(x, s[1..], key)
  }

  /** Insertion sort: a stable sort by `key`. */
  function SortByKey<T(==,!new)>(s: seq<T>, key: T -> int): seq<T>
  {
    if s == [] then [] else Insert(s[0], SortByKey(s[1..], key), key)
  }

  lemma {:induction false} InsertSorted<T(!new)>(x: T, s: seq<T>, key: T -> int)
    requires SortedBy(s, key)
    ensures SortedBy(Insert(x, s, key), key)
  {
    if s != [] && key(x) > key(s[0]) {
      InsertSorted(x, s[1..], key);
      InsertMultiset(x, s[1..], key);
      var t := Insert(x, s[1..], key);
      forall y | y in t ensures key(s[0]) <= key(y) {
        assert y in multiset(t);
      }
    }
  }

  lemma {:induction false} InsertMultiset<T(!new)>(x: T, s: seq<T>, key: T -> int)
    ensures multiset(Insert(x, s, key)) == multiset{x} + multiset(s)
  {
    if s != [] && key(x) > key(s[0]) {
      InsertMultiset(x, s[1..], key);
      assert s == [s[0]] + s[1..];
    }
  }

  /** Everything `x` is put after has a smaller key, so no key class changes order. */
  lemma {:induction false} InsertWithKey<T(!new)>(x: T, s: seq<T>, key: T -> int, k: int)
    ensures WithKey(Insert(x, s, key), key, k)
      == if key(x) == k then [x] + WithKey(s, key, k) else WithKey(s, key, k)
  {
    if s != [] && key(x) > key(s[0]) {
      InsertWithKey(x, s[1..], key, k);
    }
  }

  /** The insertion sort meets Python's contract for `sorted`. */
  lemma {:induction false} SortByKeyIsStableSort<T(!new)>(s: seq<T>, key: T -> int)
    ensures IsStableSortOf(SortByKey(s, key), s, key)
    ensures |SortByKey(s, key)| == |s|
    ensures forall x :: x in SortByKey(s, key) <==> x in s
  {
    if s != [] {
      SortByKeyIsStableSort(s[1..], key);
      var t := SortByKey(s[1..], key);
      InsertSorted(s[0], t, key);
      InsertMultiset(s[0], t, key);
      forall k ensures WithKey(SortByKey(s, key), key, k) == WithKey(s, key, k) {
        InsertWithKey(s[0], t, key, k);
      }
      assert s == [s[0]] + s[1..];
    }
    var r := SortByKey(s, key);
    assert |multiset(r)| == |multiset(s)|;
    forall x ensures x in r <==> x in s {
      assert x in r <==> x in multiset(r);
    }
  }

  /** Python's contract for a stable sort leaves no freedom: it determines the result. */
  lemma StableSortUnique<T(!new)>(a: seq<T>, b: seq<T>, s: seq<T>, key: T -> int)
    requires IsStableSortOf(a, s, key) && IsStableSortOf(b, s, key)
    ensures a == b
  {
    SameKeyClassesEqual(a, b, key);
  }

  lemma WithKeyHead<T(!new)>(s: seq<T>, key: T -> int)
    requires s != []
    ensures WithKey(s, key, key(s[0])) == [s[0]] + WithKey(s[1..], key, key(s[0]))
  {
  }

  lemma {:induction false} SameKeyClassesEqual<T(!new)>(a: seq<T>, b: seq<T>, key: T -> int)
    requires SortedBy(a, key) && SortedBy(b, key)
    requires forall k :: WithKey(a, key, k) == WithKey(b, key, k)
    ensures a == b
    decreases |a| + |b|
  {
    if a == [] && b == [] {
    } else if a == [] {
      // the head of b would have no partner with its key in a
      WithKeyHead(b, key);
      assert false;
    } else if b == [] {
      WithKeyHead(a, key);
      assert false;
    } else {
      var ka, kb := key(a[0]), key(b[0]);
      assert kb <= ka by {
        var y := WithKey(b, key, ka)[0];
        assert y in WithKey(a, key, ka);
        assert y in b && key(y) == ka;
      }
      assert ka <= kb by {
        var y := WithKey(a, key, kb)[0];
        assert y in WithKey(b, key, kb);
        assert y in a && key(y) == kb;
      }
      assert a[0] == WithKey(a, key, ka)[0] == WithKey(b, key, ka)[0] == b[0];
      forall k ensures WithKey(a[1..], key, k) == WithKey(b[1..], key, k) {
        if k == ka {
          assert WithKey(a[1..], key, k) == WithKey(a, key, k)[1..];
          assert WithKey(b[1..], key, k) == WithKey(b, key, k)[1..];
        } else {
          assert WithKey(a[1..], key, k) == WithKey(a, key, k);
          assert WithKey(b[1..], key, k) == WithKey(b, key, k);
        }
      }
      SameKeyClassesEqual(a[1..], b[1..], key);
      assert a == [a[0]] + a[1..];
      assert b == [b[0]] + b[1..];
    }
  }
}
