/**
 * Generic sequence operations that the query layer of the application relies on:
 * `where` (Filter), `compact` (Somes), `uniq` (DedupBy), `order`/`sort_by`
 * (InsertionSort) and the "smallest greater" / "largest smaller" picks behind
 * `order(...).first` and `order(...).last`.
 */
module Seqs {
  import opened Wrappers

  /** Rows of `xs` that satisfy `p`, in their original order. */
  function Filter<T(!new)>(xs: seq<T>, p: T -> bool): (r: seq<T>)
    ensures |r| <= |xs|
    ensures forall x :: x in r <==> x in xs && p(x)
    ensures forall i :: 0 <= i < |r| ==> p(r[i])
  {
    if xs == [] then []
    else if p(xs[0]) then [xs[0]] + Filter(xs[1..], p)
    else Filter(xs[1..], p)
  }

  /** At most the first `n` elements (SQL `LIMIT n`). */
  function Take<T>(xs: seq<T>, n: nat): (r: seq<T>)
    ensures |r| <= n && |r| <= |xs|
    ensures r <= xs
    ensures |xs| <= n ==> r == xs
    ensures n < |xs| ==> |r| == n
  {
    if |xs| <= n then xs else xs[..n]
  }

  /** Ruby's `compact`: the present values, in order. */
  function Somes<T(!new)>(xs: seq<Option<T>>): (r: seq<T>)
    ensures |r| <= |xs|
    ensures forall x :: x in r <==> Some(x) in xs
    ensures (forall i :: 0 <= i < |xs| ==> xs[i].None?) ==> r == []
  {
    if xs == [] then []
    else
      assert xs == [xs[0]] + xs[1..];
      if xs[0].Some? then [xs[0].value] + Somes(xs[1..]) else Somes(xs[1..])
  }

  /**
   * `compact` is read left to right: appending an entry appends its value when
   * it is present and nothing when it is nil, so the result is exactly the
   * present values in their original order.
   */
  lemma {:induction false} SomesSnoc<T(!new)>(xs: seq<Option<T>>, o: Option<T>)
    ensures Somes(xs + [o]) == Somes(xs) + (if o.Some? then [o.value] else [])
  {
    if xs == [] {
      assert xs + [o] == [o];
      assert [o][1..] == [];
    } else {
      assert (xs + [o])[0] == xs[0];
      assert (xs + [o])[1..] == xs[1..] + [o];
      SomesSnoc(xs[1..], o);
    }
  }

  /** Applies `f` to each element. */
  function Map<T, U>(xs: seq<T>, f: T -> U): (r: seq<U>)
    ensures |r| == |xs|
    ensures forall i :: 0 <= i < |xs| ==> r[i] == f(xs[i])
  {
    if xs == [] then [] else [f(xs[0])] + Map(xs[1..], f)
  }

  /** Concatenation of `f(x)` over `xs` (Ruby's `flat_map`). */
  function FlatMap<T(!new), U(!new)>(xs: seq<T>, f: T -> seq<U>): (r: seq<U>)
    ensures forall y :: y in r <==> exists x :: x in xs && y in f(x)
  {
    if xs == [] then []
    else
      assert xs == [xs[0]] + xs[1..];
      f(xs[0]) + FlatMap(xs[1..], f)
  }

  /** No two elements share a key. */
  predicate DistinctBy<T, K(==)>(xs: seq<T>, key: T -> K) {
    forall i, j :: 0 <= i < j < |xs| ==> key(xs[i]) != key(xs[j])
  }

  /** Some element of `xs` has key `k`. */
  predicate HasKey<T, K(==)>(xs: seq<T>, key: T -> K, k: K) {
    exists j :: 0 <= j < |xs| && key(xs[j]) == k
  }

  /**
   * Ruby's `uniq` on records compared by identity: keeps the first element
   * of each key, in the original order.
   */
  function DedupBy<T, K(==)>(xs: seq<T>, key: T -> K): (r: seq<T>)
    ensures |r| <= |xs|
    ensures forall i :: 0 <= i < |r| ==> r[i] in xs
    ensures forall i :: 0 <= i < |xs| ==> HasKey(r, key, key(xs[i]))
    ensures DistinctBy(r, key)
  {
    if xs == [] then []
    else
      var init := xs[..|xs| - 1];
      var last := xs[|xs| - 1];
      assert xs == init + [last];
      var rest := DedupBy(init, key);
      if HasKey(rest, key, key(last)) then
        rest
      else
        assert forall i :: 0 <= i < |init| ==> HasKey(rest + [last], key, key(xs[i])) by {
          forall i | 0 <= i < |init| ensures HasKey(rest + [last], key, key(xs[i])) {
            assert HasKey(rest, key, key(init[i]));
            var j :| 0 <= j < |rest| && key(rest[j]) == key(init[i]);
            assert (rest + [last])[j] == rest[j];
          }
        }
        assert key((rest + [last])[|rest|]) == key(last);
        rest + [last]
  }

  lemma {:induction false} DedupByKeepsDistinct<T, K>(xs: seq<T>, key: T -> K)
    requires DistinctBy(xs, key)
    ensures DedupBy(xs, key) == xs
  {
    if xs != [] {
      var init := xs[..|xs| - 1];
      var last := xs[|xs| - 1];
      assert xs == init + [last];
      assert DistinctBy(init, key);
      DedupByKeepsDistinct(init, key);
    }
  }

  /** `le` is a total preorder: every pair is comparable and it is transitive. */
  ghost predicate TotalPreorder<T(!new)>(le: (T, T) -> bool) {
    && (forall a, b :: le(a, b) || le(b, a))
    && (forall a, b, c :: le(a, b) && le(b, c) ==> le(a, c))
  }

  predicate SortedBy<T>(xs: seq<T>, le: (T, T) -> bool) {
    forall i, j :: 0 <= i < j < |xs| ==> le(xs[i], xs[j])
  }

  function Insert<T(!new)>(x: T, xs: seq<T>, le: (T, T) -> bool): (r: seq<T>)
    requires TotalPreorder(le)
    requires SortedBy(xs, le)
    ensures SortedBy(r, le)
    ensures multiset(r) == multiset(xs) + multiset{x}
    ensures |r| == |xs| + 1
  {
    if xs == [] then [x]
    else if le(x, xs[0]) then [x] + xs
    else
      var rest := Insert(x, xs[1..], le);
      assert xs == [xs[0]] + xs[1..];
      assert le(xs[0], x);
      assert forall k :: 0 <= k < |rest| ==> le(xs[0], rest[k]) by {
        forall k | 0 <= k < |rest| ensures le(xs[0], rest[k]) {
          assert rest[k] in multiset(rest);
          assert rest[k] == x || rest[k] in multiset(xs[1..]);
          if rest[k] != x {
            assert rest[k] in xs[1..];
          }
        }
      }
      [xs[0]] + rest
  }

  /**
   * Sorting by a total preorder: the result is ordered and is a permutation
   * of the input (ties may come out in any order, as with Ruby's `sort_by`
   * and SQL `ORDER BY`).
   */
  function InsertionSort<T(!new)>(xs: seq<T>, le: (T, T) -> bool): (r: seq<T>)
    requires TotalPreorder(le)
    ensures SortedBy(r, le)
    ensures multiset(r) == multiset(xs)
    ensures |r| == |xs|
  {
    if xs == [] then []
    else
      assert xs == [xs[0]] + xs[1..];
      Insert(xs[0], InsertionSort(xs[1..], le), le)
  }

  /**
   * The element with the smallest key strictly greater than `n`
   * (`where("k > ?", n).order(:k).first`); the earliest such row on ties.
   */
  function LeastAbove<T>(xs: seq<T>, key: T -> int, n: int): (r: Option<T>)
    ensures r.None? <==> forall i :: 0 <= i < |xs| ==> key(xs[i]) <= n
    ensures r.Some? ==> r.value in xs && key(r.value) > n
    ensures r.Some? ==> forall i :: 0 <= i < |xs| && key(xs[i]) > n ==> key(r.value) <= key(xs[i])
  {
    if xs == [] then None
    else
      var rest := LeastAbove(xs[1..], key, n);
      assert forall i :: 1 <= i < |xs| ==> xs[i] == xs[1..][i - 1];
      if key(xs[0]) <= n then rest
      else if rest.Some? && key(rest.value) < key(xs[0]) then rest
      else Some(xs[0])
  }

  /**
   * The element with the largest key strictly smaller than `n`
   * (`where("k < ?", n).order(:k).last`); the earliest such row on ties.
   */
  function GreatestBelow<T>(xs: seq<T>, key: T -> int, n: int): (r: Option<T>)
    ensures r.None? <==> forall i :: 0 <= i < |xs| ==> key(xs[i]) >= n
    ensures r.Some? ==> r.value in xs && key(r.value) < n
    ensures r.Some? ==> forall i :: 0 <= i < |xs| && key(xs[i]) < n ==> key(xs[i]) <= key(r.value)
  {
    if xs == [] then None
    else
      var rest := GreatestBelow(xs[1..], key, n);
      assert forall i :: 1 <= i < |xs| ==> xs[i] == xs[1..][i - 1];
      if key(xs[0]) >= n then rest
      else if rest.Some? && key(rest.value) > key(xs[0]) then rest
      else Some(xs[0])
  }

  /** The element with the smallest key (`order(:k).first`), or None when empty. */
  function MinBy<T>(xs: seq<T>, key: T -> int): (r: Option<T>)
    ensures r.None? <==> xs == []
    ensures r.Some? ==> r.value in xs && forall i :: 0 <= i < |xs| ==> key(r.value) <= key(xs[i])
  {
    if xs == [] then None
    else
      var rest := MinBy(xs[1..], key);
      assert forall i :: 1 <= i < |xs| ==> xs[i] == xs[1..][i - 1];
      if rest.Some? && key(rest.value) < key(xs[0]) then rest else Some(xs[0])
  }

  /** Turns every present value that fails `keep` into None. */
  function Mask<T>(xs: seq<Option<T>>, keep: T -> bool): (r: seq<Option<T>>)
    ensures |r| == |xs|
    ensures forall i :: 0 <= i < |xs| ==> r[i] == if xs[i].Some? && !keep(xs[i].value) then None else xs[i]
  {
    if xs == [] then []
    else [if xs[0].Some? && !keep(xs[0].value) then None else xs[0]] + Mask(xs[1..], keep)
  }

  /** Masking before `compact` is filtering after it: survivors keep their relative order. */
  lemma {:induction false} SomesOfMask<T(!new)>(xs: seq<Option<T>>, keep: T -> bool)
    ensures Somes(Mask(xs, keep)) == Filter(Somes(xs), keep)
  {
    if xs != [] {
      SomesOfMask(xs[1..], keep);
      assert Mask(xs, keep)[1..] == Mask(xs[1..], keep);
      assert xs == [xs[0]] + xs[1..];
    }
  }

  /** When every entry is present, `compact` drops nothing and keeps the order. */
  lemma {:induction false} SomesAllPresent<T(!new)>(xs: seq<Option<T>>)
    requires forall i :: 0 <= i < |xs| ==> xs[i].Some?
    ensures |Somes(xs)| == |xs|
    ensures forall i :: 0 <= i < |xs| ==> Somes(xs)[i] == xs[i].value
  {
    if xs != [] {
      SomesAllPresent(xs[1..]);
      assert forall i :: 1 <= i < |xs| ==> xs[1..][i - 1] == xs[i];
    }
  }

  /** An element counted twice sits at two distinct positions. */
  lemma {:induction false} TwoPositions<T>(xs: seq<T>, x: T)
    requires multiset(xs)[x] >= 2
    ensures exists i, j :: 0 <= i < j < |xs| && xs[i] == x && xs[j] == x
  {
    assert xs == [xs[0]] + xs[1..];
    if xs[0] == x {
      assert x in multiset(xs[1..]);
      var j :| 0 <= j < |xs[1..]| && xs[1..][j] == x;
      assert xs[j + 1] == x;
    } else {
      TwoPositions(xs[1..], x);
      var i, j :| 0 <= i < j < |xs[1..]| && xs[1..][i] == x && xs[1..][j] == x;
      assert xs[i + 1] == x && xs[j + 1] == x;
    }
  }

  /** Reordering keeps keys distinct: a permutation of a key-distinct sequence is key-distinct. */
  lemma DistinctByPermutation<T, K>(xs: seq<T>, ys: seq<T>, key: T -> K)
    requires multiset(xs) == multiset(ys)
    requires DistinctBy(xs, key)
    ensures DistinctBy(ys, key)
  {
    forall i, j | 0 <= i < j < |ys|
      ensures key(ys[i]) != key(ys[j])
    {
      if ys[i] == ys[j] {
        assert ys == ys[..j] + ys[j..];
        assert ys[i] in multiset(ys[..j]) && ys[j] in multiset(ys[j..]);
        TwoPositions(xs, ys[i]);
      } else {
        assert ys[i] in multiset(xs) && ys[j] in multiset(xs);
        var i' :| 0 <= i' < |xs| && xs[i'] == ys[i];
        var j' :| 0 <= j' < |xs| && xs[j'] == ys[j];
        assert i' < j' || j' < i';
      }
    }
  }
  /** A permutation has the same members. */
  lemma PermutationKeepsMembers<T>(xs: seq<T>, ys: seq<T>)
    requires multiset(xs) == multiset(ys)
    ensures forall v :: v in ys <==> v in xs
  {
    forall v
      ensures v in ys <==> v in xs
    {
      assert v in ys <==> v in multiset(ys);
      assert v in xs <==> v in multiset(xs);
    }
  }

  /** A permutation has the same keys. */
  lemma PermutationKeepsKeys<T, K>(xs: seq<T>, ys: seq<T>, key: T -> K)
    requires multiset(xs) == multiset(ys)
    ensures forall k :: HasKey(xs, key, k) ==> HasKey(ys, key, k)
  {
    PermutationKeepsMembers(xs, ys);
    forall k | HasKey(xs, key, k)
      ensures HasKey(ys, key, k)
    {
      var j :| 0 <= j < |xs| && key(xs[j]) == k;
      assert xs[j] in ys;
      var i :| 0 <= i < |ys| && ys[i] == xs[j];
    }
  }

  /** What `DedupBy` keeps, stated on members: nothing new, and every key of the input. */
  lemma DedupByMembers<T, K>(xs: seq<T>, key: T -> K)
    ensures forall v :: v in DedupBy(xs, key) ==> v in xs
    ensures forall v :: v in xs ==> HasKey(DedupBy(xs, key), key, key(v))
  {
    var r := DedupBy(xs, key);
    forall v | v in r
      ensures v in xs
    {
      var i :| 0 <= i < |r| && r[i] == v;
    }
    forall v | v in xs
      ensures HasKey(r, key, key(v))
    {
      var i :| 0 <= i < |xs| && xs[i] == v;
    }
  }
}
