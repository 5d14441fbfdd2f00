/** The frame operations the scripts use, over immutable sequences of rows:
    boolean-mask filtering, list concatenation, `[s[i:i+n] for i in range(0, len(s), n)]`
    chunking, `drop_duplicates(keep="first")`, and sorting by a numeric column. */
module Seqs {

  /** Rows of `s` satisfying `p`, in their original order (a boolean-mask selection). */
  function Filter<T(!new)>(s: seq<T>, p: T -> bool): (r: seq<T>)
    ensures |r| <= |s|
    ensures forall x :: x in r <==> x in s && p(x)
    ensures multiset(r) <= multiset(s)
    decreases |s|
  {
    if |s| == 0 then []
    else
      assert s == [s[0]] + s[1..];
      (if p(s[0]) then [s[0]] else []) + Filter(s[1..], p)
  }

  /** Filtering distributes over concatenation, so selection keeps the row order. */
  lemma {:induction false} FilterAppend<T(!new)>(a: seq<T>, b: seq<T>, p: T -> bool)
    ensures Filter(a + b, p) == Filter(a, p) + Filter(b, p)
    decreases |a|
  {
    if |a| > 0 {
      assert (a + b)[1..] == a[1..] + b;
      FilterAppend(a[1..], b, p);
    } else {
      assert a + b == b;
    }
  }

  /** Filtering twice with the same mask is filtering once. */
  lemma {:induction false} FilterIdempotent<T(!new)>(s: seq<T>, p: T -> bool)
    ensures Filter(Filter(s, p), p) == Filter(s, p)
    decreases |s|
  {
    if |s| > 0 {
      FilterIdempotent(s[1..], p);
      FilterAppend(if p(s[0]) then [s[0]] else [], Filter(s[1..], p), p);
    }
  }

  /** Two filters in a row keep what the conjunction of their predicates keeps. */
  lemma {:induction false} FilterNarrow<T(!new)>(s: seq<T>, p: T -> bool, q: T -> bool, pq: T -> bool)
    requires forall x :: pq(x) == (p(x) && q(x))
    ensures Filter(Filter(s, p), q) == Filter(s, pq)
    decreases |s|
  {
    if |s| > 0 {
      FilterNarrow(s[1..], p, q, pq);
      FilterAppend(if p(s[0]) then [s[0]] else [], Filter(s[1..], p), q);
    }
  }

  lemma MultisetHead<T>(s: seq<T>)
    requires |s| > 0
    ensures multiset(s) == multiset{s[0]} + multiset(s[1..])
  {
    assert s == [s[0]] + s[1..];
  }

  /** Concatenation of a list of lists, in order. */
  function Flatten<T(!new)>(ss: seq<seq<T>>): (r: seq<T>)
    decreases |ss|
  {
    if |ss| == 0 then [] else ss[0] + Flatten(ss[1..])
  }

  lemma {:induction false} FlattenLength<T(!new)>(ss: seq<seq<T>>, n: nat)
    requires forall i :: 0 <= i < |ss| ==> |ss[i]| == n
    ensures |Flatten(ss)| == |ss| * n
    decreases |ss|
  {
    if |ss| > 0 {
      FlattenLength(ss[1..], n);
    }
  }

  /** Python's `[s[i : i + n] for i in range(0, len(s), n)]`: consecutive batches of `n` rows. */
  function Chunks<T(!new)>(s: seq<T>, n: nat): (r: seq<seq<T>>)
    requires n > 0
    ensures Flatten(r) == s
    ensures forall i :: 0 <= i < |r| ==> 0 < |r[i]| <= n
    ensures forall i :: 0 <= i < |r| - 1 ==> |r[i]| == n
    decreases |s|
  {
    if |s| == 0 then []
    else if |s| <= n then [s]
    else
      var rest := Chunks(s[n..], n);
      assert s == s[..n] + s[n..];
      [s[..n]] + rest
  }

  /** Any split of `s` into full batches of `n` followed by one non-empty batch of at most `n`
      is the one `Chunks` computes: the chunking is fully determined by its contract. */
  lemma {:induction false} ChunksUnique<T(!new)>(s: seq<T>, n: nat, r: seq<seq<T>>)
    requires n > 0
    requires Flatten(r) == s
    requires forall i :: 0 <= i < |r| ==> 0 < |r[i]| <= n
    requires forall i :: 0 <= i < |r| - 1 ==> |r[i]| == n
    ensures r == Chunks(s, n)
    decreases |s|
  {
    if |r| == 0 {
    } else if |r| == 1 {
      assert Flatten(r) == r[0] + Flatten(r[1..]);
      assert r[0] == s;
    } else {
      var rest := r[1..];
      assert |r[0]| == n;
      assert s == r[0] + Flatten(rest);
      assert Flatten(rest) != [] by {
        assert rest[0] == r[1];
        assert Flatten(rest) == rest[0] + Flatten(rest[1..]);
      }
      assert s[..n] == r[0] && s[n..] == Flatten(rest);
      forall i | 0 <= i < |rest| - 1
        ensures |rest[i]| == n
      {
        assert rest[i] == r[i + 1];
      }
      ChunksUnique(s[n..], n, rest);
      assert |s| > n;
    }
  }

  /** The keys occurring in `s`. */
  function KeysOf<T(!new), K(==)>(s: seq<T>, key: T -> K): (ks: set<K>)
    ensures forall i :: 0 <= i < |s| ==> key(s[i]) in ks
  {
    set i | 0 <= i < |s| :: key(s[i])
  }

  /** A key of `s` is carried by some row of `s`. */
  lemma KeyWitness<T(!new), K>(s: seq<T>, key: T -> K, k: K) returns (i: nat)
    requires k in KeysOf(s, key)
    ensures i < |s| && key(s[i]) == k
  {
    i :| 0 <= i < |s| && key(s[i]) == k;
  }

  lemma KeysOfAppend<T(!new), K>(a: seq<T>, b: seq<T>, key: T -> K)
    ensures KeysOf(a + b, key) == KeysOf(a, key) + KeysOf(b, key)
  {
    var s := a + b;
    forall k | k in KeysOf(a, key)
      ensures k in KeysOf(s, key)
    {
      var i :| 0 <= i < |a| && key(a[i]) == k;
      assert s[i] == a[i];
    }
    forall k | k in KeysOf(s, key)
      ensures k in KeysOf(a, key) + KeysOf(b, key)
    {
      var i :| 0 <= i < |s| && key(s[i]) == k;
      if i >= |a| {
        assert s[i] == b[i - |a|];
      }
    }
    forall k | k in KeysOf(b, key)
      ensures k in KeysOf(s, key)
    {
      var i :| 0 <= i < |b| && key(b[i]) == k;
      assert s[|a| + i] == b[i];
    }
  }

  /** No two rows of `s` share a key. */
  predicate UniqueKeys<T(!new), K(==)>(s: seq<T>, key: T -> K) {
    forall i, j :: 0 <= i < j < |s| ==> key(s[i]) != key(s[j])
  }

  /** pandas `drop_duplicates(subset=key, keep="first")`: the first row of every key,
      in order. */
  function DedupBy<T(!new), K(==)>(s: seq<T>, key: T -> K): (r: seq<T>)
    ensures UniqueKeys(r, key)
    ensures KeysOf(r, key) == KeysOf(s, key)
    ensures forall x :: x in r ==> x in s
    ensures |r| <= |s|
    decreases |s|
  {
    if |s| == 0 then []
    else
      var init := s[..|s| - 1];
      var last := s[|s| - 1];
      var d := DedupBy(init, key);
      assert s == init + [last];
      KeysOfAppend(init, [last], key);
      if key(last) in KeysOf(d, key) then d
      else
        KeysOfAppend(d, [last], key);
        d + [last]
  }

  /** Row `i` of `s` is the first row carrying its key. */
  predicate IsFirstOfKey<T(!new), K(==)>(s: seq<T>, key: T -> K, i: nat)
    requires i < |s|
  {
    forall j :: 0 <= j < i ==> key(s[j]) != key(s[i])
  }

  /** Reference definition of keep-first deduplication: exactly the rows that are the first
      of their key, in order. */
  function FirstOfEachKey<T(!new), K(==)>(s: seq<T>, key: T -> K): seq<T>
    decreases |s|
  {
    if |s| == 0 then []
    else FirstOfEachKey(s[..|s| - 1], key)
         + (if IsFirstOfKey(s, key, |s| - 1) then [s[|s| - 1]] else [])
  }

  /** `DedupBy` keeps exactly the first row of every key. */
  lemma {:induction false} DedupByKeepsFirst<T(!new), K>(s: seq<T>, key: T -> K)
    ensures DedupBy(s, key) == FirstOfEachKey(s, key)
    decreases |s|
  {
    if |s| > 0 {
      var init := s[..|s| - 1];
      var last := s[|s| - 1];
      DedupByKeepsFirst(init, key);
      var d := DedupBy(init, key);
      if key(last) in KeysOf(d, key) {
        var j :| 0 <= j < |init| && key(init[j]) == key(last);
        assert s[j] == init[j];
        assert !IsFirstOfKey(s, key, |s| - 1);
      } else {
        forall j | 0 <= j < |s| - 1
          ensures key(s[j]) != key(s[|s| - 1])
        {
          assert s[j] == init[j];
          assert key(init[j]) in KeysOf(init, key);
        }
      }
    }
  }

  /** Every row kept by keep-first deduplication is the first of its key in the input. */
  lemma {:induction false} FirstOfEachKeyOrigin<T(!new), K>(s: seq<T>, key: T -> K, x: T)
    requires x in FirstOfEachKey(s, key)
    ensures exists i :: 0 <= i < |s| && s[i] == x && IsFirstOfKey(s, key, i)
    decreases |s|
  {
    var init := s[..|s| - 1];
    if x in FirstOfEachKey(init, key) {
      FirstOfEachKeyOrigin(init, key, x);
      var i :| 0 <= i < |init| && init[i] == x && IsFirstOfKey(init, key, i);
      assert s[i] == x;
      assert IsFirstOfKey(s, key, i) by {
        forall j | 0 <= j < i
          ensures key(s[j]) != key(s[i])
        {
          assert s[j] == init[j];
        }
      }
    } else {
      assert s[|s| - 1] == x && IsFirstOfKey(s, key, |s| - 1);
    }
  }

  /** Deduplicating and then applying a mask that only looks at the key is the same as masking
      first: the order of the two steps does not matter. */
  lemma {:induction false} DedupFilterCommute<T(!new), K>(s: seq<T>, key: T -> K, p: T -> bool)
    requires forall x, y :: key(x) == key(y) ==> p(x) == p(y)
    ensures Filter(DedupBy(s, key), p) == DedupBy(Filter(s, p), key)
    decreases |s|
  {
    if |s| > 0 {
      var init := s[..|s| - 1];
      var last := s[|s| - 1];
      assert s == init + [last];
      DedupFilterCommute(init, key, p);
      var d := DedupBy(init, key);
      var fi := Filter(init, p);
      assert Filter(d, p) == DedupBy(fi, key);
      DedupBySnoc(init, last, key);
      FilterAppend(init, [last], p);
      FilterSingle(last, p);
      if key(last) in KeysOf(init, key) {
        assert DedupBy(s, key) == d;
        if p(last) {
          assert Filter(s, p) == fi + [last];
          KeyInFilterIff(init, key, p, last);
          DedupBySnoc(fi, last, key);
          assert DedupBy(Filter(s, p), key) == DedupBy(fi, key);
        } else {
          assert Filter(s, p) == fi;
        }
      } else {
        assert DedupBy(s, key) == d + [last];
        FilterAppend(d, [last], p);
        if p(last) {
          assert Filter(s, p) == fi + [last];
          KeyInFilterIff(init, key, p, last);
          DedupBySnoc(fi, last, key);
          assert DedupBy(Filter(s, p), key) == DedupBy(fi, key) + [last];
          assert Filter(d + [last], p) == Filter(d, p) + [last];
        } else {
          assert Filter(s, p) == fi;
          assert Filter(d + [last], p) == Filter(d, p);
        }
      }
    }
  }

  /** Appending a row to `s` keeps it exactly when its key is new. */
  lemma DedupBySnoc<T(!new), K>(init: seq<T>, last: T, key: T -> K)
    ensures DedupBy(init + [last], key)
         == if key(last) in KeysOf(init, key) then DedupBy(init, key) else DedupBy(init, key) + [last]
  {
    var s := init + [last];
    assert s[..|s| - 1] == init;
  }

  lemma FilterSingle<T(!new)>(x: T, p: T -> bool)
    ensures Filter([x], p) == if p(x) then [x] else []
  {
    assert [x][1..] == [];
  }

  lemma KeyInFilterIff<T(!new), K>(s: seq<T>, key: T -> K, p: T -> bool, x: T)
    requires forall a, b :: key(a) == key(b) ==> p(a) == p(b)
    requires p(x)
    ensures key(x) in KeysOf(Filter(s, p), key) <==> key(x) in KeysOf(s, key)
  {
    if key(x) in KeysOf(s, key) {
      var i :| 0 <= i < |s| && key(s[i]) == key(x);
      assert s[i] in Filter(s, p);
      var f := Filter(s, p);
      var j :| 0 <= j < |f| && f[j] == s[i];
    }
    if key(x) in KeysOf(Filter(s, p), key) {
      var f := Filter(s, p);
      var j :| 0 <= j < |f| && key(f[j]) == key(x);
      assert f[j] in s;
      var i :| 0 <= i < |s| && s[i] == f[j];
    }
  }

  /** Rows ordered by ascending `score`. */
  predicate SortedBy<T(!new)>(s: seq<T>, score: T -> int) {
    forall i, j :: 0 <= i < j < |s| ==> score(s[i]) <= score(s[j])
  }

  function Insert<T(!new)>(x: T, s: seq<T>, score: T -> int): (r: seq<T>)
    requires SortedBy(s, score)
    ensures SortedBy(r, score)
    ensures multiset(r) == multiset(s) + multiset{x}
    decreases |s|
  {
    if |s| == 0 then [x]
    else if score(x) <= score(s[0]) then
      assert multiset([x] + s) == multiset(s) + multiset{x};
      [x] + s
    else
      var rest := Insert(x, s[1..], score);
      InsertBehindHead(x, s, rest, score);
      [s[0]] + rest
  }

  lemma InsertBehindHead<T(!new)>(x: T, s: seq<T>, rest: seq<T>, score: T -> int)
    requires |s| > 0 && SortedBy(s, score) && score(s[0]) < score(x)
    requires SortedBy(rest, score) && multiset(rest) == multiset(s[1..]) + multiset{x}
    ensures SortedBy([s[0]] + rest, score)
    ensures multiset([s[0]] + rest) == multiset(s) + multiset{x}
  {
    assert s == [s[0]] + s[1..];
    forall y | y in rest
      ensures score(s[0]) <= score(y)
    {
      assert y in multiset(rest);
      if y != x {
        assert y in multiset(s[1..]);
        var k :| 0 <= k < |s[1..]| && s[1..][k] == y;
        assert s[k + 1] == y;
      }
    }
    var r := [s[0]] + rest;
    forall i, j | 0 <= i < j < |r|
      ensures score(r[i]) <= score(r[j])
    {
      if i == 0 {
        assert r[j] in rest;
      } else {
        assert r[i] == rest[i - 1] && r[j] == rest[j - 1];
      }
    }
  }

  /** A stable sort by ascending `score` (`sort_values`); equal scores keep their input order. */
  function SortBy<T(!new)>(s: seq<T>, score: T -> int): (r: seq<T>)
    ensures SortedBy(r, score)
    ensures multiset(r) == multiset(s)
    decreases |s|
  {
    if |s| == 0 then []
    else
      assert s == [s[0]] + s[1..];
      Insert(s[0], SortBy(s[1..], score), score)
  }

  /** Sort by descending `score`, then keep the first row per key: for every key, one row with
      the largest score among the rows carrying that key. */
  function BestPerKey<T(!new), K(==)>(s: seq<T>, key: T -> K, score: T -> int): (r: seq<T>)
    ensures UniqueKeys(r, key)
    ensures KeysOf(r, key) == KeysOf(s, key)
    ensures forall x :: x in r ==> x in s
    ensures forall i, j :: 0 <= i < |r| && 0 <= j < |s| && key(s[j]) == key(r[i])
              ==> score(s[j]) <= score(r[i])
  {
    var sorted := SortBy(s, x => -score(x));
    BestPerKeyCorrect(s, sorted, key, score);
    DedupBy(sorted, key)
  }

  lemma BestPerKeyCorrect<T(!new), K>(s: seq<T>, sorted: seq<T>, key: T -> K, score: T -> int)
    requires sorted == SortBy(s, x => -score(x))
    ensures var r := DedupBy(sorted, key);
      && KeysOf(r, key) == KeysOf(s, key)
      && (forall x :: x in r ==> x in s)
      && (forall i, j :: 0 <= i < |r| && 0 <= j < |s| && key(s[j]) == key(r[i])
            ==> score(s[j]) <= score(r[i]))
  {
    assert forall x :: x in sorted <==> x in s by {
      forall x
        ensures x in sorted <==> x in s
      {
        assert x in sorted <==> x in multiset(sorted);
        assert x in s <==> x in multiset(s);
      }
    }
    KeysOfSamePermutation(sorted, s, key);
    BestPerKeyMaximal(sorted, s, key, score);
  }

  lemma KeysOfSamePermutation<T(!new), K>(a: seq<T>, b: seq<T>, key: T -> K)
    requires forall x :: x in a <==> x in b
    ensures KeysOf(a, key) == KeysOf(b, key)
  {
    forall k | k in KeysOf(a, key) ensures k in KeysOf(b, key) {
      var i :| 0 <= i < |a| && key(a[i]) == k;
      assert a[i] in b;
      var j :| 0 <= j < |b| && b[j] == a[i];
    }
    forall k | k in KeysOf(b, key) ensures k in KeysOf(a, key) {
      var i :| 0 <= i < |b| && key(b[i]) == k;
      assert b[i] in a;
      var j :| 0 <= j < |a| && a[j] == b[i];
    }
  }

  lemma BestPerKeyMaximal<T(!new), K>(sorted: seq<T>, s: seq<T>, key: T -> K, score: T -> int)
    requires SortedBy(sorted, x => -score(x))
    requires forall x :: x in sorted <==> x in s
    ensures var r := DedupBy(sorted, key);
      forall i, j :: 0 <= i < |r| && 0 <= j < |s| && key(s[j]) == key(r[i])
        ==> score(s[j]) <= score(r[i])
  {
    var r := DedupBy(sorted, key);
    DedupByKeepsFirst(sorted, key);
    forall i, j | 0 <= i < |r| && 0 <= j < |s| && key(s[j]) == key(r[i])
      ensures score(s[j]) <= score(r[i])
    {
      assert r[i] in FirstOfEachKey(sorted, key);
      FirstOfEachKeyOrigin(sorted, key, r[i]);
      var a :| 0 <= a < |sorted| && sorted[a] == r[i] && IsFirstOfKey(sorted, key, a);
      assert s[j] in sorted;
      var b :| 0 <= b < |sorted| && sorted[b] == s[j];
      FirstOfKeyScoresHighest(sorted, key, score, a, b);
    }
  }

  /** In a list sorted by descending score, the first row of a key scores at least as high as
      every row with that key. */
  lemma FirstOfKeyScoresHighest<T(!new), K>(sorted: seq<T>, key: T -> K, score: T -> int, a: nat, b: nat)
    requires SortedBy(sorted, x => -score(x))
    requires a < |sorted| && b < |sorted| && IsFirstOfKey(sorted, key, a) && key(sorted[b]) == key(sorted[a])
    ensures score(sorted[b]) <= score(sorted[a])
  {
    if a < b {
      assert (x => -score(x))(sorted[a]) <= (x => -score(x))(sorted[b]);
    }
  }
}
