/**
  List operations the source leans on: Python's stable sort with a key,
  list comprehensions with a condition, list.remove, and what it means for
  one list to be what is left of another after some entries were popped.
 */
module Sequences {

  /** s is in non-decreasing order of key. */
  ghost predicate SortedBy<T>(s: seq<T>, key: T -> real) {
    forall i, j :: 0 <= i < j < |s| ==> key(s[i]) <= key(s[j])
  }

  /** Inserts x before the first element whose key is not smaller than x's. */
  function InsertBy<T>(x: T, s: seq<T>, key: T -> real): (r: seq<T>)
    ensures |r| == |s| + 1
    ensures multiset(r) == multiset(s) + multiset{x}
    ensures r[0] == x || (s != [] && r[0] == s[0])
  {
    if s == [] || key(x) <= key(s[0]) then [x] + s
    else
      assert s == [s[0]] + s[1..];
      [s[0]] + InsertBy(x, s[1..], key)
  }

  /**
    sorted(s, key=key) / s.sort(key=key): a stable sort. Each element is
    inserted in front of the elements with an equal key that come after it,
    so elements with equal keys keep their order.
   */
  function SortBy<T>(s: seq<T>, key: T -> real): (r: seq<T>)
    ensures |r| == |s|
    ensures multiset(r) == multiset(s)
  {
    if s == [] then []
    else
      assert s == [s[0]] + s[1..];
      InsertBy(s[0], SortBy(s[1..], key), key)
  }

  lemma {:induction false} InsertBySorted<T>(x: T, s: seq<T>, key: T -> real)
    requires SortedBy(s, key)
    ensures SortedBy(InsertBy(x, s, key), key)
  {
    if s != [] && key(x) > key(s[0]) {
      InsertBySorted(x, s[1..], key);
      var t := InsertBy(x, s[1..], key);
      assert key(s[0]) <= key(t[0]);
      forall j | 0 < j < |t| + 1 ensures key(s[0]) <= key(([s[0]] + t)[j]) {
        assert key(t[0]) <= key(t[j - 1]) || j - 1 == 0;
      }
    }
  }

  /** The sort puts the elements in order of their key. */
  lemma {:induction false} SortBySorted<T>(s: seq<T>, key: T -> real)
    ensures SortedBy(SortBy(s, key), key)
  {
    if s != [] {
      SortBySorted(s[1..], key);
      InsertBySorted(s[0], SortBy(s[1..], key), key);
    }
  }

  /** The elements of s whose key equals k, in their order in s. */
  function WithKey<T>(s: seq<T>, key: T -> real, k: real): (r: seq<T>)
    ensures |r| <= |s|
  {
    if s == [] then []
    else (if key(s[0]) == k then [s[0]] else []) + WithKey(s[1..], key, k)
  }

  lemma {:induction false} InsertByStable<T>(x: T, s: seq<T>, key: T -> real, k: real)
    ensures WithKey(InsertBy(x, s, key), key, k) == WithKey([x] + s, key, k)
  {
    if s != [] && key(x) > key(s[0]) {
      var rest := InsertBy(x, s[1..], key);
      var h0 := if key(s[0]) == k then [s[0]] else [];
      var hx := if key(x) == k then [x] else [];
      assert ([s[0]] + rest)[0] == s[0] && ([s[0]] + rest)[1..] == rest;
      assert ([x] + s[1..])[0] == x && ([x] + s[1..])[1..] == s[1..];
      assert ([x] + s)[0] == x && ([x] + s)[1..] == s;
      calc {
        WithKey(InsertBy(x, s, key), key, k);
        WithKey([s[0]] + rest, key, k);
        h0 + WithKey(rest, key, k);
        { InsertByStable(x, s[1..], key, k); }
        h0 + WithKey([x] + s[1..], key, k);
        h0 + (hx + WithKey(s[1..], key, k));
        { assert h0 == [] || hx == []; }
        hx + (h0 + WithKey(s[1..], key, k));
        hx + WithKey(s, key, k);
        WithKey([x] + s, key, k);
      }
    } else {
      assert ([x] + s)[1..] == s;
    }
  }

  /** Stability: for every key value, the elements with that key keep their relative order. */
  lemma {:induction false} SortByStable<T>(s: seq<T>, key: T -> real, k: real)
    ensures WithKey(SortBy(s, key), key, k) == WithKey(s, key, k)
  {
    if s != [] {
      SortByStable(s[1..], key, k);
      InsertByStable(s[0], SortBy(s[1..], key), key, k);
      assert ([s[0]] + SortBy(s[1..], key))[1..] == SortBy(s[1..], key);
    }
  }

  /** The sum of f over s. */
  function SumBy<T>(s: seq<T>, f: T -> nat): nat {
    if s == [] then 0 else f(s[0]) + SumBy(s[1..], f)
  }

  lemma {:induction false} SumByInsert<T>(x: T, s: seq<T>, key: T -> real, f: T -> nat)
    ensures SumBy(InsertBy(x, s, key), f) == f(x) + SumBy(s, f)
  {
    if s != [] && key(x) > key(s[0]) {
      SumByInsert(x, s[1..], key, f);
      assert ([s[0]] + InsertBy(x, s[1..], key))[1..] == InsertBy(x, s[1..], key);
    } else {
      assert ([x] + s)[1..] == s;
    }
  }

  /** A prefix one longer is the shorter prefix and one more element. */
  lemma PrefixSnoc<T>(s: seq<T>, m: nat)
    requires 0 < m <= |s|
    ensures s[..m] == s[..m - 1] + [s[m - 1]]
  {
  }

  /** Summing a list extended by one element. */
  lemma {:induction false} SumBySnoc<T>(s: seq<T>, x: T, f: T -> nat)
    ensures SumBy(s + [x], f) == SumBy(s, f) + f(x)
  {
    if s == [] {
      assert [x][1..] == [];
    } else {
      SumBySnoc(s[1..], x, f);
      assert (s + [x])[1..] == s[1..] + [x];
    }
  }

  /** Sorting does not change a sum over the elements. */
  lemma {:induction false} SumBySort<T>(s: seq<T>, key: T -> real, f: T -> nat)
    ensures SumBy(SortBy(s, key), f) == SumBy(s, f)
  {
    if s != [] {
      SumBySort(s[1..], key, f);
      SumByInsert(s[0], SortBy(s[1..], key), key, f);
    }
  }

  /**
    The concatenation of g(k, s[k]) for k below n: what a loop over
    enumerate(s) collects when each step appends the list g gives it.
   */
  function Flatten<T, U>(s: seq<T>, g: (nat, T) -> seq<U>, n: nat): seq<U>
    requires n <= |s|
  {
    if n == 0 then [] else Flatten(s, g, n - 1) + g(n - 1, s[n - 1])
  }

  /** Each entry of the concatenation comes from some step k, at some position p of what g gave there. */
  lemma {:induction false} FlattenAt<T, U>(s: seq<T>, g: (nat, T) -> seq<U>, n: nat, i: nat) returns (k: nat, p: nat)
    requires n <= |s| && i < |Flatten(s, g, n)|
    ensures k < n && p < |g(k, s[k])| && Flatten(s, g, n)[i] == g(k, s[k])[p]
  {
    var front := Flatten(s, g, n - 1);
    if i < |front| {
      k, p := FlattenAt(s, g, n - 1, i);
    } else {
      k, p := n - 1, i - |front|;
    }
  }

  /** Nothing a step gives is lost. */
  lemma {:induction false} FlattenComplete<T, U>(s: seq<T>, g: (nat, T) -> seq<U>, n: nat, k: nat, p: nat)
    requires k < n <= |s| && p < |g(k, s[k])|
    ensures g(k, s[k])[p] in Flatten(s, g, n)
  {
    var front := Flatten(s, g, n - 1);
    if k < n - 1 {
      FlattenComplete(s, g, n - 1, k, p);
    } else {
      assert Flatten(s, g, n)[|front| + p] == g(k, s[k])[p];
    }
  }

  /** Two entries come in the order of their steps, and of their positions within one step. */
  lemma {:induction false} FlattenOrder<T, U>(s: seq<T>, g: (nat, T) -> seq<U>, n: nat, i: nat, j: nat)
    returns (ki: nat, pi: nat, kj: nat, pj: nat)
    requires n <= |s| && i < j < |Flatten(s, g, n)|
    ensures ki < n && pi < |g(ki, s[ki])| && Flatten(s, g, n)[i] == g(ki, s[ki])[pi]
    ensures kj < n && pj < |g(kj, s[kj])| && Flatten(s, g, n)[j] == g(kj, s[kj])[pj]
    ensures ki < kj || (ki == kj && pi < pj)
  {
    var front := Flatten(s, g, n - 1);
    if j < |front| {
      ki, pi, kj, pj := FlattenOrder(s, g, n - 1, i, j);
    } else if i < |front| {
      ki, pi := FlattenAt(s, g, n - 1, i);
      kj, pj := n - 1, j - |front|;
    } else {
      ki, pi, kj, pj := n - 1, i - |front|, n - 1, j - |front|;
    }
  }

  /** When every step gives at most one entry, there are at most n entries. */
  lemma {:induction false} FlattenAtMostOne<T, U>(s: seq<T>, g: (nat, T) -> seq<U>, n: nat)
    requires n <= |s|
    requires forall k :: 0 <= k < n ==> |g(k, s[k])| <= 1
    ensures |Flatten(s, g, n)| <= n
  {
    if n > 0 {
      FlattenAtMostOne(s, g, n - 1);
    }
  }

  /** When step k gives at most size(s[k]) entries, there are at most the sum of the sizes. */
  lemma {:induction false} FlattenAtMost<T, U>(s: seq<T>, g: (nat, T) -> seq<U>, n: nat, size: T -> nat)
    requires n <= |s|
    requires forall k :: 0 <= k < n ==> |g(k, s[k])| <= size(s[k])
    ensures |Flatten(s, g, n)| <= SumBy(s[..n], size)
  {
    if n > 0 {
      FlattenAtMost(s, g, n - 1, size);
      PrefixSnoc(s, n);
      SumBySnoc(s[..n - 1], s[n - 1], size);
    }
  }

  /** One more step of a loop that builds prefix + Flatten(s, g, n) by appending what g gives. */
  lemma FlattenExtend<T, U>(s: seq<T>, g: (nat, T) -> seq<U>, n: nat, prefix: seq<U>, acc: seq<U>, step: seq<U>)
    requires n < |s|
    requires acc == prefix + Flatten(s, g, n)
    requires step == g(n, s[n])
    ensures acc + step == prefix + Flatten(s, g, n + 1)
  {
    calc {
      acc + step;
      (prefix + Flatten(s, g, n)) + step;
      prefix + (Flatten(s, g, n) + step);
      prefix + Flatten(s, g, n + 1);
    }
  }

  /** [x for x in s if p(x)]. */
  function KeepIf<T>(s: seq<T>, p: T -> bool): (r: seq<T>)
    ensures |r| <= |s|
  {
    if s == [] then []
    else (if p(s[0]) then [s[0]] else []) + KeepIf(s[1..], p)
  }

  /** The filtered list holds exactly the entries of s that satisfy p. */
  lemma {:induction false} KeepIfMembers<T>(s: seq<T>, p: T -> bool, x: T)
    ensures x in KeepIf(s, p) <==> x in s && p(x)
  {
    if s != [] {
      KeepIfMembers(s[1..], p, x);
      assert s == [s[0]] + s[1..];
    }
  }

  /** Filtering a concatenation filters each part. */
  lemma {:induction false} KeepIfAppend<T>(a: seq<T>, b: seq<T>, p: T -> bool)
    ensures KeepIf(a + b, p) == KeepIf(a, p) + KeepIf(b, p)
  {
    if a == [] {
      assert a + b == b;
    } else {
      var ab := a + b;
      var head := if p(a[0]) then [a[0]] else [];
      assert ab[0] == a[0] && ab[1..] == a[1..] + b;
      calc {
        KeepIf(ab, p);
        head + KeepIf(a[1..] + b, p);
        { KeepIfAppend(a[1..], b, p); }
        head + (KeepIf(a[1..], p) + KeepIf(b, p));
        (head + KeepIf(a[1..], p)) + KeepIf(b, p);
        KeepIf(a, p) + KeepIf(b, p);
      }
    }
  }

  /** Filtering a list of one entry keeps it exactly when it satisfies p. */
  lemma KeepIfSingle<T>(x: T, p: T -> bool)
    ensures KeepIf([x], p) == if p(x) then [x] else []
  {
    assert [x][1..] == [];
  }

  /** Filtering a list extended by one entry. */
  lemma KeepIfSnoc<T>(a: seq<T>, x: T, p: T -> bool)
    ensures KeepIf(a + [x], p) == KeepIf(a, p) + (if p(x) then [x] else [])
  {
    KeepIfAppend(a, [x], p);
    KeepIfSingle(x, p);
  }

  /** The filtered list keeps, in order, entries of the original: it is a sub-multiset. */
  lemma {:induction false} KeepIfSubMultiset<T>(s: seq<T>, p: T -> bool)
    ensures multiset(KeepIf(s, p)) <= multiset(s)
  {
    if s != [] {
      KeepIfSubMultiset(s[1..], p);
      assert s == [s[0]] + s[1..];
    }
  }

  /** list.remove(v): deletes the first entry equal to v; Python raises ValueError when there is none. */
  function RemoveFirst<T(==)>(s: seq<T>, v: T): (r: seq<T>)
    requires v in s
    ensures |r| == |s| - 1 && multiset(r) == multiset(s) - multiset{v}
  {
    assert s == [s[0]] + s[1..];
    if s[0] == v then s[1..]
    else [s[0]] + RemoveFirst(s[1..], v)
  }

  /**
    for x in xs: s.remove(x), one entry after the other. An x that is no
    longer there is skipped; RemoveAllCounts shows that this never happens
    when xs is a sub-multiset of s.
   */
  function RemoveAll<T(==)>(s: seq<T>, xs: seq<T>): (r: seq<T>)
    ensures |r| <= |s|
  {
    if xs == [] then s
    else
      var rest := RemoveAll(s, xs[..|xs| - 1]);
      if xs[|xs| - 1] in rest then RemoveFirst(rest, xs[|xs| - 1]) else rest
  }

  /** Removing a sub-multiset removes exactly its entries, one occurrence each. */
  lemma {:induction false} RemoveAllCounts<T>(s: seq<T>, xs: seq<T>)
    requires multiset(xs) <= multiset(s)
    ensures |RemoveAll(s, xs)| == |s| - |xs|
    ensures multiset(RemoveAll(s, xs)) + multiset(xs) == multiset(s)
  {
    if xs != [] {
      var init, last := xs[..|xs| - 1], xs[|xs| - 1];
      assert xs == init + [last];
      assert multiset(xs) == multiset(init) + multiset{last};
      RemoveAllCounts(s, init);
      var rest := RemoveAll(s, init);
      assert multiset(rest)[last] == multiset(s)[last] - multiset(init)[last] >= 1;
    }
  }

  /** A loop that builds target as done + what is left to produce moves one entry x from the second part to the first. */
  lemma ConsumeHead<T>(done: seq<T>, x: T, rest: seq<T>, target: seq<T>)
    requires done + ([x] + rest) == target
    ensures (done + [x]) + rest == target
  {
    assert (done + [x]) + rest == done + ([x] + rest);
  }

  /** When no earlier entry equals s[k], removing the value s[k] removes position k. */
  lemma {:induction false} RemoveFirstAt<T>(s: seq<T>, k: nat)
    requires k < |s|
    requires forall m :: 0 <= m < k ==> s[m] != s[k]
    ensures RemoveFirst(s, s[k]) == s[..k] + s[k + 1..]
  {
    if k > 0 {
      var t := s[1..];
      assert t[k - 1] == s[k];
      assert s[0] != s[k];
      assert t[..k - 1] == s[1..k];
      assert t[k..] == s[k + 1..];
      calc {
        RemoveFirst(s, s[k]);
        [s[0]] + RemoveFirst(t, s[k]);
        { RemoveFirstAt(t, k - 1); }
        [s[0]] + (s[1..k] + s[k + 1..]);
        ([s[0]] + s[1..k]) + s[k + 1..];
        { assert [s[0]] + s[1..k] == s[..k]; }
        s[..k] + s[k + 1..];
      }
    }
  }

  /**
    idx lists, in increasing order, the positions in s that the entries of r
    came from: r is what is left of s after some entries were removed.
   */
  ghost predicate Embedding<T>(idx: seq<nat>, r: seq<T>, s: seq<T>) {
    && |idx| == |r|
    && (forall k :: 0 <= k < |idx| ==> idx[k] < |s| && r[k] == s[idx[k]])
    && (forall k, l :: 0 <= k < l < |idx| ==> idx[k] < idx[l])
  }

  /** list.pop(p): the list without position p. */
  function Pop<T>(s: seq<T>, p: nat): (r: seq<T>)
    requires p < |s|
    ensures |r| == |s| - 1
    ensures forall k :: 0 <= k < |r| ==> r[k] == if k < p then s[k] else s[k + 1]
  {
    s[..p] + s[p + 1..]
  }

  /** Popping position p keeps every entry at another position. */
  lemma StillThereAfterPop<T>(s: seq<T>, p: nat, m: nat)
    ensures p < |s| && m < |s| && m != p ==> s[m] in s[..p] + s[p + 1..]
  {
    if p < |s| && m < |s| && m != p {
      assert (s[..p] + s[p + 1..])[if m < p then m else m - 1] == s[m];
    }
  }

  /** Increasing positions into s number at most |s|. */
  lemma EmbeddingLength<T>(idx: seq<nat>, r: seq<T>, s: seq<T>)
    requires Embedding(idx, r, s)
    ensures |r| <= |s|
  {
    if |idx| > 0 {
      IncreasingAtLeastIndex(idx, |idx| - 1);
    }
  }

  lemma {:induction false} IncreasingAtLeastIndex(idx: seq<nat>, k: nat)
    requires k < |idx|
    requires forall i, j :: 0 <= i < j < |idx| ==> idx[i] < idx[j]
    ensures idx[k] >= k
  {
    if k > 0 {
      IncreasingAtLeastIndex(idx, k - 1);
    }
  }

  /** Popping position p keeps the embedding. */
  lemma EmbeddingPop<T>(idx: seq<nat>, r: seq<T>, s: seq<T>, p: nat)
    requires Embedding(idx, r, s) && p < |r|
    ensures Embedding(idx[..p] + idx[p + 1..], r[..p] + r[p + 1..], s)
  {
    var idx', r' := idx[..p] + idx[p + 1..], r[..p] + r[p + 1..];
    forall k | 0 <= k < |idx'|
      ensures idx'[k] == (if k < p then idx[k] else idx[k + 1])
      ensures r'[k] == (if k < p then r[k] else r[k + 1])
    {
    }
  }

  /** One pop of a deduplication pass, as positions in the pass's input list. */
  datatype Removal = Removal(dropped: nat, keeper: nat)

  /** Every input position that is no longer kept was dropped by some logged pop. */
  ghost predicate Logged(size: nat, kept: seq<nat>, log: seq<Removal>) {
    forall n :: 0 <= n < size && n !in kept ==> exists e :: e in log && e.dropped == n
  }

  /** The identity embedding keeps every position, so nothing needs to be logged yet. */
  lemma LoggedInitially<T>(s: seq<T>)
    ensures Logged(|s|, seq(|s|, k => k), [])
  {
    var kept: seq<nat> := seq(|s|, k => k);
    forall n | 0 <= n < |s| ensures n in kept {
      assert kept[n] == n;
    }
  }

  /**
    Popping position p of an embedded list while logging a removal of the
    input position kept[p] keeps the embedding and the log complete.
   */
  lemma PopLogged<T>(s: seq<T>, kept: seq<nat>, kept': seq<nat>, r: seq<T>, log: seq<Removal>, p: nat, e: Removal)
    requires Embedding(kept, r, s) && p < |r| && e.dropped == kept[p]
    requires kept' == kept[..p] + kept[p + 1..]
    requires Logged(|s|, kept, log)
    ensures Embedding(kept', r[..p] + r[p + 1..], s)
    ensures Logged(|s|, kept', log + [e])
  {
    EmbeddingPop(kept, r, s, p);
    forall n | 0 <= n < |s| && n !in kept'
      ensures exists e' :: e' in log + [e] && e'.dropped == n
    {
      if n in kept {
        var m :| 0 <= m < |kept| && kept[m] == n;
        StillThereAfterPop(kept, p, m);
        assert (log + [e])[|log|] == e;
      } else {
        var e0 :| e0 in log && e0.dropped == n;
        assert e0 in log + [e];
      }
    }
  }
}
