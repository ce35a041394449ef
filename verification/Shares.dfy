/** Buckets of nodes filled by a placement, and sums over sequences, whatever their order. */
module Shares {
  import opened Ordering
  import opened Sequences
  import G = Greedy

  function SumOf<T>(v: T -> real, s: seq<T>): real {
    if s == [] then 0.0 else SumOf(v, s[..|s| - 1]) + v(s[|s| - 1])
  }

  lemma {:induction false} SumOfRemove<T>(v: T -> real, s: seq<T>, i: nat)
    requires i < |s|
    ensures SumOf(v, s) == SumOf(v, s[..i] + s[i + 1..]) + v(s[i])
  {
    var n := |s| - 1;
    if i < n {
      SumOfRemove(v, s[..n], i);
      assert (s[..i] + s[i + 1..])[..n - 1] == s[..n][..i] + s[..n][i + 1..];
    } else {
      assert s[..i] + s[i + 1..] == s[..n];
    }
  }

  lemma MultisetRemove<T>(s: seq<T>, i: nat)
    requires i < |s|
    ensures multiset(s[..i] + s[i + 1..]) == multiset(s) - multiset{s[i]}
  {
    assert s == s[..i] + [s[i]] + s[i + 1..];
  }

  /** A sum depends only on what is summed, not on the order. */
  lemma {:induction false} SumPermutes<T>(v: T -> real, a: seq<T>, b: seq<T>)
    requires multiset(a) == multiset(b)
    ensures SumOf(v, a) == SumOf(v, b)
  {
    assert |a| == |multiset(a)| == |multiset(b)| == |b|;
    if a != [] {
      var n := |a| - 1;
      assert a[n] in multiset(b);
      var i :| 0 <= i < |b| && b[i] == a[n];
      var b' := b[..i] + b[i + 1..];
      MultisetRemove(b, i);
      MultisetRemove(a, n);
      assert a[..n] + a[n + 1..] == a[..n];
      SumOfRemove(v, b, i);
      SumPermutes(v, a[..n], b');
    }
  }

  /** The buckets the placement `g` fills, each in the order its elements were handed out. */
  function Buckets<T>(s: seq<T>, g: seq<nat>, workers: nat): (b: seq<seq<T>>)
    requires |g| == |s| && forall i :: 0 <= i < |g| ==> g[i] < workers
    ensures |b| == workers
  {
    if s == [] then seq(workers, _ => [])
    else
      var n := |s| - 1;
      var b := Buckets(s[..n], g[..n], workers);
      b[g[n] := b[g[n]] + [s[n]]]
  }

  function Flatten<T>(b: seq<seq<T>>): seq<T> {
    if b == [] then [] else Flatten(b[..|b| - 1]) + b[|b| - 1]
  }

  lemma {:induction false} FlattenEmpty<T>(b: seq<seq<T>>)
    requires forall w :: 0 <= w < |b| ==> b[w] == []
    ensures Flatten(b) == []
  {
    if b != [] {
      FlattenEmpty(b[..|b| - 1]);
    }
  }

  lemma {:induction false} InFlatten<T>(b: seq<seq<T>>, x: T)
    ensures x in Flatten(b) <==> exists w :: 0 <= w < |b| && x in b[w]
  {
    if b != [] {
      var n := |b| - 1;
      InFlatten(b[..n], x);
      if x in Flatten(b[..n]) {
        var w :| 0 <= w < n && x in b[..n][w];
        assert x in b[w];
      }
      if w :| 0 <= w < |b| && x in b[w] {
        assert w < n ==> x in b[..n][w];
      }
    }
  }

  lemma {:induction false} FlattenAppend<T>(b: seq<seq<T>>, w: nat, x: T)
    requires w < |b|
    ensures multiset(Flatten(b[w := b[w] + [x]])) == multiset(Flatten(b)) + multiset{x}
  {
    var n := |b| - 1;
    UpdateInit(b, w, b[w] + [x]);
    if w < n {
      FlattenAppend(b[..n], w, x);
      FlattenLast(b, b[w := b[w] + [x]], b[..n][w := b[w] + [x]], b[n]);
    } else {
      FlattenLast(b, b[w := b[w] + [x]], b[..n], b[n] + [x]);
    }
  }

  lemma FlattenLast<T>(b: seq<seq<T>>, c: seq<seq<T>>, init: seq<seq<T>>, last: seq<T>)
    requires |b| == |c| > 0 && c[..|c| - 1] == init && c[|c| - 1] == last
    ensures multiset(Flatten(b)) == multiset(Flatten(b[..|b| - 1])) + multiset(b[|b| - 1])
    ensures multiset(Flatten(c)) == multiset(Flatten(init)) + multiset(last)
  {
    assert Flatten(c) == Flatten(init) + last;
    assert Flatten(b) == Flatten(b[..|b| - 1]) + b[|b| - 1];
  }

  /** Nothing is lost or duplicated: the buckets hold exactly what was handed out. */
  lemma {:induction false} BucketsConserve<T>(s: seq<T>, g: seq<nat>, workers: nat)
    requires |g| == |s| && forall i :: 0 <= i < |g| ==> g[i] < workers
    ensures multiset(Flatten(Buckets(s, g, workers))) == multiset(s)
  {
    if s == [] {
      FlattenEmpty(Buckets(s, g, workers));
    } else {
      var n := |s| - 1;
      var b := Buckets(s[..n], g[..n], workers);
      BucketsConserve(s[..n], g[..n], workers);
      FlattenAppend(b, g[n], s[n]);
      OneMore(s, n);
      assert s[..n + 1] == s;
    }
  }

  /** Bucket `w` holds exactly what was placed on `w`. */
  lemma {:induction false} BucketMembers<T>(s: seq<T>, g: seq<nat>, workers: nat, w: nat, x: T)
    requires |g| == |s| && forall i :: 0 <= i < |g| ==> g[i] < workers
    requires w < workers
    ensures x in Buckets(s, g, workers)[w] <==> exists i :: 0 <= i < |s| && s[i] == x && g[i] == w
  {
    if s != [] {
      var n := |s| - 1;
      BucketMembers(s[..n], g[..n], workers, w, x);
      var b, b' := Buckets(s, g, workers)[w], Buckets(s[..n], g[..n], workers)[w];
      if x in b {
        if x !in b' {
          assert s[n] == x && g[n] == w;
        } else {
          var i :| 0 <= i < n && s[..n][i] == x && g[..n][i] == w;
          assert s[i] == x && g[i] == w;
        }
      }
      if i :| 0 <= i < |s| && s[i] == x && g[i] == w {
        if i < n {
          assert s[..n][i] == x && g[..n][i] == w;
        }
      }
    }
  }

  /** An element that occurs once is in the bucket it was sent to and in no other. */
  lemma BucketOf<T>(s: seq<T>, g: seq<nat>, workers: nat, w: nat, i: nat)
    requires |g| == |s| && (forall k :: 0 <= k < |g| ==> g[k] < workers) && w < workers && i < |s|
    requires forall j, k :: 0 <= j < k < |s| ==> s[j] != s[k]
    ensures s[i] in Buckets(s, g, workers)[w] <==> w == g[i]
  {
    BucketMembers(s, g, workers, w, s[i]);
    forall k | 0 <= k < |s| && k != i ensures s[k] != s[i] {
    }
  }

  function Map<T, U>(f: T -> U, s: seq<T>): (r: seq<U>)
    ensures |r| == |s| && forall i :: 0 <= i < |s| ==> r[i] == f(s[i])
  {
    seq(|s|, i requires 0 <= i < |s| => f(s[i]))
  }

  /** A worker's load is the sum over its bucket. */
  lemma {:induction false} BucketSum<T>(v: T -> real, s: seq<T>, g: seq<nat>, workers: nat, w: nat)
    requires |g| == |s| && forall i :: 0 <= i < |g| ==> g[i] < workers
    requires w < workers
    ensures SumOf(v, Buckets(s, g, workers)[w]) == G.Load(Map(v, s), g, w)
  {
    if s != [] {
      var n := |s| - 1;
      BucketSum(v, s[..n], g[..n], workers, w);
      assert Map(v, s)[..n] == Map(v, s[..n]);
      var b := Buckets(s[..n], g[..n], workers);
      assert g[n] == w ==> (b[w] + [s[n]])[..|b[w]|] == b[w];
    }
  }

  lemma {:induction false} TotalIsSum<T>(v: T -> real, s: seq<T>)
    ensures G.Total(Map(v, s)) == SumOf(v, s)
  {
    if s != [] {
      var n := |s| - 1;
      TotalIsSum(v, s[..n]);
      assert Map(v, s)[..n] == Map(v, s[..n]);
    }
  }

  /** The part of `v` that an assignment sends to worker `w`. */
  function Portion<T(!new)>(v: T -> real, alt: T -> nat, w: nat): T -> real {
    x => if alt(x) == w then v(x) else 0.0
  }

  /** What worker `w` carries under any other assignment is the same in every order of the nodes. */
  lemma {:induction false} PortionIsLoad<T(!new)>(v: T -> real, alt: T -> nat, s: seq<T>, w: nat)
    ensures SumOf(Portion(v, alt, w), s) == G.Load(Map(v, s), Map(alt, s), w)
  {
    if s != [] {
      var n := |s| - 1;
      PortionIsLoad(v, alt, s[..n], w);
      assert Map(v, s)[..n] == Map(v, s[..n]) && Map(alt, s)[..n] == Map(alt, s[..n]);
    }
  }

  /** The greedy loop's state after `i` elements. */
  ghost predicate Dealt<T(!new)>(s: seq<T>, p: seq<real>, workers: nat, i: nat, loads: seq<real>, b: seq<seq<T>>)
    requires workers > 0 && |s| == |p| && i <= |s|
  {
    && loads == G.Loads(p[..i], G.Place(p[..i], workers), workers)
    && b == Buckets(s[..i], G.Place(p[..i], workers), workers)
  }

  /** One turn of the greedy loop: the least-loaded worker takes the next element and its cost. */
  lemma DealOne<T(!new)>(s: seq<T>, p: seq<real>, workers: nat, i: nat, loads: seq<real>, b: seq<seq<T>>, target: nat)
    requires workers > 0 && |s| == |p| && i < |s| && Dealt(s, p, workers, i, loads, b)
    requires target == G.LeastLoaded(loads)
    ensures Dealt(s, p, workers, i + 1, loads[target := loads[target] + p[i]], b[target := b[target] + [s[i]]])
  {
    var q, g := p[..i], G.Place(p[..i], workers);
    var q', g' := p[..i + 1], G.Place(p[..i + 1], workers);
    assert q'[..i] == q && s[..i + 1][..i] == s[..i] && g' == g + [target] && g'[..i] == g;
    assert b[target := b[target] + [s[i]]] == Buckets(s[..i + 1], g', workers);
    forall w | 0 <= w < workers ensures loads[target := loads[target] + p[i]][w] == G.Load(q', g', w) {
      assert G.Load(q', g', w) == G.Load(q, g, w) + if target == w then p[i] else 0.0;
    }
    assert loads[target := loads[target] + p[i]] == G.Loads(q', g', workers);
  }

  lemma MapRemove<T, U>(f: T -> U, s: seq<T>, i: nat)
    requires i < |s|
    ensures multiset(Map(f, s)) == multiset(Map(f, s[..i] + s[i + 1..])) + multiset{f(s[i])}
  {
    MultisetRemove(Map(f, s), i);
    assert Map(f, s)[..i] + Map(f, s)[i + 1..] == Map(f, s[..i] + s[i + 1..]);
    assert f(s[i]) in Map(f, s);
  }

  lemma {:induction false} MapMultiset<T, U>(f: T -> U, a: seq<T>, b: seq<T>)
    requires multiset(a) == multiset(b)
    ensures multiset(Map(f, a)) == multiset(Map(f, b))
  {
    assert |a| == |multiset(a)| == |multiset(b)| == |b|;
    if a != [] {
      var n := |a| - 1;
      assert a[n] in multiset(b);
      var i :| 0 <= i < |b| && b[i] == a[n];
      MultisetRemove(b, i);
      MultisetRemove(a, n);
      assert a[..n] + a[n + 1..] == a[..n];
      MapMultiset(f, a[..n], b[..i] + b[i + 1..]);
      MapRemove(f, a, n);
      MapRemove(f, b, i);
    }
  }

  lemma {:induction false} InsertMaps<T, U>(f: T -> U, le: (T, T) -> bool, le': (U, U) -> bool, x: T, s: seq<T>)
    requires forall y :: y in s ==> le(x, y) == le'(f(x), f(y))
    ensures Map(f, Insert(le, x, s)) == Insert(le', f(x), Map(f, s))
  {
    if s != [] && !le(x, s[0]) {
      InsertMaps(f, le, le', x, s[1..]);
      assert Map(f, s)[1..] == Map(f, s[1..]);
      assert Map(f, [s[0]] + Insert(le, x, s[1..])) == [f(s[0])] + Map(f, Insert(le, x, s[1..]));
    } else {
      assert Map(f, [x] + s) == [f(x)] + Map(f, s);
    }
  }

  /** Sorting commutes with a renaming that keeps the order. */
  lemma {:induction false} SortMaps<T, U>(f: T -> U, le: (T, T) -> bool, le': (U, U) -> bool, s: seq<T>)
    requires forall x, y :: x in s && y in s ==> le(x, y) == le'(f(x), f(y))
    ensures Map(f, Sort(le, s)) == Sort(le', Map(f, s))
  {
    if s != [] {
      SortMaps(f, le, le', s[1..]);
      SortPermutes(le, s[1..]);
      forall y | y in Sort(le, s[1..]) ensures le(s[0], y) == le'(f(s[0]), f(y)) {
        assert y in multiset(Sort(le, s[1..]));
      }
      InsertMaps(f, le, le', s[0], Sort(le, s[1..]));
      assert Map(f, s)[1..] == Map(f, s[1..]);
    }
  }
}
