/** The Fisher-Yates shuffle with indices scaled from rand() by division. */
module Shuffle {

  /** The index that step i of n computes from rand() == r, for a given RAND_MAX. */
  function Index(r: nat, randMax: nat, n: nat, i: nat): nat
    requires i < n
  {
    i + r / (randMax / (n - i) + 1)
  }

  /** Scaled division never leaves the rest of the array. */
  lemma IndexInRange(r: nat, randMax: nat, n: nat, i: nat)
    requires i < n && r <= randMax
    ensures i <= Index(r, randMax, n, i) < n
  {
    var d := n - i;
    var t := randMax / d;
    assert randMax < d * (t + 1) by {
      DivBounds(randMax, d);
    }
    assert r / (t + 1) < d by {
      DivBounds(r, t + 1);
      if r / (t + 1) >= d {
        ProductGrows(d, r / (t + 1), t + 1);
      }
    }
  }

  lemma DivBounds(x: nat, d: nat)
    requires d > 0
    ensures d * (x / d) <= x < d * (x / d) + d
  {
  }

  lemma ProductGrows(a: nat, b: nat, c: nat)
    requires a <= b
    ensures a * c <= b * c
  {
  }

  lemma DivIs(x: nat, q: nat, d: nat)
    requires d > 0 && q * d <= x < q * d + d
    ensures x / d == q
  {
    DivBounds(x, d);
    var p := x / d;
    if p < q {
      ProductGrows(p + 1, q, d);
    } else if q < p {
      ProductGrows(q + 1, p, d);
    }
  }

  /** Which results of rand() choose place j in step i: those from (j - i) q up to but not
      including (j - i + 1) q, q being the size of a bucket. */
  lemma IndexBuckets(r: nat, randMax: nat, n: nat, i: nat, j: nat)
    requires i <= j < n
    ensures var q := randMax / (n - i) + 1;
            Index(r, randMax, n, i) == j <==> (j - i) * q <= r < (j - i + 1) * q
  {
    var q := randMax / (n - i) + 1;
    assert (j - i + 1) * q == (j - i) * q + q;
    DivBounds(r, q);
    if (j - i) * q <= r < (j - i) * q + q {
      DivIs(r, j - i, q);
    }
  }

  /** Exactly when step i can choose place j: the least rand() value that does so must exist. */
  lemma IndexReached(randMax: nat, n: nat, i: nat, j: nat)
    requires i <= j < n
    ensures (exists r: nat :: r <= randMax && Index(r, randMax, n, i) == j)
            <==> (j - i) * (randMax / (n - i) + 1) <= randMax
  {
    var q := randMax / (n - i) + 1;
    var r0 := (j - i) * q;
    if r0 <= randMax {
      DivIs(r0, j - i, q);
      assert Index(r0, randMax, n, i) == j;
    }
    forall r: nat | r <= randMax && Index(r, randMax, n, i) == j
      ensures r0 <= randMax
    {
      DivBounds(r, q);
    }
  }

  /** With RAND_MAX >= d (d - 1) every one of d places can be chosen. */
  lemma AllPlacesReached(randMax: nat, d: nat, x: nat)
    requires d > 0 && x < d && d * (d - 1) <= randMax
    ensures x * (randMax / d + 1) <= randMax
  {
    var t := randMax / d;
    DivBounds(randMax, d);
    assert t >= d - 1 by {
      if t < d - 1 {
        ProductGrows(t + 1, d - 1, d);
      }
    }
    ProductGrows(x, d - 1, t + 1);
    assert (d - 1) * (t + 1) == d * t + d - 1 - t;
  }

  // ---------------------------------------------------------------- the shuffle as a function

  function Swap(a: seq<int>, i: nat, j: nat): (b: seq<int>)
    requires i < |a| && j < |a|
    ensures |b| == |a|
  {
    a[i := a[j]][j := a[i]]
  }

  function Steps(n: nat): nat {
    if n > 1 then n - 1 else 0
  }

  /** Index j_k is chosen among places k .. n-1, for every step k. */
  ghost predicate Choices(n: nat, js: seq<nat>) {
    |js| == Steps(n) && forall k :: 0 <= k < |js| ==> k <= js[k] < n
  }

  /** The array after steps i, i+1, ... with the chosen indices. */
  ghost function Run(a: seq<int>, js: seq<nat>, i: nat): (b: seq<int>)
    requires Choices(|a|, js) && i <= |js|
    ensures |b| == |a|
    decreases |js| - i
  {
    if i == |js| then a else Run(Swap(a, i, js[i]), js, i + 1)
  }

  lemma RunNext(a: seq<int>, js: seq<nat>, i: nat)
    requires Choices(|a|, js) && i < |js|
    ensures Run(a, js, i) == Run(Swap(a, i, js[i]), js, i + 1)
  {
  }

  lemma SwapPermutes(a: seq<int>, i: nat, j: nat)
    requires i < |a| && j < |a|
    ensures multiset(Swap(a, i, j)) == multiset(a)
  {
  }

  lemma {:induction false} RunPermutes(a: seq<int>, js: seq<nat>, i: nat)
    requires Choices(|a|, js) && i <= |js|
    ensures multiset(Run(a, js, i)) == multiset(a)
    decreases |js| - i
  {
    if i < |js| {
      SwapPermutes(a, i, js[i]);
      RunPermutes(Swap(a, i, js[i]), js, i + 1);
    }
  }

  /** Steps from i on leave places below i alone. */
  lemma {:induction false} RunKeepsPrefix(a: seq<int>, js: seq<nat>, i: nat, k: nat)
    requires Choices(|a|, js) && i <= |js| && k < i
    ensures Run(a, js, i)[k] == a[k]
    decreases |js| - i
  {
    if i < |js| {
      RunKeepsPrefix(Swap(a, i, js[i]), js, i + 1, k);
    }
  }

  /** Step i settles place i: it gets the card that stood at the chosen place. */
  lemma StepSettles(a: seq<int>, js: seq<nat>, i: nat)
    requires Choices(|a|, js) && i < |js|
    ensures Run(a, js, i)[i] == a[js[i]]
  {
    RunKeepsPrefix(Swap(a, i, js[i]), js, i + 1, i);
  }

  ghost predicate Distinct(a: seq<int>) {
    forall i, j :: 0 <= i < j < |a| ==> a[i] != a[j]
  }

  lemma SwapDistinct(a: seq<int>, i: nat, j: nat)
    requires Distinct(a) && i < |a| && j < |a|
    ensures Distinct(Swap(a, i, j))
  {
  }

  /** On a duplicate-free array different choices give different orders. */
  lemma {:induction false} RunInjective(a: seq<int>, js: seq<nat>, ks: seq<nat>, i: nat)
    requires Distinct(a) && Choices(|a|, js) && Choices(|a|, ks) && i <= |js|
    requires Run(a, js, i) == Run(a, ks, i)
    ensures js[i..] == ks[i..]
    decreases |js| - i
  {
    if i < |js| {
      var b, c := Swap(a, i, js[i]), Swap(a, i, ks[i]);
      RunKeepsPrefix(b, js, i + 1, i);
      RunKeepsPrefix(c, ks, i + 1, i);
      assert a[js[i]] == b[i] == c[i] == a[ks[i]];
      SwapDistinct(a, i, js[i]);
      RunInjective(b, js, ks, i + 1);
      assert js[i..] == [js[i]] + js[i + 1..];
      assert ks[i..] == [ks[i]] + ks[i + 1..];
    }
  }

  /** Every rearrangement of the array that agrees with it below i is reached from step i. */
  lemma {:induction false} RunSurjective(a: seq<int>, target: seq<int>, i: nat, before: seq<nat>)
    returns (js: seq<nat>)
    requires |a| == |target| && multiset(a) == multiset(target)
    requires i == |before| <= Steps(|a|)
    requires forall k :: 0 <= k < i ==> k <= before[k] < |a| && a[k] == target[k]
    ensures Choices(|a|, js) && js[..i] == before && Run(a, js, i) == target
    decreases |a| - i
  {
    if i < |a| - 1 {
      var j := FindInRest(a, target, i);
      var b := Swap(a, i, j);
      SwapPermutes(a, i, j);
      js := RunSurjective(b, target, i + 1, before + [j]);
      assert js[i] == js[..i + 1][i] == j;
      assert js[..i] == js[..i + 1][..i];
    } else {
      js := before;
      LastAgrees(a, target, i);
    }
  }

  lemma FindInRest(a: seq<int>, target: seq<int>, i: nat) returns (j: nat)
    requires |a| == |target| && multiset(a) == multiset(target) && i < |a| && a[..i] == target[..i]
    ensures i <= j < |a| && a[j] == target[i]
  {
    var x := target[i];
    SplitCount(a, i, x);
    SplitCount(target, i, x);
    assert x == target[i..][0];
    assert x in multiset(a[i..]);
    var k :| 0 <= k < |a[i..]| && a[i..][k] == x;
    j := i + k;
  }

  lemma SplitCount(a: seq<int>, i: nat, x: int)
    requires i <= |a|
    ensures multiset(a)[x] == multiset(a[..i])[x] + multiset(a[i..])[x]
  {
    assert a == a[..i] + a[i..];
  }

  lemma LastAgrees(a: seq<int>, target: seq<int>, i: nat)
    requires |a| == |target| && multiset(a) == multiset(target) && i >= |a| - 1
    requires forall k :: 0 <= k < i && k < |a| ==> a[k] == target[k]
    ensures a == target
  {
    if |a| > 0 {
      var n := |a| - 1;
      assert a[..n] == target[..n];
      var j := FindInRest(a, target, n);
    }
  }

  // ---------------------------------------------------------------- the code

  /** The indices computed from a sequence of rand() results. */
  function Indices(rnd: nat -> nat, randMax: nat, n: nat): (js: seq<nat>)
    ensures |js| == Steps(n)
  {
    FirstIndices(rnd, randMax, n, Steps(n))
  }

  function FirstIndices(rnd: nat -> nat, randMax: nat, n: nat, k: nat): (js: seq<nat>)
    requires k <= n
    ensures |js| == k && forall i :: 0 <= i < k ==> js[i] == Index(rnd(i), randMax, n, i)
  {
    if k == 0 then [] else FirstIndices(rnd, randMax, n, k - 1) + [Index(rnd(k - 1), randMax, n, k - 1)]
  }

  lemma IndicesAreChoices(rnd: nat -> nat, randMax: nat, n: nat)
    requires forall k :: rnd(k) <= randMax
    ensures Choices(n, Indices(rnd, randMax, n))
  {
    forall k | 0 <= k < |Indices(rnd, randMax, n)|
      ensures k <= Indices(rnd, randMax, n)[k] < n
    {
      IndexInRange(rnd(k), randMax, n, k);
    }
  }

  /** The exchange in the loop body. */
  method Exchange(cards: array<int>, i: nat, j: nat)
    requires i < cards.Length && j < cards.Length
    modifies cards
    ensures cards[..] == Swap(old(cards[..]), i, j)
  {
    var t := cards[j];
    cards[j] := cards[i];
    cards[i] := t;
  }

  /** shuffle, in place, for any results of rand(). */
  method ShuffleInPlace(cards: array<int>, rnd: nat -> nat, randMax: nat)
    requires forall k :: rnd(k) <= randMax
    modifies cards
    ensures Choices(cards.Length, Indices(rnd, randMax, cards.Length))
    ensures cards[..] == Run(old(cards[..]), Indices(rnd, randMax, cards.Length), 0)
    ensures multiset(cards[..]) == multiset(old(cards[..]))
  {
    var n := cards.Length;
    IndicesAreChoices(rnd, randMax, n);
    ghost var js := Indices(rnd, randMax, n);
    RunPermutes(cards[..], js, 0);
    ghost var result := Run(cards[..], js, 0);
    if n > 1 {
      var i := 0;
      hide Choices, Index, Swap;
      while i < n - 1
        invariant 0 <= i <= n - 1 && Run(cards[..], js, i) == result
      {
        var j := Index(rnd(i), randMax, n, i);
        assert j == js[i] && j < n by {
          IndexInRange(rnd(i), randMax, n, i);
        }
        Exchange(cards, i, j);
        i := i + 1;
      }
    }
  }

  /** Fairness of reach: if RAND_MAX >= n (n - 1), every rearrangement of an n-card array is
      the outcome of some sequence of rand() results.  For the 52 cards 2652 is enough, and the
      least RAND_MAX that C allows is 32767 (section 7.22.2.1 of ISO C11). */
  lemma EveryOrderReached(a: seq<int>, target: seq<int>, randMax: nat) returns (rnd: nat -> nat)
    requires multiset(a) == multiset(target)
    requires |a| * (|a| - 1) <= randMax
    ensures forall k :: rnd(k) <= randMax
    ensures Choices(|a|, Indices(rnd, randMax, |a|))
    ensures Run(a, Indices(rnd, randMax, |a|), 0) == target
  {
    SameSize(a, target);
    var js := RunSurjective(a, target, 0, []);
    var n := |a|;
    var rs := RandsFor(js, n, randMax);
    rnd := (k: nat) => if k < |rs| then rs[k] else 0;
    IndicesAre(rnd, rs, js, randMax, n);
  }

  lemma IndicesAre(rnd: nat -> nat, rs: seq<nat>, js: seq<nat>, randMax: nat, n: nat)
    requires |rs| == |js| == Steps(n)
    requires forall k :: 0 <= k < |rs| ==> rnd(k) == rs[k]
    requires forall k :: 0 <= k < |js| ==> k < n && Index(rs[k], randMax, n, k) == js[k]
    ensures Indices(rnd, randMax, n) == js
  {
    hide Index;
  }

  lemma SameSize(a: seq<int>, b: seq<int>)
    requires multiset(a) == multiset(b)
    ensures |a| == |b|
  {
    assert |multiset(a)| == |multiset(b)|;
  }

  lemma {:induction false} RandsFor(js: seq<nat>, n: nat, randMax: nat) returns (rs: seq<nat>)
    requires n * (n - 1) <= randMax
    requires |js| < n || n == 0 == |js|
    requires forall k :: 0 <= k < |js| ==> k <= js[k] < n
    ensures |rs| == |js|
    ensures forall k :: 0 <= k < |js| ==> rs[k] <= randMax && Index(rs[k], randMax, n, k) == js[k]
  {
    if js == [] {
      rs := [];
    } else {
      var i := |js| - 1;
      rs := RandsFor(js[..i], n, randMax);
      AllPlacesReached(randMax, n - i, js[i] - i) by {
        ProductGrows(n - i, n, n - i - 1);
        ProductGrows(n - i - 1, n - 1, n);
      }
      IndexReached(randMax, n, i, js[i]);
      var r: nat :| r <= randMax && Index(r, randMax, n, i) == js[i];
      rs := rs + [r];
    }
  }
}
