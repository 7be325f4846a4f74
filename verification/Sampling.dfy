/** Running top-k sampling (agent/analysis/analysis.go). */
module Sampling {
  /** The first index whose value is not below `v`: where `slices.BinarySearchFunc`
      puts it. */
  function Place(vals: seq<real>, v: real): (i: nat)
    ensures i <= |vals|
    ensures forall j :: 0 <= j < i ==> vals[j] < v
    ensures i < |vals| ==> vals[i] >= v
  {
    if vals == [] || vals[0] >= v then 0 else 1 + Place(vals[1..], v)
  }

  ghost predicate Ascending(vals: seq<real>) {
    forall i, j :: 0 <= i < j < |vals| ==> vals[i] <= vals[j]
  }

  function Metrics<R>(rs: seq<R>, metric: R -> real): (vs: seq<real>)
    ensures |vs| == |rs| && forall i :: 0 <= i < |rs| ==> vs[i] == metric(rs[i])
  {
    seq(|rs|, i requires 0 <= i < |rs| => metric(rs[i]))
  }

  /** The kept values after one more value, at most `k` of them. */
  function Kept(vals: seq<real>, v: real, k: nat): seq<real>
    requires |vals| <= k
  {
    var i := Place(vals, v);
    var grown := vals[..i] + [v] + vals[i..];
    if |vals| == k && i == 0 then vals else if |grown| > k then grown[1..] else grown
  }

  /** The samples after one more record. */
  function Sampled<R>(samples: seq<R>, r: R, metric: R -> real, k: nat): seq<R> {
    var i := Place(Metrics(samples, metric), metric(r));
    var grown := samples[..i] + [r] + samples[i..];
    if |samples| == k && i == 0 then samples else if |grown| > k then grown[1..] else grown
  }

  lemma SampledMetrics<R>(samples: seq<R>, r: R, metric: R -> real, k: nat)
    requires |samples| <= k
    ensures Metrics(Sampled(samples, r, metric, k), metric) == Kept(Metrics(samples, metric), metric(r), k)
  {
    var i := Place(Metrics(samples, metric), metric(r));
    MetricsSplice(samples, r, metric, i);
    MetricsTail(samples[..i] + [r] + samples[i..], metric);
  }

  /** The samples are records, not just metrics: what is kept and the at most one record
      dropped are the old samples and the new one. */
  lemma SampledRecords<R>(samples: seq<R>, r: R, metric: R -> real, k: nat) returns (gone: multiset<R>)
    requires |samples| <= k
    ensures multiset(Sampled(samples, r, metric, k)) + gone == multiset(samples) + multiset{r}
    ensures |gone| == if |samples| < k then 0 else 1
  {
    var i := Place(Metrics(samples, metric), metric(r));
    var grown := samples[..i] + [r] + samples[i..];
    GrownRecords(samples, r, i);
    gone := multiset{};
    if |samples| == k {
      gone := if i == 0 then multiset{r} else multiset{grown[0]};
      HeadAndTail(grown);
    }
  }

  lemma GrownRecords<R>(samples: seq<R>, r: R, i: nat)
    requires i <= |samples|
    ensures multiset(samples[..i] + [r] + samples[i..]) == multiset(samples) + multiset{r}
  {
    assert samples == samples[..i] + samples[i..];
  }

  lemma HeadAndTail<R>(rs: seq<R>)
    requires rs != []
    ensures multiset(rs) == multiset(rs[1..]) + multiset{rs[0]}
  {
    assert rs == [rs[0]] + rs[1..];
  }

  lemma MetricsSplice<R>(samples: seq<R>, r: R, metric: R -> real, i: nat)
    requires i <= |samples|
    ensures Metrics(samples[..i] + [r] + samples[i..], metric) ==
      Metrics(samples, metric)[..i] + [metric(r)] + Metrics(samples, metric)[i..]
  {
    var vals, grown := Metrics(samples, metric), samples[..i] + [r] + samples[i..];
    var m := vals[..i] + [metric(r)] + vals[i..];
    forall j | 0 <= j < |grown| ensures Metrics(grown, metric)[j] == m[j] {
      assert j > i ==> grown[j] == samples[j - 1] && m[j] == vals[j - 1];
    }
  }

  lemma MetricsTail<R>(rs: seq<R>, metric: R -> real)
    requires rs != []
    ensures Metrics(rs[1..], metric) == Metrics(rs, metric)[1..]
  {
  }

  method AddToSamples<R>(samples: seq<R>, newSample: R, metric: R -> real, maxSamplesNum: nat) returns (result: seq<R>)
    requires |samples| <= maxSamplesNum && Ascending(Metrics(samples, metric))
    ensures result == Sampled(samples, newSample, metric, maxSamplesNum)
    ensures Metrics(result, metric) == Kept(Metrics(samples, metric), metric(newSample), maxSamplesNum)
  {
    SampledMetrics(samples, newSample, metric, maxSamplesNum);
    var isFull := |samples| == maxSamplesNum;
    var idx := Search(samples, newSample, metric);
    var isMin := idx == 0;
    if isFull && isMin {
      return samples;
    }
    result := samples[..idx] + [newSample] + samples[idx..];
    ghost var grown := result;
    while |result| > maxSamplesNum
      invariant result == grown || (|result| == maxSamplesNum && result == grown[1..])
    {
      result := result[1..];
    }
  }

  method Search<R>(samples: seq<R>, target: R, metric: R -> real) returns (idx: nat)
    requires Ascending(Metrics(samples, metric))
    ensures idx == Place(Metrics(samples, metric), metric(target))
  {
    ghost var vals := Metrics(samples, metric);
    var low, high := 0, |samples|;
    while low < high
      invariant 0 <= low <= high <= |samples|
      invariant forall i :: 0 <= i < low ==> vals[i] < metric(target)
      invariant forall i :: high <= i < |samples| ==> vals[i] >= metric(target)
    {
      var mid := (low + high) / 2;
      assert vals[mid] == metric(samples[mid]);
      if metric(samples[mid]) < metric(target) { low := mid + 1; } else { high := mid; }
    }
    idx := low;
    SamePlace(vals, metric(target), idx);
  }

  lemma SamePlace(vals: seq<real>, v: real, i: nat)
    requires i <= |vals|
    requires forall j :: 0 <= j < i ==> vals[j] < v
    requires i < |vals| ==> vals[i] >= v
    ensures i == Place(vals, v)
  {
  }

  // ----- the k largest -----

  /** `kept` is sorted, is everything or `k` values, and nothing else among `all` is
      larger than any of it. */
  ghost predicate IsTop(kept: seq<real>, rest: multiset<real>, all: multiset<real>, k: nat) {
    && Ascending(kept) && |kept| <= k
    && multiset(kept) + rest == all
    && (|kept| < k ==> rest == multiset{})
    && (forall x :: x in rest ==> forall i :: 0 <= i < |kept| ==> x <= kept[i])
  }

  /** What the step drops: nothing, the new value, or the least of the old ones. */
  function Dropped(vals: seq<real>, v: real, k: nat): multiset<real>
    requires |vals| <= k
  {
    if |vals| < k then multiset{} else if Place(vals, v) == 0 then multiset{v} else multiset{vals[0]}
  }

  lemma GrownAscending(vals: seq<real>, v: real, i: nat)
    requires Ascending(vals) && i == Place(vals, v)
    ensures Ascending(vals[..i] + [v] + vals[i..])
  {
    var m := vals[..i] + [v] + vals[i..];
    forall j, k | 0 <= j < k < |m| ensures m[j] <= m[k] {
      assert j < i ==> m[j] == vals[j];
      assert j > i ==> m[j] == vals[j - 1];
      assert k < i ==> m[k] == vals[k];
      assert k > i ==> m[k] == vals[k - 1];
    }
  }

  lemma GrownContents(vals: seq<real>, v: real, i: nat)
    requires i <= |vals|
    ensures multiset(vals[..i] + [v] + vals[i..]) == multiset(vals) + multiset{v}
  {
    assert vals == vals[..i] + vals[i..];
  }

  lemma KeptContents(vals: seq<real>, v: real, k: nat)
    requires |vals| <= k
    ensures multiset(Kept(vals, v, k)) + Dropped(vals, v, k) == multiset(vals) + multiset{v}
  {
    var i := Place(vals, v);
    var grown := vals[..i] + [v] + vals[i..];
    GrownContents(vals, v, i);
    if |vals| == k && i > 0 {
      assert grown == [grown[0]] + grown[1..] && grown[0] == vals[0];
    }
  }

  lemma KeptAscending(vals: seq<real>, v: real, k: nat)
    requires |vals| <= k && Ascending(vals)
    ensures Ascending(Kept(vals, v, k)) && |Kept(vals, v, k)| <= k
    ensures |vals| < k ==> |Kept(vals, v, k)| == |vals| + 1
    ensures |vals| == k ==> |Kept(vals, v, k)| == k
  {
    GrownAscending(vals, v, Place(vals, v));
  }

  /** When full, what stays is at least every value that stayed before was, and at
      least what is dropped now. */
  lemma KeptAbove(vals: seq<real>, v: real, k: nat, x: real, j: nat)
    requires |vals| == k && Ascending(vals) && j < k
    requires x in Dropped(vals, v, k) || forall i :: 0 <= i < k ==> x <= vals[i]
    ensures |Kept(vals, v, k)| == k && x <= Kept(vals, v, k)[j]
  {
    var i := Place(vals, v);
    if i > 0 {
      var grown := vals[..i] + [v] + vals[i..];
      assert Kept(vals, v, k)[j] == grown[j + 1];
      assert j + 1 < i ==> grown[j + 1] == vals[j + 1];
      assert j + 1 > i ==> grown[j + 1] == vals[j];
      assert vals[0] <= grown[j + 1];
    }
  }

  lemma Regroup(a: multiset<real>, b: multiset<real>, c: multiset<real>, d: multiset<real>, e: multiset<real>)
    requires a + b == c + d
    ensures a + (e + b) == (c + e) + d
  {
    assert a + (e + b) == (a + b) + e;
  }

  /** One more value keeps the top k. */
  lemma KeptIsTop(vals: seq<real>, rest: multiset<real>, all: multiset<real>, v: real, k: nat)
    requires IsTop(vals, rest, all, k)
    ensures IsTop(Kept(vals, v, k), rest + Dropped(vals, v, k), all + multiset{v}, k)
  {
    var kept, gone := Kept(vals, v, k), Dropped(vals, v, k);
    KeptAscending(vals, v, k);
    KeptContents(vals, v, k);
    Regroup(multiset(kept), gone, multiset(vals), multiset{v}, rest);
    if |vals| == k {
      forall x, j | x in rest + gone && 0 <= j < |kept| ensures x <= kept[j] {
        KeptAbove(vals, v, k, x, j);
      }
    }
  }

  /** All values through the sampler. */
  function Fold(vals: seq<real>, k: nat): (kept: seq<real>)
    ensures |kept| <= k
  {
    if vals == [] then [] else Kept(Fold(vals[..|vals| - 1], k), vals[|vals| - 1], k)
  }

  /** Top-k sampling: for any limit, zero included, and any values, what is kept is
      sorted and holds the min(k, n) largest of all n values seen. */
  lemma {:induction false} FoldIsTop(vals: seq<real>, k: nat) returns (rest: multiset<real>)
    ensures IsTop(Fold(vals, k), rest, multiset(vals), k)
    ensures |Fold(vals, k)| == if |vals| < k then |vals| else k
  {
    if vals == [] {
      rest := multiset{};
    } else {
      var n := |vals| - 1;
      var rest0 := FoldIsTop(vals[..n], k);
      assert vals == vals[..n] + [vals[n]];
      KeptIsTop(Fold(vals[..n], k), rest0, multiset(vals[..n]), vals[n], k);
      rest := rest0 + Dropped(Fold(vals[..n], k), vals[n], k);
    }
  }

  lemma Largest(a: seq<real>, ra: multiset<real>, all: multiset<real>, x: real)
    requires a != [] && IsTop(a, ra, all, |a|) && x in all
    ensures x <= a[|a| - 1]
  {
    if x !in ra {
      assert x in multiset(a);
    }
  }

  lemma WithoutLargest(a: seq<real>, ra: multiset<real>, all: multiset<real>)
    requires a != [] && IsTop(a, ra, all, |a|)
    ensures var n := |a| - 1; a[n] in all && IsTop(a[..n], ra, all - multiset{a[n]}, n)
  {
    var n := |a| - 1;
    assert a == a[..n] + [a[n]];
  }

  /** There is only one such list: the k largest are a matter of values alone. */
  lemma {:induction false} TopUnique(a: seq<real>, ra: multiset<real>, b: seq<real>, rb: multiset<real>, all: multiset<real>)
    requires |a| == |b| && IsTop(a, ra, all, |a|) && IsTop(b, rb, all, |b|)
    ensures a == b
    decreases |a|
  {
    if a != [] {
      var n := |a| - 1;
      WithoutLargest(a, ra, all);
      WithoutLargest(b, rb, all);
      Largest(a, ra, all, b[n]);
      Largest(b, rb, all, a[n]);
      var largest := a[n];
      assert b[n] == largest;
      var fewer := all - multiset{largest};
      TopUnique(a[..n], ra, b[..n], rb, fewer);
      assert a == a[..n] + [a[n]] && b == b[..n] + [b[n]];
    }
  }
}
