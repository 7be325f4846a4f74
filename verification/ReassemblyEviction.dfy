/** Front eviction of the reassembly buffer: exactly how much goes, when its unsigned
    arithmetic wraps, and when its clean-up of the index is safe. */
module ReassemblyEviction {
  import opened Words
  import opened Reassembly

  /** What is left once the span fits: the loop's unsigned test, in true distances. */
  predicate FitsFrom(cs: seq<Chunk>, cap: nat, j: nat)
    requires j < |cs|
  {
    cs[j].left <= PositionN(cs) <= cs[j].left + cap
  }

  lemma FitsTest(p: nat, n: nat, cap: nat)
    requires p < TWO_63 && n < TWO_63 && (cap < TWO_63 || p <= n)
    ensures Sub64(n, p) <= cap <==> p <= n <= p + cap
  {
    if p > n { assert (n - p) % TWO_64 == n - p + TWO_64; }
  }

  /** Exactly how much is evicted: the chunks before the first one from which the span
      fits. Chunks need not be ordered, unless a negative capacity was given. */
  lemma {:induction false} EvictedExact(cs: seq<Chunk>, cap: nat)
    requires InRange(cs) && (cap < TWO_63 || Sorted(cs))
    ensures var k := Evicted(cs, cap);
      && (k < |cs| ==> FitsFrom(cs, cap, k))
      && (forall j :: 0 <= j < k ==> !FitsFrom(cs, cap, j))
  {
    if cs != [] {
      var k := Evicted(cs, cap);
      assert cs[|cs| - 1].Right() < TWO_63 && cs[0].Right() < TWO_63;
      FitsTest(Position0(cs), PositionN(cs), cap);
      if k > 0 {
        EvictedExact(cs[1..], cap);
        if |cs| > 1 { assert PositionN(cs[1..]) == PositionN(cs); }
        forall j | 0 <= j < k ensures !FitsFrom(cs, cap, j) {
          if j > 0 { assert cs[1..][j - 1] == cs[j] && !FitsFrom(cs[1..], cap, j - 1); }
        }
      }
    }
  }

  /** What is left fits the capacity, and no unsigned difference of it wraps. */
  lemma EvictionBound(cs: seq<Chunk>, cap: nat)
    requires InRange(cs) && (cap < TWO_63 || Sorted(cs))
    ensures var rest := cs[Evicted(cs, cap)..];
      rest == [] || Position0(rest) <= PositionN(rest) <= Position0(rest) + cap
  {
    EvictedExact(cs, cap);
  }

  /** The eviction loop tests the span before it drops chunk `j`. */
  ghost predicate WrapsAt(cs: seq<Chunk>, cap: nat, j: nat) {
    j < |cs| && j <= Evicted(cs, cap) && Sub64(PositionN(cs), cs[j].left) != PositionN(cs) - cs[j].left
  }

  /** Exactly when some subtraction of the eviction loop wraps: some chunk starts past
      the end of the last one, and the span fits from no chunk before it. */
  lemma EvictionWrapExact(cs: seq<Chunk>, cap: nat)
    requires InRange(cs) && cap < TWO_63
    ensures (exists j: nat :: WrapsAt(cs, cap, j)) <==>
      exists j: nat :: j < |cs| && cs[j].left > PositionN(cs) && forall i :: 0 <= i < j ==> !FitsFrom(cs, cap, i)
  {
    EvictedExact(cs, cap);
    if j: nat :| WrapsAt(cs, cap, j) {
      assert cs[j].left > PositionN(cs);
    }
    if j: nat :| j < |cs| && cs[j].left > PositionN(cs) && forall i :: 0 <= i < j ==> !FitsFrom(cs, cap, i) {
      assert WrapsAt(cs, cap, j);
    }
  }

  /** In particular ordered chunks never make it wrap. */
  lemma SortedNeverWraps(cs: seq<Chunk>, cap: nat, j: nat)
    requires Sorted(cs) && InRange(cs)
    ensures !WrapsAt(cs, cap, j)
  {
    if j < |cs| { assert cs[j].left <= cs[|cs| - 1].left; }
  }

  /** Whatever the index holds, the entries dropped with the first `k` chunks lie strictly
      below every chunk that stays, exactly when the last chunk dropped starts no later
      than any that stays. */
  lemma EvictionCleanup(cs: seq<Chunk>, k: nat)
    requires k <= |cs|
    ensures (forall times: map<nat, nat>, t, i :: t in times && t !in TimesAfterEviction(times, cs, k) && k <= i < |cs| ==> t < cs[i].left)
      <==> (forall i :: 0 < k <= i < |cs| ==> cs[k - 1].left <= cs[i].left)
  {
    if i :| 0 < k <= i < |cs| && cs[k - 1].left > cs[i].left {
      var times := map[cs[i].left := 0];
      assert cs[i].left in times && cs[i].left !in TimesAfterEviction(times, cs, k);
    }
  }
}
