/** What each branch of Add does to the stored bytes and to the timestamp index, and what
    RemovePrefix does to the index. */
module ReassemblyAdd {
  import opened Words
  import opened Options
  import opened Reassembly
  import opened ReassemblyMerge
  import opened ReassemblyEviction
  import opened ReassemblyRuns

  // ----- the branches that do not merge -----

  /** Only this segment is stored and indexed. */
  ghost predicate OnlyHolds(st: State, s: Chunk, ts: nat) {
    && (forall p: nat :: At(st.chunks, p) == ByteAt(s, p))
    && (forall k :: k in st.times <==> k == s.left) && st.times[s.left] == ts
  }

  /** A new position 2^31 - 1 or more before the end, or 2^20 or more past it without being
      2^20 or more before the start. */
  predicate Restarts(st: State, s: Chunk) {
    var first, last := Position0(st.chunks), PositionN(st.chunks);
    && st.chunks != [] && s.left !in st.times
    && (s.left + 2147483647 <= last || (s.left + 1048576 > first && last + 1048576 <= s.left))
  }

  /** Such a segment makes the buffer forget everything else. */
  lemma AddRestarts(st: State, cap: nat, s: Chunk, ts: nat)
    requires InRange(st.chunks) && s.Right() < TWO_63 && Restarts(st, s)
    ensures OnlyHolds(Added(st, cap, s, ts), s, ts)
  {
    RouteByDistance(st, s);
    forall p: nat ensures At([s], p) == ByteAt(s, p) { AtOne(s, p); }
  }

  lemma AtOne(s: Chunk, p: nat)
    ensures At([s], p) == ByteAt(s, p)
  {
    assert [s][1..] == [];
  }

  /** A segment 2^20 positions or more before the start, but not so far before the end, is
      dropped; one at a position already indexed is refused. Neither changes anything. */
  lemma AddDrops(st: State, cap: nat, s: Chunk, ts: nat)
    requires InRange(st.chunks) && s.Right() < TWO_63
    requires s.left in st.times || (st.chunks != [] &&
      s.left + 1048576 <= Position0(st.chunks) && s.left + 2147483647 > PositionN(st.chunks))
    ensures forall p: nat :: At(Added(st, cap, s, ts).chunks, p) == At(st.chunks, p)
    ensures Added(st, cap, s, ts).times == st.times
  {
    if s.left !in st.times { RouteByDistance(st, s); }
  }

  /** The first segment is stored as it is, beside whatever the index still holds. */
  lemma AddFirst(st: State, cap: nat, s: Chunk, ts: nat)
    requires st.chunks == [] && s.left !in st.times
    ensures forall p: nat :: At(Added(st, cap, s, ts).chunks, p) == ByteAt(s, p)
    ensures Added(st, cap, s, ts).times == st.times[s.left := ts]
  {
    forall p: nat ensures At([s], p) == ByteAt(s, p) { AtOne(s, p); }
  }

  /** The segment is neither refused nor too old. */
  predicate Taken(st: State, s: Chunk) {
    s.left !in st.times &&
    (st.chunks == [] || s.left + 2147483647 <= PositionN(st.chunks) || s.left + 1048576 > Position0(st.chunks))
  }

  /** A position that the eviction of this Add gave up. */
  ghost predicate GivenUp(st: State, cap: nat, s: Chunk, p: nat) {
    RouteOf(st, s) == MergePath && At(Merge(st.chunks, s)[..Evicted(Merge(st.chunks, s), cap)], p).Some?
  }

  /** Every position of a segment that is taken is stored afterwards, unless it was evicted. */
  lemma AddStores(st: State, cap: nat, s: Chunk, ts: nat, p: nat)
    requires InRange(st.chunks) && s.Right() < TWO_63 && Taken(st, s) && s.Has(p)
    ensures At(Added(st, cap, s, ts).chunks, p).Some? || GivenUp(st, cap, s, p)
  {
    if st.chunks != [] { RouteByDistance(st, s); }
    if RouteOf(st, s) == MergePath {
      AddCovers(st, cap, s, ts, p);
    } else {
      AtOne(s, p);
    }
  }

  lemma {:induction false} RunInRange(st: State, cap: nat, ops: seq<Op>)
    requires Runnable(st, cap, ops) && InRange(st.chunks)
    ensures InRange(Run(st, cap, ops).chunks)
    decreases ops
  {
    if ops != [] {
      match ops[0] {
        case Add(s, ts) => AddedKeeps(st, cap, s, ts);
        case RemovePrefix(n) => RemovedKeeps(st, n);
        case Clear =>
      }
      RunInRange(Step(st, cap, ops[0]), cap, ops[1..]);
    }
  }

  /** So it is after every run, for every capacity. */
  lemma RunStores(cap: nat, ops: seq<Op>, s: Chunk, ts: nat, p: nat)
    requires Runnable(EMPTY, cap, ops) && s.Right() < TWO_63 && s.Has(p)
    ensures var st := Run(EMPTY, cap, ops);
      Taken(st, s) ==> At(Added(st, cap, s, ts).chunks, p).Some? || GivenUp(st, cap, s, p)
  {
    RunInRange(EMPTY, cap, ops);
    if Taken(Run(EMPTY, cap, ops), s) { AddStores(Run(EMPTY, cap, ops), cap, s, ts, p); }
  }

  /** On separated chunks the first and last position are those of the stored bytes. */
  lemma SpanIsHull(cs: seq<Chunk>, p: nat)
    requires Separated(cs) && cs != []
    ensures At(cs, Position0(cs)).Some? && PositionN(cs) > 0 && At(cs, PositionN(cs) - 1).Some?
    ensures At(cs, p).Some? ==> Position0(cs) <= p < PositionN(cs)
  {
    AtSplit(cs, |cs| - 1, PositionN(cs) - 1);
    AtOne(cs[|cs| - 1], PositionN(cs) - 1);
    assert cs[|cs| - 1..] == [cs[|cs| - 1]];
    if p < Position0(cs) { OutBelow(cs, p); }
    if p >= PositionN(cs) { OutAbove(cs, p); }
  }

  // ----- the index -----

  /** Past its limit the index loses its lower half and keeps the rest as it is. */
  lemma CleanOldExact(times: map<nat, nat>)
    ensures |times| <= 100000 ==> CleanOld(times) == times
    ensures |times| > 100000 ==>
      && |CleanOld(times)| == |times| - |times| / 2
      && (forall k :: k in CleanOld(times) ==> k in times && CleanOld(times)[k] == times[k])
      && (forall j, k :: j in times && j !in CleanOld(times) && k in CleanOld(times) ==> j < k)
  {
    if |times| > 100000 {
      var gone := Smallest(times.Keys, |times| / 2);
      assert CleanOld(times).Keys == times.Keys - gone;
      assert |CleanOld(times).Keys| == |times.Keys| - |gone|;
    }
  }

  /** What a merge-path Add leaves in the index: nothing but old entries and the segment's,
      with the times they were given; and, below the limit, all of them from the start of the
      last chunk evicted on. */
  lemma AddIndex(st: State, cap: nat, s: Chunk, ts: nat, k: nat)
    requires RouteOf(st, s) == MergePath
    ensures var next, m := Added(st, cap, s, ts).times, Merge(st.chunks, s);
      var gone := Evicted(m, cap);
      && (k in next ==> (k == s.left && next[k] == ts) || (k != s.left && k in st.times && next[k] == st.times[k]))
      && (|st.times| < 100000 && (k == s.left || k in st.times) && (gone > 0 ==> k >= m[gone - 1].left) ==> k in next)
      && (gone > 0 && k < m[gone - 1].left ==> k !in next)
  {
    var m := Merge(st.chunks, s);
    AddedTimes(st, cap, s, ts);
    EvictedTimes(st.times[s.left := ts], m, Evicted(m, cap), k);
    CleanedTimes(st.times, s.left, ts, TimesAfterEviction(st.times[s.left := ts], m, Evicted(m, cap)));
  }

  lemma AddedTimes(st: State, cap: nat, s: Chunk, ts: nat)
    requires RouteOf(st, s) == MergePath
    ensures var m := Merge(st.chunks, s);
      Added(st, cap, s, ts).times == CleanOld(TimesAfterEviction(st.times[s.left := ts], m, Evicted(m, cap)))
  {
  }

  lemma EvictedTimes(times: map<nat, nat>, m: seq<Chunk>, gone: nat, k: nat)
    requires gone <= |m|
    ensures var left := TimesAfterEviction(times, m, gone);
      && (k in left <==> k in times && (gone > 0 ==> k >= m[gone - 1].left))
      && (k in left ==> left[k] == times[k]) && left.Keys <= times.Keys
  {
  }

  lemma CleanedTimes(times: map<nat, nat>, at: nat, ts: nat, left: map<nat, nat>)
    requires left.Keys <= times.Keys + {at}
    ensures |times| < 100000 ==> CleanOld(left) == left
    ensures forall k :: k in CleanOld(left) ==> k in left && CleanOld(left)[k] == left[k]
  {
    CleanOldExact(left);
    SubsetSize(left.Keys, times.Keys + {at});
  }

  lemma SubsetSize(a: set<nat>, b: set<nat>)
    requires a <= b
    ensures |a| <= |b|
  {
    assert b == a + (b - a);
  }

  /** Chunk `i` goes as a whole when `n` bytes are removed. */
  predicate Swallowed(cs: seq<Chunk>, n: nat, i: nat)
    requires i < |cs|
  {
    Total(cs[..i]) < n && Total(cs[..i + 1]) <= n
  }

  /** Removing a prefix keeps exactly the index entries below the start of no chunk that
      goes as a whole. */
  lemma {:induction false} RemovedIndex(st: State, n: nat, k: nat)
    requires st.chunks == [] || n <= Total(st.chunks)
    ensures var next := Removed(st, n).times;
      && (k in next <==> k in st.times && forall i :: 0 <= i < |st.chunks| && Swallowed(st.chunks, n, i) ==> k >= st.chunks[i].left)
      && (k in next ==> next[k] == st.times[k])
    decreases |st.chunks|
  {
    var cs := st.chunks;
    if n > 0 && cs != [] {
      TotalPrefix(cs, 1);
      assert cs[..0] == [];
      if |cs[0].bytes| > n {
        forall i | 0 <= i < |cs| ensures !Swallowed(cs, n, i) { TotalPrefix(cs, i + 1); }
      } else {
        var rest := State(cs[1..], CleanBelow(st.times, cs[0].left));
        RemovedIndex(rest, n - |cs[0].bytes|, k);
        assert Swallowed(cs, n, 0);
        forall i | 1 <= i < |cs| ensures Swallowed(cs, n, i) <==> Swallowed(cs[1..], n - |cs[0].bytes|, i - 1) {
          TotalPrefix(cs, i);
          TotalPrefix(cs, i + 1);
        }
        SwallowedRest(st, n, k);
      }
    }
  }

  lemma SwallowedRest(st: State, n: nat, k: nat)
    requires st.chunks != [] && |st.chunks[0].bytes| <= n && Swallowed(st.chunks, n, 0)
    requires forall i :: 1 <= i < |st.chunks| ==>
      (Swallowed(st.chunks, n, i) <==> Swallowed(st.chunks[1..], n - |st.chunks[0].bytes|, i - 1))
    ensures (forall i :: 0 <= i < |st.chunks| && Swallowed(st.chunks, n, i) ==> k >= st.chunks[i].left) <==>
      k >= st.chunks[0].left &&
      forall i :: 0 <= i < |st.chunks[1..]| && Swallowed(st.chunks[1..], n - |st.chunks[0].bytes|, i) ==> k >= st.chunks[1..][i].left
  {
    var cs := st.chunks;
    if forall i :: 0 <= i < |cs| && Swallowed(cs, n, i) ==> k >= cs[i].left {
      forall i | 0 <= i < |cs[1..]| && Swallowed(cs[1..], n - |cs[0].bytes|, i) ensures k >= cs[1..][i].left {
        assert Swallowed(cs, n, i + 1);
      }
    }
  }
}
