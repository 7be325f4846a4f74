/** Arrival order does not matter, and how large the timestamp index can get. */
module ReassemblyOrder {
  import opened Words
  import opened Options
  import opened Reassembly
  import opened ReassemblyMerge
  import opened ReassemblyEviction
  import opened ReassemblyRuns

  /** The state after adding `segs` in order; `clock` gives the arrival times. */
  ghost function AddAll(cap: nat, segs: seq<Chunk>, clock: nat -> nat): State {
    if segs == [] then EMPTY
    else
      var n := |segs| - 1;
      Added(AddAll(cap, segs[..n], clock), cap, segs[n], clock(n))
  }

  predicate Disjoint(a: Chunk, b: Chunk) {
    a.Right() <= b.left || b.Right() <= a.left
  }

  ghost predicate PairwiseDisjoint(segs: seq<Chunk>) {
    forall i, j :: 0 <= i < j < |segs| ==> Disjoint(segs[i], segs[j])
  }

  /** Non-empty segments inside the window of `width` positions from `lo`. */
  ghost predicate InWindow(segs: seq<Chunk>, lo: nat, width: nat) {
    forall i :: 0 <= i < |segs| ==> segs[i].bytes != [] && lo <= segs[i].left && segs[i].Right() <= lo + width
  }

  /** A chunk of a separated list lies inside a window holding all its positions. */
  lemma ChunkInWindow(cs: seq<Chunk>, i: nat, lo: nat, hi: nat)
    requires Separated(cs) && i < |cs|
    requires forall p: nat :: At(cs, p).Some? ==> lo <= p < hi
    ensures lo <= cs[i].left && cs[i].Right() <= hi
  {
    var first, last := cs[i].left, cs[i].Right() - 1;
    assert cs[i].Has(first) && cs[i].Has(last);
    Covered(cs, first);
    Covered(cs, last);
  }

  /** A segment none of whose positions is covered is admissible. */
  lemma UncoveredAdmissible(cs: seq<Chunk>, s: Chunk)
    requires Separated(cs) && s.bytes != []
    requires forall p: nat :: s.Has(p) ==> At(cs, p).None?
    ensures Admissible(cs, s)
  {
    var i := Upto(cs, s.left);
    if i > 0 && s.Right() < cs[i - 1].Right() {
      assert s.Has(s.left) && cs[i - 1].Has(s.left);
      Covered(cs, s.left);
    }
    if i < |cs| && s.Right() > cs[i].Right() {
      assert s.Has(cs[i].left) && cs[i].Has(cs[i].left);
      Covered(cs, cs[i].left);
    }
  }

  /** Inside a narrow window a new segment takes the first-chunk or the merge path. */
  lemma WindowRoute(st: State, s: Chunk, lo: nat, width: nat)
    requires Separated(st.chunks) && s.bytes != [] && s.left !in st.times
    requires width <= MAX_BYTES_GAP && lo + width < TWO_63
    requires lo <= s.left && s.Right() <= lo + width
    requires forall p: nat :: At(st.chunks, p).Some? ==> lo <= p < lo + width
    ensures RouteOf(st, s) == if st.chunks == [] then First else MergePath
    ensures InRange(st.chunks)
    ensures st.chunks != [] ==> lo <= Position0(st.chunks) && PositionN(st.chunks) <= lo + width
  {
    var cs := st.chunks;
    forall i | 0 <= i < |cs| ensures cs[i].Right() < TWO_63 { ChunkInWindow(cs, i, lo, lo + width); }
    if cs != [] {
      ChunkInWindow(cs, 0, lo, lo + width);
      ChunkInWindow(cs, |cs| - 1, lo, lo + width);
      SignedDistance(PositionN(cs), s.left);
      SignedDistance(Position0(cs), s.left);
      SignedDistance(s.left, PositionN(cs));
    }
  }

  /** The state holds exactly the bytes of `segs`, as separated chunks. */
  ghost predicate Holds(st: State, segs: seq<Chunk>) {
    && Separated(st.chunks)
    && (forall p: nat :: At(st.chunks, p) == At(segs, p))
    && (forall t :: t in st.times ==> exists i :: 0 <= i < |segs| && segs[i].left == t)
  }

  /** A further disjoint segment shares no position and no start with the earlier ones. */
  lemma NewSegmentApart(segs: seq<Chunk>, s: Chunk, lo: nat, width: nat)
    requires InWindow(segs + [s], lo, width) && PairwiseDisjoint(segs + [s])
    ensures s.bytes != [] && lo <= s.left && s.Right() <= lo + width
    ensures forall i :: 0 <= i < |segs| ==> segs[i].left != s.left && Disjoint(segs[i], s)
    ensures forall i :: 0 <= i < |segs| ==> lo <= segs[i].left && segs[i].Right() <= lo + width
  {
    var all := segs + [s];
    assert all[|segs|] == s;
    forall i | 0 <= i < |segs|
      ensures segs[i].left != s.left && Disjoint(segs[i], s) && lo <= segs[i].left && segs[i].Right() <= lo + width
    {
      assert all[i] == segs[i] && Disjoint(all[i], all[|segs|]);
    }
  }

  lemma CoveredApart(segs: seq<Chunk>, s: Chunk, lo: nat, width: nat, p: nat)
    requires InWindow(segs + [s], lo, width) && PairwiseDisjoint(segs + [s]) && At(segs, p).Some?
    ensures lo <= p < lo + width && !s.Has(p)
  {
    NewSegmentApart(segs, s, lo, width);
    Covered(segs, p);
  }

  /** The index still only knows starts of added segments. */
  lemma TimesKnown(st: State, cap: nat, segs: seq<Chunk>, s: Chunk, ts: nat)
    requires Holds(st, segs)
    ensures forall t :: t in Added(st, cap, s, ts).times ==>
      exists i :: 0 <= i < |segs + [s]| && (segs + [s])[i].left == t
  {
    AddTimes(st, cap, s, ts);
    forall t | t in Added(st, cap, s, ts).times
      ensures exists i :: 0 <= i < |segs + [s]| && (segs + [s])[i].left == t
    {
      if t == s.left {
        assert (segs + [s])[|segs|].left == t;
      } else {
        var i :| 0 <= i < |segs| && segs[i].left == t;
        assert (segs + [s])[i].left == t;
      }
    }
  }

  lemma AtOneMore(segs: seq<Chunk>, s: Chunk, p: nat)
    ensures At(segs + [s], p) == At(segs, p).Or(ByteAt(s, p))
  {
    AtConcat(segs, [s], p);
    assert At([s], p) == ByteAt(s, p);
  }

  /** Merging a segment none of whose positions is covered, with nothing evicted. */
  lemma WindowMerge(st: State, s: Chunk, cap: nat, ts: nat, lo: nat, width: nat)
    requires Separated(st.chunks) && InRange(st.chunks) && RouteOf(st, s) == MergePath
    requires s.bytes != [] && lo <= s.left && s.Right() <= lo + width && lo + width < TWO_63 && width <= cap
    requires forall p: nat :: At(st.chunks, p).Some? ==> lo <= p < lo + width && !s.Has(p)
    ensures Separated(Added(st, cap, s, ts).chunks)
    ensures forall p: nat :: At(Added(st, cap, s, ts).chunks, p) == At(st.chunks, p).Or(ByteAt(s, p))
  {
    var m := Merge(st.chunks, s);
    UncoveredAdmissible(st.chunks, s);
    AddedChunks(st, cap, s, ts);
    NothingEvicted(st.chunks, cap, s, m, lo, width);
    assert m[0..] == m;
    AdmissibleSeparates(st.chunks, s);
    forall p: nat ensures At(m, p) == At(st.chunks, p).Or(ByteAt(s, p)) { MergeByte(st.chunks, s, p); }
  }

  /** Adding one more segment to a state that holds exactly `segs`. */
  lemma WindowAdd(st: State, segs: seq<Chunk>, s: Chunk, cap: nat, ts: nat, lo: nat, width: nat)
    requires InWindow(segs + [s], lo, width) && PairwiseDisjoint(segs + [s])
    requires width <= cap && width <= MAX_BYTES_GAP && lo + width < TWO_63
    requires Holds(st, segs)
    ensures Holds(Added(st, cap, s, ts), segs + [s])
  {
    NewSegmentApart(segs, s, lo, width);
    TimesKnown(st, cap, segs, s, ts);
    forall p: nat | At(st.chunks, p).Some? ensures lo <= p < lo + width && !s.Has(p) {
      CoveredApart(segs, s, lo, width, p);
    }
    WindowRoute(st, s, lo, width);
    forall p: nat ensures At(segs + [s], p) == At(st.chunks, p).Or(ByteAt(s, p)) { AtOneMore(segs, s, p); }
    if st.chunks == [] {
      assert Added(st, cap, s, ts).chunks == [s];
      forall p: nat ensures At([s], p) == At(st.chunks, p).Or(ByteAt(s, p)) { }
    } else {
      WindowMerge(st, s, cap, ts, lo, width);
    }
  }

  lemma AddTimes(st: State, cap: nat, s: Chunk, ts: nat)
    ensures Added(st, cap, s, ts).times.Keys <= st.times.Keys + {s.left}
  {
  }

  lemma SpanFits(m: seq<Chunk>, cap: nat, lo: nat, width: nat)
    requires m != [] && Separated(m) && Sorted(m) && InRange(m) && width <= cap
    requires forall p: nat :: At(m, p).Some? ==> lo <= p < lo + width
    ensures Evicted(m, cap) == 0
  {
    EvictedExact(m, cap);
    ChunkInWindow(m, 0, lo, lo + width);
    ChunkInWindow(m, |m| - 1, lo, lo + width);
  }

  lemma NothingEvicted(cs: seq<Chunk>, cap: nat, s: Chunk, m: seq<Chunk>, lo: nat, width: nat)
    requires Separated(cs) && InRange(cs) && Admissible(cs, s) && s.bytes != [] && m == Merge(cs, s)
    requires width <= cap && lo + width < TWO_63 && lo <= s.left && s.Right() <= lo + width
    requires forall p: nat :: At(cs, p).Some? ==> lo <= p < lo + width
    ensures m != [] && Evicted(m, cap) == 0
  {
    AdmissibleSeparates(cs, s);
    MergeSorted(cs, s);
    MergeInRange(cs, s);
    forall p: nat | At(m, p).Some? ensures lo <= p < lo + width { MergeCovers(cs, s, p); }
    SpanFits(m, cap, lo, width);
  }

  // ----- order independence -----

  lemma {:induction false} WindowAddAll(cap: nat, segs: seq<Chunk>, clock: nat -> nat, lo: nat, width: nat)
    requires InWindow(segs, lo, width) && PairwiseDisjoint(segs)
    requires width <= cap && width <= MAX_BYTES_GAP && lo + width < TWO_63
    ensures Holds(AddAll(cap, segs, clock), segs)
  {
    if segs != [] {
      var n := |segs| - 1;
      assert segs == segs[..n] + [segs[n]];
      WindowAddAll(cap, segs[..n], clock, lo, width);
      WindowAdd(AddAll(cap, segs[..n], clock), segs[..n], segs[n], cap, clock(n), lo, width);
    }
  }

  /** Disjoint segments hold the same bytes in any order. */
  lemma AtPermuted(a: seq<Chunk>, b: seq<Chunk>, p: nat)
    requires multiset(a) == multiset(b) && PairwiseDisjoint(b)
    ensures At(a, p).Some? ==> At(b, p) == At(a, p)
  {
    if At(a, p).Some? {
      var i := Holder(a, p);
      assert a[i] in multiset(a) && a[i] in b;
      var j :| 0 <= j < |b| && b[j] == a[i];
      Covered(b, p);
      var k := Holder(b, p);
      assert k == j;
    }
  }

  /** The chunk a covered position is read from. */
  lemma {:induction false} Holder(cs: seq<Chunk>, p: nat) returns (i: nat)
    requires At(cs, p).Some?
    ensures i < |cs| && cs[i].Has(p) && At(cs, p) == ByteAt(cs[i], p)
  {
    if cs[0].Has(p) {
      i := 0;
    } else {
      i := Holder(cs[1..], p);
      i := i + 1;
    }
  }

  lemma DisjointPermuted(a: seq<Chunk>, b: seq<Chunk>)
    requires multiset(a) == multiset(b)
    requires forall i :: 0 <= i < |a| ==> a[i].bytes != []
    requires PairwiseDisjoint(a)
    ensures PairwiseDisjoint(b)
  {
    forall i, j | 0 <= i < j < |b| ensures Disjoint(b[i], b[j]) {
      if b[i] == b[j] {
        TwoCopies(b, i, j);
        Distinct(a, b[i]);
      } else {
        assert b[i] in multiset(b) && b[j] in multiset(b);
        assert b[i] in a && b[j] in a;
        var x :| 0 <= x < |a| && a[x] == b[i];
        var y :| 0 <= y < |a| && a[y] == b[j];
        assert x < y ==> Disjoint(a[x], a[y]);
        assert y < x ==> Disjoint(a[y], a[x]);
      }
    }
  }

  lemma TwoCopies(b: seq<Chunk>, i: nat, j: nat)
    requires i < j < |b| && b[i] == b[j]
    ensures multiset(b)[b[i]] >= 2
  {
    assert b == b[..i] + [b[i]] + b[i + 1..j] + [b[j]] + b[j + 1..];
  }

  /** A non-empty chunk occurs at most once among disjoint segments. */
  lemma {:induction false} Distinct(a: seq<Chunk>, c: Chunk)
    requires PairwiseDisjoint(a) && c.bytes != []
    ensures multiset(a)[c] <= 1
  {
    if a != [] {
      Distinct(a[1..], c);
      assert a == [a[0]] + a[1..];
      if a[0] == c {
        forall j | 0 <= j < |a[1..]| ensures a[1..][j] != c {
          assert Disjoint(a[0], a[j + 1]);
        }
      }
    }
  }

  /** Order independence: pairwise disjoint non-empty segments inside one window no
      wider than the capacity and the maximal gap give, in whatever order and at
      whatever times they arrive, the same chunks: the maximal contiguous runs of
      their union. */
  lemma OrderIndependence(cap: nat, a: seq<Chunk>, b: seq<Chunk>, clockA: nat -> nat, clockB: nat -> nat,
                          lo: nat, width: nat)
    requires multiset(a) == multiset(b)
    requires InWindow(a, lo, width) && PairwiseDisjoint(a)
    requires width <= cap && width <= MAX_BYTES_GAP && lo + width < TWO_63
    ensures AddAll(cap, a, clockA).chunks == AddAll(cap, b, clockB).chunks
    ensures Separated(AddAll(cap, a, clockA).chunks)
    ensures forall p: nat :: At(AddAll(cap, a, clockA).chunks, p) == At(a, p)
  {
    DisjointPermuted(a, b);
    forall i | 0 <= i < |b|
      ensures b[i].bytes != [] && lo <= b[i].left && b[i].Right() <= lo + width
    {
      assert b[i] in multiset(b) && b[i] in a;
    }
    WindowAddAll(cap, a, clockA, lo, width);
    WindowAddAll(cap, b, clockB, lo, width);
    var x, y := AddAll(cap, a, clockA).chunks, AddAll(cap, b, clockB).chunks;
    forall p: nat ensures At(x, p) == At(y, p) {
      AtPermuted(a, b, p);
      AtPermuted(b, a, p);
    }
    SeparatedUnique(x, y);
  }

  // ----- the timestamp index -----

  lemma CleanOldBound(times: map<nat, nat>)
    requires |times| <= MAX_TIMESTAMP_ENTRIES + 1
    ensures |CleanOld(times)| <= MAX_TIMESTAMP_ENTRIES
  {
    if |times| > MAX_TIMESTAMP_ENTRIES {
      var gone := Smallest(times.Keys, |times| / 2);
      assert (times - gone).Keys == times.Keys - gone;
    }
  }

  lemma SubmapSize(m: map<nat, nat>, s: set<nat>)
    requires m.Keys <= s
    ensures |m| <= |s|
  {
    assert s == m.Keys + (s - m.Keys);
  }

  /** Add keeps the index within its limit exactly when it does not start a new
      chunk list on a full index: that branch stores without cleaning. */
  lemma IndexBound(st: State, cap: nat, s: Chunk, ts: nat)
    requires |st.times| <= MAX_TIMESTAMP_ENTRIES
    ensures |Added(st, cap, s, ts).times| <= MAX_TIMESTAMP_ENTRIES
      <==> !(RouteOf(st, s) == First && |st.times| == MAX_TIMESTAMP_ENTRIES)
  {
    var put := st.times[s.left := ts];
    assert put.Keys == st.times.Keys + {s.left};
    match RouteOf(st, s)
    case First => assert |put| == |st.times| + 1;
    case MergePath =>
      var m := Merge(st.chunks, s);
      var kept := TimesAfterEviction(put, m, Evicted(m, cap));
      SubmapSize(kept, put.Keys);
      CleanOldBound(kept);
    case _ =>
  }

  /** The run that adds one byte at n-1, removes it, adds one at n-2, and so on. */
  ghost function Descending(n: nat, k: nat): seq<Op>
    requires k <= n
  {
    if k == 0 then [] else Descending(n, k - 1) + [Add(Chunk(n - k, [0]), 0), RemovePrefix(1)]
  }

  /** One round: the byte comes and goes, its index entry stays. */
  lemma DescendingRound(st: State, cap: nat, p: nat)
    requires st.chunks == [] && p + 1 < TWO_63 && forall t :: t in st.times ==> p < t
    ensures var ops := [Add(Chunk(p, [0]), 0), RemovePrefix(1)];
      Runnable(st, cap, ops) && Run(st, cap, ops) == State([], st.times[p := 0])
  {
    var c := Chunk(p, [0]);
    var ops := [Add(c, 0), RemovePrefix(1)];
    var s1 := State([c], st.times[p := 0]);
    assert RouteOf(st, c) == First && Step(st, cap, ops[0]) == s1;
    assert s1.chunks[1..] == [] && CleanBelow(s1.times, p) == s1.times;
    assert Removed(s1, 1) == State([], s1.times);
    assert ops[1..] == [RemovePrefix(1)] && ops[1..][1..] == [];
    assert Run(s1, cap, ops[1..]) == State([], s1.times);
  }

  /** So the index is not bounded over runs: each round of a descending run leaves
      one more entry behind although no byte is stored. */
  lemma {:induction false} IndexUnbounded(cap: nat, n: nat, k: nat)
    requires k <= n < TWO_63
    ensures Runnable(EMPTY, cap, Descending(n, k))
    ensures var st := Run(EMPTY, cap, Descending(n, k));
      st.chunks == [] && |st.times| == k && forall t :: t in st.times ==> n - k <= t
  {
    if k > 0 {
      IndexUnbounded(cap, n, k - 1);
      var ops := Descending(n, k - 1);
      var st := Run(EMPTY, cap, ops);
      DescendingRound(st, cap, n - k);
      PutNew(st.times, n - k);
      RunConcat(EMPTY, cap, ops, [Add(Chunk(n - k, [0]), 0), RemovePrefix(1)]);
    }
  }

  lemma PutNew(times: map<nat, nat>, p: nat)
    requires p !in times
    ensures |times[p := 0]| == |times| + 1
  {
    assert times[p := 0].Keys == times.Keys + {p};
  }

  lemma {:induction false} RunConcat(st: State, cap: nat, a: seq<Op>, b: seq<Op>)
    requires Runnable(st, cap, a) && Runnable(Run(st, cap, a), cap, b)
    ensures Runnable(st, cap, a + b) && Run(st, cap, a + b) == Run(Run(st, cap, a), cap, b)
    decreases a
  {
    if a == [] {
      assert a + b == b;
    } else {
      assert (a + b)[0] == a[0] && (a + b)[1..] == a[1..] + b;
      RunConcat(Step(st, cap, a[0]), cap, a[1..], b);
    }
  }
}
