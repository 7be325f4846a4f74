/** Runs of the reassembly buffer with a contained segment: order and eviction go wrong. */
module ReassemblyFailures {
  import opened Words
  import opened Options
  import opened Reassembly
  import opened ReassemblyMerge
  import opened ReassemblyEviction
  import opened ReassemblyRuns

  /** A segment inside the only chunk becomes a chunk of its own. */
  lemma ContainedAdd(a: Chunk, b: Chunk, cap: nat, times: map<nat, nat>, ts: nat)
    requires a.left < b.left < b.Right() < a.Right() < OVERFLOW_GAP && |a.bytes| <= cap < TWO_63
    requires b.left !in times && |times| < MAX_TIMESTAMP_ENTRIES
    ensures Added(State([a], times), cap, b, ts) == State([a, b], times[b.left := ts])
  {
    var st := State([a], times);
    RouteByDistance(st, b);
    assert Upto([a], b.left) == 1;
    assert Merge([a], b) == [a, b];
    FitsTest(a.left, b.Right(), cap);
    assert Evicted([a, b], cap) == 0;
  }

  function Wide(): Chunk { Chunk(0, seq(100, i => 7)) }

  const INNER := Chunk(2, [7, 7])
  const LATE := Chunk(40, [7])

  /** A segment, one inside it, and the removal of a prefix that ends past the inner one. */
  function ContainedRun(): seq<Op> {
    [Add(Wide(), 1), Add(INNER, 2), RemovePrefix(50)]
  }

  lemma RunCons(st: State, cap: nat, op: Op, ops: seq<Op>)
    requires Enabled(st, op) && Runnable(Step(st, cap, op), cap, ops)
    ensures Runnable(st, cap, [op] + ops) && Run(st, cap, [op] + ops) == Run(Step(st, cap, op), cap, ops)
  {
    assert ([op] + ops)[1..] == ops;
  }

  /** Without admissibility RemovePrefix can break the order by left boundary: a cut
      head may start after a chunk that lay inside it. */
  lemma OrderLostWithoutAdmissibility(cap: nat)
    requires 100 <= cap < TWO_63
    ensures Runnable(EMPTY, cap, ContainedRun())
    ensures Run(EMPTY, cap, ContainedRun()) == State([Chunk(50, Wide().bytes[50..]), INNER], map[0 := 1, 2 := 2])
    ensures !Sorted(Run(EMPTY, cap, ContainedRun()).chunks)
  {
    var s1, s2 := State([Wide()], map[0 := 1]), State([Wide(), INNER], map[0 := 1, 2 := 2]);
    assert Added(EMPTY, cap, Wide(), 1) == s1;
    ContainedAdd(Wide(), INNER, cap, s1.times, 2);
    assert Total(s2.chunks) == 102;
    var s3 := Removed(s2, 50);
    assert s3.chunks == [Chunk(50, Wide().bytes[50..])] + s2.chunks[1..];
    RunCons(s2, cap, RemovePrefix(50), []);
    RunCons(s1, cap, Add(INNER, 2), [RemovePrefix(50)] + []);
    RunCons(EMPTY, cap, Add(Wide(), 1), [Add(INNER, 2)] + ([RemovePrefix(50)] + []));
    assert ContainedRun() == [Add(Wide(), 1)] + ([Add(INNER, 2)] + ([RemovePrefix(50)] + []));
    assert s3.chunks[0].left > s3.chunks[1].left;
  }

  /** One more segment after that run: the eviction loop wraps and drops two of three
      chunks, although all of them fit the capacity, and its clean-up drops the index entry
      of the chunk that is left. */
  lemma EvictionWrapRun(cap: nat)
    requires 100 <= cap < TWO_63
    ensures Runnable(EMPTY, cap, ContainedRun())
    ensures var st := Run(EMPTY, cap, ContainedRun());
      var merged := Merge(st.chunks, LATE);
      && RouteOf(st, LATE) == MergePath
      && (exists j: nat :: WrapsAt(merged, cap, j))
      && (forall p: nat :: At(merged, p).Some? ==> 2 <= p < 2 + cap)
      && Added(st, cap, LATE, 3) == State([INNER], map[])
  {
    OrderLostWithoutAdmissibility(cap);
    var st := Run(EMPTY, cap, ContainedRun());
    var big := Chunk(50, Wide().bytes[50..]);
    RouteByDistance(st, LATE);
    assert Upto(st.chunks, 40) == 0;
    var m := [LATE, big, INNER];
    assert Merge(st.chunks, LATE) == m;
    OutOfOrderEviction(m, cap);
    assert m[2..] == [INNER];
    assert CleanBelow(st.times[40 := 3], 50) == map[];
    forall p: nat | At(m, p).Some? ensures 2 <= p < 2 + cap { CoveredByOne(m, p); }
  }

  lemma OutOfOrderEviction(m: seq<Chunk>, cap: nat)
    requires |m| == 3 && m[2].left <= m[2].Right() <= m[2].left + cap && cap < TWO_63
    requires m[2].Right() < m[0].left < TWO_63 && m[2].Right() < m[1].left < TWO_63
    ensures Evicted(m, cap) == 2 && WrapsAt(m, cap, 0)
  {
    FitsTest(m[0].left, m[2].Right(), cap);
    FitsTest(m[1].left, m[2].Right(), cap);
    FitsTest(m[2].left, m[2].Right(), cap);
    assert m[1..][1..] == m[2..] && m[2..][1..] == [];
    assert PositionN(m[1..]) == PositionN(m[2..]) == m[2].Right();
    assert Evicted(m[2..], cap) == 0;
    assert Evicted(m[1..], cap) == 1;
  }

  lemma {:induction false} CoveredByOne(cs: seq<Chunk>, p: nat)
    requires At(cs, p).Some?
    ensures exists i :: 0 <= i < |cs| && cs[i].Has(p)
  {
    if !cs[0].Has(p) {
      CoveredByOne(cs[1..], p);
      var i :| 0 <= i < |cs[1..]| && cs[1..][i].Has(p);
      assert cs[i + 1].Has(p);
    }
  }
}
