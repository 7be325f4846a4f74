/** Properties of whole runs of the reassembly buffer. */
module ReassemblyRuns {
  import opened Words
  import opened Options
  import opened Reassembly
  import opened ReassemblyMerge
  import opened ReassemblyEviction

  // ----- one Add -----

  /** The three things Add can do to the chunks. */
  lemma AddedChunks(st: State, cap: nat, s: Chunk, ts: nat)
    ensures var next, merged := Added(st, cap, s, ts).chunks, Merge(st.chunks, s);
      || next == st.chunks
      || next == [s]
      || (RouteOf(st, s) == MergePath && next == merged[Evicted(merged, cap)..])
    ensures RouteOf(st, s) == MergePath ==>
      var merged := Merge(st.chunks, s); Added(st, cap, s, ts).chunks == merged[Evicted(merged, cap)..]
  {
  }

  lemma SuffixKeeps(cs: seq<Chunk>, k: nat)
    requires k <= |cs|
    ensures InRange(cs) ==> InRange(cs[k..])
    ensures Sorted(cs) ==> Sorted(cs[k..])
    ensures NonEmpty(cs) ==> NonEmpty(cs[k..])
    ensures Separated(cs) ==> Separated(cs[k..])
  {
  }

  lemma AddedKeeps(st: State, cap: nat, s: Chunk, ts: nat)
    requires InRange(st.chunks) && s.Right() < TWO_63
    ensures InRange(Added(st, cap, s, ts).chunks)
    ensures Sorted(st.chunks) ==> Sorted(Added(st, cap, s, ts).chunks)
    ensures NonEmpty(st.chunks) && s.bytes != [] ==> NonEmpty(Added(st, cap, s, ts).chunks)
  {
    var merged := Merge(st.chunks, s);
    AddedChunks(st, cap, s, ts);
    MergeInRange(st.chunks, s);
    if Sorted(st.chunks) { MergeSorted(st.chunks, s); }
    if NonEmpty(st.chunks) && s.bytes != [] { MergeNonEmpty(st.chunks, s); }
    SuffixKeeps(merged, Evicted(merged, cap));
  }

  /** The branch taken, in true distances: positions below 2^63 never wrap. */
  lemma RouteByDistance(st: State, s: Chunk)
    requires st.chunks != [] && InRange(st.chunks) && s.Right() < TWO_63 && s.left !in st.times
    ensures var first, last := Position0(st.chunks), PositionN(st.chunks);
      RouteOf(st, s) ==
        if s.left + OVERFLOW_GAP <= last then Wrapped
        else if s.left + MAX_BYTES_GAP <= first then TooOld
        else if last + MAX_BYTES_GAP <= s.left then Gap
        else MergePath
  {
    SignedDistance(PositionN(st.chunks), s.left);
    SignedDistance(Position0(st.chunks), s.left);
    SignedDistance(s.left, PositionN(st.chunks));
  }

  /** After every merge-path Add, on chunks in any order and for any segment, what is
      stored fits the capacity or nothing is stored. */
  lemma AddBounded(st: State, cap: nat, s: Chunk, ts: nat)
    requires InRange(st.chunks) && s.Right() < TWO_63 && RouteOf(st, s) == MergePath
    requires cap < TWO_63 || Sorted(st.chunks)
    ensures var next := Added(st, cap, s, ts).chunks;
      next == [] || Position0(next) <= PositionN(next) <= Position0(next) + cap
  {
    AddedChunks(st, cap, s, ts);
    MergeInRange(st.chunks, s);
    if Sorted(st.chunks) { MergeSorted(st.chunks, s); }
    EvictionBound(Merge(st.chunks, s), cap);
  }

  /** What a suffix of a separated list holds. */
  lemma AtSuffix(m: seq<Chunk>, k: nat, p: nat)
    requires Separated(m) && k <= |m|
    ensures At(m[k..], p) == if k == |m| || p < m[k].left then None else At(m, p)
  {
    AtSplit(m, k, p);
    if k < |m| && p < m[k].left { OutBelow(m[k..], p); }
    if k < |m| && p >= m[k].left { OutAbove(m[..k], p); }
  }

  /** What position `p` should hold after adding `s` to `cs` when `next` is what
      eviction left: nothing below its start, and otherwise the first byte written. */
  function Kept(next: seq<Chunk>, cs: seq<Chunk>, s: Chunk, p: nat): Option<byte> {
    if next == [] || p < Position0(next) then None else At(cs, p).Or(ByteAt(s, p))
  }

  lemma EvictedMergeRefines(cs: seq<Chunk>, cap: nat, s: Chunk, m: seq<Chunk>, k: nat)
    requires Separated(cs) && InRange(cs) && s.bytes != [] && s.Right() < TWO_63 && Admissible(cs, s)
    requires m == Merge(cs, s) && k == Evicted(m, cap)
    ensures Separated(m[k..])
    ensures m[k..] != [] ==> Position0(m[k..]) <= PositionN(m[k..]) <= Position0(m[k..]) + cap
    ensures forall p: nat :: At(m[k..], p) == Kept(m[k..], cs, s, p)
  {
    AdmissibleSeparates(cs, s);
    MergeSorted(cs, s);
    MergeInRange(cs, s);
    EvictionBound(m, cap);
    SuffixKeeps(m, k);
    forall p: nat ensures At(m[k..], p) == Kept(m[k..], cs, s, p) {
      MergeByte(cs, s, p);
      AtSuffix(m, k, p);
    }
  }

  /** The refinement step: after a merge-path Add of an admissible segment the
      chunks are separated and fit the capacity, and every position not evicted holds
      its old byte, or the segment's byte where it had none. */
  lemma AddRefines(st: State, cap: nat, s: Chunk, ts: nat)
    requires Separated(st.chunks) && InRange(st.chunks)
    requires s.bytes != [] && s.Right() < TWO_63
    requires RouteOf(st, s) == MergePath && Admissible(st.chunks, s)
    ensures var next := Added(st, cap, s, ts).chunks;
      && Separated(next)
      && (next != [] ==> Position0(next) <= PositionN(next) <= Position0(next) + cap)
      && forall p: nat :: At(next, p) == Kept(next, st.chunks, s, p)
  {
    var m := Merge(st.chunks, s);
    AddedChunks(st, cap, s, ts);
    EvictedMergeRefines(st.chunks, cap, s, m, Evicted(m, cap));
  }

  /** Coverage on the merge path, whatever the segment overlaps. */
  lemma AddCovers(st: State, cap: nat, s: Chunk, ts: nat, p: nat)
    requires RouteOf(st, s) == MergePath
    ensures var m := Merge(st.chunks, s);
      var k := Evicted(m, cap);
      && Added(st, cap, s, ts).chunks == m[k..]
      && ((At(m[..k], p).Some? || At(Added(st, cap, s, ts).chunks, p).Some?)
          <==> At(st.chunks, p).Some? || s.Has(p))
  {
    AddedChunks(st, cap, s, ts);
    MergeCovers(st.chunks, s, p);
    AtSplit(Merge(st.chunks, s), Evicted(Merge(st.chunks, s), cap), p);
  }

  // ----- RemovePrefix -----

  /** Exactly `n` bytes leave the front of the stored text. */
  lemma {:induction false} RemovedDrops(st: State, n: nat)
    requires n <= Total(st.chunks)
    ensures Flatten(Removed(st, n).chunks) == Flatten(st.chunks)[n..]
    decreases |st.chunks|
  {
    if n > 0 && st.chunks != [] {
      var head := st.chunks[0];
      if |head.bytes| <= n {
        RemovedDrops(State(st.chunks[1..], CleanBelow(st.times, head.left)), n - |head.bytes|);
      }
    }
  }

  /** The chunks from index `k` on, the first without its first `cut` bytes. */
  function Cut(cs: seq<Chunk>, k: nat, cut: nat): seq<Chunk>
    requires k < |cs| ==> cut <= |cs[k].bytes|
  {
    if k >= |cs| then [] else [Chunk(cs[k].left + cut, cs[k].bytes[cut..])] + cs[k + 1..]
  }

  /** What is left is a suffix of the chunks, its first one possibly cut. */
  lemma {:induction false} RemovedShape(st: State, n: nat) returns (k: nat, cut: nat)
    requires st.chunks == [] || n <= Total(st.chunks)
    ensures k < |st.chunks| ==> cut == 0 || cut < |st.chunks[k].bytes|
    ensures Removed(st, n).chunks == Cut(st.chunks, k, cut)
    decreases |st.chunks|
  {
    if n == 0 || st.chunks == [] {
      k, cut := 0, 0;
      if st.chunks != [] { assert st.chunks == [st.chunks[0]] + st.chunks[1..]; }
    } else if |st.chunks[0].bytes| > n {
      k, cut := 0, n;
    } else {
      var rest := State(st.chunks[1..], CleanBelow(st.times, st.chunks[0].left));
      k, cut := RemovedShape(rest, n - |st.chunks[0].bytes|);
      k := k + 1;
      if k < |st.chunks| { assert rest.chunks[k..] == st.chunks[k + 1..]; }
    }
  }

  lemma CutSeparated(cs: seq<Chunk>, k: nat, cut: nat)
    requires k < |cs| ==> cut == 0 || cut < |cs[k].bytes|
    requires Separated(cs)
    ensures Separated(Cut(cs, k, cut))
  {
    if k < |cs| {
      SeparatedSlice(cs, k + 1, |cs|);
      assert Cut(cs, k, cut) == [] + [Cut(cs, k, cut)[0]] + cs[k + 1..];
      Joined([], Cut(cs, k, cut)[0], cs[k + 1..]);
    }
  }

  lemma RemovedKeeps(st: State, n: nat)
    requires st.chunks == [] || n <= Total(st.chunks)
    ensures InRange(st.chunks) ==> InRange(Removed(st, n).chunks)
    ensures NonEmpty(st.chunks) ==> NonEmpty(Removed(st, n).chunks)
    ensures Separated(st.chunks) ==> Separated(Removed(st, n).chunks)
    ensures Sorted(st.chunks) ==> (Sorted(Removed(st, n).chunks) <==> CutStaysInOrder(st.chunks, n))
  {
    if Sorted(st.chunks) { RemovedSorted(st, n); }
    var k, cut := RemovedShape(st, n);
    if Separated(st.chunks) { CutSeparated(st.chunks, k, cut); }
    CutKeeps(st.chunks, k, cut);
  }

  lemma CutKeeps(cs: seq<Chunk>, k: nat, cut: nat)
    requires k < |cs| ==> cut == 0 || cut < |cs[k].bytes|
    ensures InRange(cs) ==> InRange(Cut(cs, k, cut))
    ensures NonEmpty(cs) ==> NonEmpty(Cut(cs, k, cut))
  {
    if k < |cs| { assert cs[k].Right() == Cut(cs, k, cut)[0].Right(); }
  }

  /** The chunk that byte `n` of the stored text lies in. */
  function CutIndex(cs: seq<Chunk>, n: nat): (k: nat)
    requires n < Total(cs)
    ensures k < |cs|
  {
    if |cs[0].bytes| > n then 0 else 1 + CutIndex(cs[1..], n - |cs[0].bytes|)
  }

  /** In prefix sums: the first chunk with more than `n` bytes stored up to its end. */
  lemma {:induction false} CutIndexSums(cs: seq<Chunk>, n: nat)
    requires n < Total(cs)
    ensures var k := CutIndex(cs, n); Total(cs[..k]) <= n < Total(cs[..k + 1])
  {
    var k := CutIndex(cs, n);
    TotalPrefix(cs, k + 1);
    if k > 0 {
      CutIndexSums(cs[1..], n - |cs[0].bytes|);
      TotalPrefix(cs, k);
    }
  }

  lemma TotalPrefix(cs: seq<Chunk>, k: nat)
    requires 0 < k <= |cs|
    ensures Total(cs[..k]) == |cs[0].bytes| + Total(cs[1..][..k - 1])
  {
    assert cs[..k][1..] == cs[1..][..k - 1];
  }

  /** The chunk cut by removing `n` bytes does not then start after the next one. */
  predicate CutStaysInOrder(cs: seq<Chunk>, n: nat) {
    n < Total(cs) ==>
      var k := CutIndex(cs, n);
      k + 1 < |cs| ==> cs[k].left + n <= cs[k + 1].left + Total(cs[..k])
  }

  lemma ConsSorted(c: Chunk, cs: seq<Chunk>)
    requires Sorted(cs)
    ensures Sorted([c] + cs) <==> (cs != [] ==> c.left <= cs[0].left)
  {
    var m := [c] + cs;
    if Sorted(m) && cs != [] { assert m[0].left <= m[1].left; }
  }

  lemma CutTail(cs: seq<Chunk>, n: nat)
    requires cs != [] && |cs[0].bytes| <= n
    ensures CutStaysInOrder(cs, n) <==> CutStaysInOrder(cs[1..], n - |cs[0].bytes|)
  {
    if n < Total(cs) {
      var k := CutIndex(cs, n);
      TotalPrefix(cs, k);
    }
  }

  lemma CutNothing(cs: seq<Chunk>)
    requires Sorted(cs)
    ensures CutStaysInOrder(cs, 0)
  {
  }

  /** Exactly when removing a prefix keeps chunks ordered by left boundary. */
  lemma {:induction false} RemovedSorted(st: State, n: nat)
    requires Sorted(st.chunks) && (st.chunks == [] || n <= Total(st.chunks))
    ensures Sorted(Removed(st, n).chunks) <==> CutStaysInOrder(st.chunks, n)
    decreases |st.chunks|
  {
    var cs := st.chunks;
    if n == 0 || cs == [] {
      CutNothing(cs);
    } else if |cs[0].bytes| > n {
      SuffixKeeps(cs, 1);
      ConsSorted(Chunk(cs[0].left + n, cs[0].bytes[n..]), cs[1..]);
      assert cs[..0] == [];
    } else {
      SuffixKeeps(cs, 1);
      RemovedSorted(State(cs[1..], CleanBelow(st.times, cs[0].left)), n - |cs[0].bytes|);
      CutTail(cs, n);
    }
  }

  // ----- runs -----

  datatype Op = Add(seg: Chunk, ts: nat) | RemovePrefix(n: nat) | Clear

  /** What callers owe: positions stay below 2^63, and no more is removed than is
      stored. */
  ghost predicate Enabled(st: State, op: Op) {
    match op
    case Add(seg, _) => seg.Right() < TWO_63
    case RemovePrefix(n) => st.chunks == [] || n <= Total(st.chunks)
    case Clear => true
  }

  ghost function Step(st: State, cap: nat, op: Op): State
    requires Enabled(st, op)
  {
    match op
    case Add(seg, ts) => Added(st, cap, seg, ts)
    case RemovePrefix(n) => Removed(st, n)
    case Clear => EMPTY
  }

  ghost predicate Runnable(st: State, cap: nat, ops: seq<Op>)
    decreases ops
  {
    ops != [] ==> Enabled(st, ops[0]) && Runnable(Step(st, cap, ops[0]), cap, ops[1..])
  }

  ghost function Run(st: State, cap: nat, ops: seq<Op>): State
    requires Runnable(st, cap, ops)
    decreases ops
  {
    if ops == [] then st else Run(Step(st, cap, ops[0]), cap, ops[1..])
  }

  /** `c` is a slice of the byte stream `stream` at its own position. */
  ghost predicate SliceOf(c: Chunk, stream: nat -> byte) {
    forall i :: 0 <= i < |c.bytes| ==> c.bytes[i] == stream(c.left + i)
  }

  ghost predicate AllSlices(cs: seq<Chunk>, stream: nat -> byte) {
    forall i :: 0 <= i < |cs| ==> SliceOf(cs[i], stream)
  }

  lemma FusedSlice(cs: seq<Chunk>, i: nat, s: Chunk, stream: nat -> byte)
    requires i <= |cs| && AllSlices(cs, stream) && SliceOf(s, stream)
    ensures SliceOf(Fused(cs, i, s), stream)
  {
    var f := if FusesLeft(cs, i, s) then FuseLeft(cs[i - 1], s) else s;
    assert SliceOf(f, stream);
  }

  lemma MergeSlices(cs: seq<Chunk>, s: Chunk, stream: nat -> byte)
    requires AllSlices(cs, stream) && SliceOf(s, stream)
    ensures AllSlices(Merge(cs, s), stream)
  {
    FusedSlice(cs, Upto(cs, s.left), s, stream);
    forall k | 0 <= k < |Merge(cs, s)| ensures SliceOf(Merge(cs, s)[k], stream) {
      MergeElement(cs, s, k);
    }
  }

  lemma AddSound(st: State, cap: nat, s: Chunk, ts: nat, stream: nat -> byte)
    requires AllSlices(st.chunks, stream) && SliceOf(s, stream)
    ensures AllSlices(Added(st, cap, s, ts).chunks, stream)
  {
    AddedChunks(st, cap, s, ts);
    MergeSlices(st.chunks, s, stream);
    var m := Merge(st.chunks, s);
    assert AllSlices(m[Evicted(m, cap)..], stream);
  }

  lemma RemoveSound(st: State, n: nat, stream: nat -> byte)
    requires st.chunks == [] || n <= Total(st.chunks)
    requires AllSlices(st.chunks, stream)
    ensures AllSlices(Removed(st, n).chunks, stream)
  {
    var k, cut := RemovedShape(st, n);
    CutSlices(st.chunks, k, cut, stream);
  }

  lemma CutSlices(cs: seq<Chunk>, k: nat, cut: nat, stream: nat -> byte)
    requires k < |cs| ==> cut <= |cs[k].bytes|
    requires AllSlices(cs, stream)
    ensures AllSlices(Cut(cs, k, cut), stream)
  {
    if k < |cs| {
      assert SliceOf(cs[k], stream);
      assert SliceOf(Cut(cs, k, cut)[0], stream);
    }
  }

  lemma StepSound(st: State, cap: nat, op: Op, stream: nat -> byte)
    requires Enabled(st, op) && InRange(st.chunks) && AllSlices(st.chunks, stream)
    requires op.Add? ==> SliceOf(op.seg, stream)
    ensures InRange(Step(st, cap, op).chunks) && AllSlices(Step(st, cap, op).chunks, stream)
  {
    match op
    case Add(s, ts) =>
      AddedKeeps(st, cap, s, ts);
      AddSound(st, cap, s, ts, stream);
    case RemovePrefix(n) =>
      RemovedKeeps(st, n);
      RemoveSound(st, n, stream);
    case Clear =>
  }

  /** Reassembly soundness: if every added segment is a slice of one byte stream,
      then after any run, with any overlaps, re-sends and removals, every chunk is
      still a slice of that stream at its own position. */
  lemma {:induction false} ReassemblySound(st: State, cap: nat, ops: seq<Op>, stream: nat -> byte)
    requires Runnable(st, cap, ops) && InRange(st.chunks) && AllSlices(st.chunks, stream)
    requires forall i :: 0 <= i < |ops| && ops[i].Add? ==> SliceOf(ops[i].seg, stream)
    ensures InRange(Run(st, cap, ops).chunks) && AllSlices(Run(st, cap, ops).chunks, stream)
    decreases ops
  {
    if ops != [] {
      StepSound(st, cap, ops[0], stream);
      ReassemblySound(Step(st, cap, ops[0]), cap, ops[1..], stream);
    }
  }

  /** Each Add of the run is admissible where it merges. */
  ghost predicate AdmissibleRun(st: State, cap: nat, ops: seq<Op>)
    requires Runnable(st, cap, ops)
    decreases ops
  {
    ops != [] ==>
      && (ops[0].Add? ==> ops[0].seg.bytes != [] && (RouteOf(st, ops[0].seg) == MergePath ==> Admissible(st.chunks, ops[0].seg)))
      && AdmissibleRun(Step(st, cap, ops[0]), cap, ops[1..])
  }

  /** In a run whose merges are all admissible the chunks stay non-empty, ordered
      and separated by gaps. */
  lemma {:induction false} RunSeparated(st: State, cap: nat, ops: seq<Op>)
    requires Runnable(st, cap, ops) && AdmissibleRun(st, cap, ops)
    requires InRange(st.chunks) && Separated(st.chunks)
    ensures Separated(Run(st, cap, ops).chunks) && InRange(Run(st, cap, ops).chunks)
    decreases ops
  {
    if ops != [] {
      match ops[0] {
        case Add(s, ts) =>
          AddedKeeps(st, cap, s, ts);
          if RouteOf(st, s) == MergePath { AddRefines(st, cap, s, ts); }
        case RemovePrefix(n) => RemovedKeeps(st, n);
        case Clear =>
      }
      RunSeparated(Step(st, cap, ops[0]), cap, ops[1..]);
    }
  }

  ghost predicate AlwaysSorted(st: State, cap: nat, ops: seq<Op>)
    requires Runnable(st, cap, ops)
    decreases ops
  {
    Sorted(st.chunks) && (ops != [] ==> AlwaysSorted(Step(st, cap, ops[0]), cap, ops[1..]))
  }

  ghost predicate CutsStayInOrder(st: State, cap: nat, ops: seq<Op>)
    requires Runnable(st, cap, ops)
    decreases ops
  {
    ops != [] ==>
      && (ops[0].RemovePrefix? ==> CutStaysInOrder(st.chunks, ops[0].n))
      && CutsStayInOrder(Step(st, cap, ops[0]), cap, ops[1..])
  }

  /** In every run, whatever the segments overlap, chunks stay ordered by left boundary
      throughout exactly when no removal cuts a chunk past the start of the next one. */
  lemma {:induction false} RunSorted(st: State, cap: nat, ops: seq<Op>)
    requires Runnable(st, cap, ops) && InRange(st.chunks) && Sorted(st.chunks)
    ensures AlwaysSorted(st, cap, ops) <==> CutsStayInOrder(st, cap, ops)
    decreases ops
  {
    if ops != [] {
      var next := Step(st, cap, ops[0]);
      match ops[0] {
        case Add(s, ts) => AddedKeeps(st, cap, s, ts);
        case RemovePrefix(n) => RemovedKeeps(st, n);
        case Clear =>
      }
      if Sorted(next.chunks) { RunSorted(next, cap, ops[1..]); }
    }
  }
}
