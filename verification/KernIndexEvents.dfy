/** What the stored events hold, and that a report is found by later queries. */
module KernIndexEvents {
  import opened Words
  import opened KernIndex
  import opened KernIndexProofs
  import opened KernIndexTimes

  // ----- the stored event is the reported one -----

  /** The event holds what the report said; its interface times are another matter. */
  predicate AsReported(e: KernEvent, r: Report) {
    e.pos == r.pos && e.len == r.len && e.startTs == r.ts && e.tsDelta == r.tsDelta && e.step == r.step
  }

  predicate SameButTimes(a: KernEvent, b: KernEvent) {
    a.pos == b.pos && a.len == b.len && a.startTs == b.startTs && a.tsDelta == b.tsDelta && a.step == b.step
  }

  /** After a report every event is as before but for its times, or is the report's, and the
      latter exactly where the position was not stored and the ring was not full. */
  lemma {:induction false} InsertedEvents(es: seq<KernEvent>, maxLen: nat, r: Report, k: nat) returns (j: nat)
    requires Sorted(es) && k < |Inserted(es, maxLen, r)|
    ensures var e := Inserted(es, maxLen, r)[k];
      if e.pos == r.pos && !Has(es, r.pos) then AsReported(e, r) && |es| != maxLen
      else j < |es| && SameButTimes(e, es[j])
  {
    var i, m := LowerBound(es, r.pos), Inserted(es, maxLen, r);
    j := k;
    if i < |es| && es[i].pos == r.pos {
      assert Has(es, r.pos);
    } else if |es| != maxLen {
      if k > i {
        j := k - 1;
        assert m[k] == es[j];
      } else if k == i {
        assert m[k] == FreshEvent(r);
      } else {
        assert m[k] == es[k];
      }
      NotStored(es, r.pos);
    } else {
      NotStored(es, r.pos);
      assert m[k] == es[k];
      assert es[k].pos != r.pos;
    }
  }

  lemma {:induction false} NotStored(es: seq<KernEvent>, p: nat)
    requires Sorted(es) && (LowerBound(es, p) < |es| ==> es[LowerBound(es, p)].pos != p)
    ensures !Has(es, p)
  {
    var i := LowerBound(es, p);
    forall j | i < j < |es| ensures es[j].pos > p { assert es[i].pos < es[j].pos; }
  }

  /** Every event stored before a report is still stored, changed at most in its times. */
  lemma {:induction false} InsertedKeepsEvents(es: seq<KernEvent>, maxLen: nat, r: Report, j: nat) returns (k: nat)
    requires j < |es|
    ensures k < |Inserted(es, maxLen, r)| && SameButTimes(Inserted(es, maxLen, r)[k], es[j])
  {
    var i := LowerBound(es, r.pos);
    k := if j < i || |Inserted(es, maxLen, r)| == |es| then j else j + 1;
  }

  lemma {:induction false} InsertedNew(es: seq<KernEvent>, maxLen: nat, r: Report) returns (k: nat)
    requires !Has(es, r.pos) && |es| != maxLen
    ensures k < |Inserted(es, maxLen, r)| && AsReported(Inserted(es, maxLen, r)[k], r)
  {
    k := LowerBound(es, r.pos);
  }

  /** What the answer of `AddKernEvent` means: a new position is stored; a stored device
      event takes the time over; any other stored event started later. */
  lemma {:induction false} AcceptedExact(es: seq<KernEvent>, maxLen: nat, r: Report)
    requires Sorted(es) && |es| <= maxLen
    ensures !Has(es, r.pos) ==> (Accepted(es, maxLen, r) <==> Has(Inserted(es, maxLen, r), r.pos))
    ensures forall j :: 0 <= j < |es| && es[j].pos == r.pos ==>
      if IsNicStep(r.step) then
        Accepted(es, maxLen, r) <==> !(r.ifname in es[j].times && es[j].times[r.ifname] < Int64(r.ts))
      else
        Accepted(es, maxLen, r) <==> es[j].startTs > r.ts
  {
    InsertedHas(es, maxLen, r, r.pos);
    var i := LowerBound(es, r.pos);
    forall j | 0 <= j < |es| && es[j].pos == r.pos ensures j == i { }
  }

  /** The report that inserted each stored position. */
  type Origins = map<(Step, nat), Report>

  ghost function OriginStep(ix: Index, maxLen: nat, log: Origins, op: Op): Origins {
    if op.Add? && op.r.len > 0 && !Stored(Discarded(ix), op.r.step, op.r.pos) && |RingOf(Discarded(ix), op.r.step)| != maxLen
    then log[(op.r.step, op.r.pos as nat) := op.r] else log
  }

  ghost function OriginRun(ix: Index, maxLen: nat, log: Origins, ops: seq<Op>): Origins
    decreases ops
  {
    if ops == [] then log
    else OriginRun(Step1(ix, maxLen, ops[0]), maxLen, OriginStep(ix, maxLen, log, ops[0]), ops[1..])
  }

  ghost predicate RingAsReported(s: Step, es: seq<KernEvent>, log: Origins) {
    forall i :: 0 <= i < |es| ==> (s, es[i].pos) in log && AsReported(es[i], log[(s, es[i].pos)])
  }

  ghost predicate AllAsReported(ix: Index, log: Origins) {
    forall s :: s in ix.rings ==> RingAsReported(s, ix.rings[s], log)
  }

  lemma DiscardedAsReported(ix: Index, log: Origins)
    requires AllAsReported(ix, log)
    ensures AllAsReported(Discarded(ix), log)
  {
    forall s | s in ix.rings ensures RingAsReported(s, DiscardStep(ix, s), log) {
      var es, ds := ix.rings[s], DiscardStep(ix, s);
      assert RingAsReported(s, es, log) && ds == es[|es| - |ds|..];
    }
  }

  lemma InsertedAsReported(es: seq<KernEvent>, maxLen: nat, log: Origins, r: Report, log': Origins)
    requires Sorted(es) && RingAsReported(r.step, es, log)
    requires log' == if !Has(es, r.pos) && |es| != maxLen then log[(r.step, r.pos as nat) := r] else log
    ensures RingAsReported(r.step, Inserted(es, maxLen, r), log')
  {
    var next := Inserted(es, maxLen, r);
    forall k | 0 <= k < |next| ensures (r.step, next[k].pos) in log' && AsReported(next[k], log'[(r.step, next[k].pos)]) {
      var j := InsertedEvents(es, maxLen, r, k);
    }
  }

  lemma AddAsReported(ix: Index, maxLen: nat, log: Origins, r: Report)
    requires GoodIndex(ix, maxLen) && AllAsReported(ix, log)
    ensures AllAsReported(Added(ix, maxLen, r), OriginStep(ix, maxLen, log, Add(r)))
  {
    var d, log' := Discarded(ix), OriginStep(ix, maxLen, log, Add(r));
    DiscardedGood(ix, maxLen);
    DiscardedAsReported(ix, log);
    if r.len > 0 {
      InsertedAsReported(RingOf(d, r.step), maxLen, log, r, log');
      forall s | s in d.rings && s != r.step ensures RingAsReported(s, d.rings[s], log') {
        assert RingAsReported(s, d.rings[s], log);
      }
    }
  }

  /** In every run each stored event has the position, length, time, delta and step of the
      report that inserted it, whatever was reported for its position later. */
  lemma {:induction false} RunAsReported(ix: Index, maxLen: nat, log: Origins, ops: seq<Op>)
    requires GoodIndex(ix, maxLen) && AllAsReported(ix, log)
    ensures AllAsReported(Run(ix, maxLen, ops), OriginRun(ix, maxLen, log, ops))
    decreases ops
  {
    if ops != [] {
      StepGood(ix, maxLen, ops[0]);
      if ops[0].Add? { AddAsReported(ix, maxLen, log, ops[0].r); }
      RunAsReported(Step1(ix, maxLen, ops[0]), maxLen, OriginStep(ix, maxLen, log, ops[0]), ops[1..]);
    }
  }

  // ----- a report is found -----

  ghost predicate StoredAs(ix: Index, r: Report) {
    exists i :: 0 <= i < |RingOf(ix, r.step)| && AsReported(RingOf(ix, r.step)[i], r)
  }

  ghost predicate NeverDrops(ix: Index, maxLen: nat, ops: seq<Op>, s: Step, p: nat)
    decreases ops
  {
    ops != [] ==> !Drops(ix, ops[0], s, p) && NeverDrops(Step1(ix, maxLen, ops[0]), maxLen, ops[1..], s, p)
  }

  lemma FirstReportStored(ix: Index, maxLen: nat, r: Report)
    requires r.len > 0 && !Stored(Discarded(ix), r.step, r.pos) && |RingOf(Discarded(ix), r.step)| != maxLen
    ensures StoredAs(Added(ix, maxLen, r), r)
  {
    var k := InsertedNew(RingOf(Discarded(ix), r.step), maxLen, r);
    assert AsReported(RingOf(Added(ix, maxLen, r), r.step)[k], r);
  }

  lemma SurvivesDiscard(ix: Index, maxLen: nat, r: Report)
    requires GoodIndex(ix, maxLen) && StoredAs(ix, r) && Stored(Discarded(ix), r.step, r.pos)
    ensures StoredAs(Discarded(ix), r)
  {
    DiscardedIsSuffix(ix, r.step);
    var es, ds := RingOf(ix, r.step), RingOf(Discarded(ix), r.step);
    var i :| 0 <= i < |es| && AsReported(es[i], r);
    var k := SuffixHolds(es, |es| - |ds|, i);
    assert AsReported(ds[k], r);
  }

  lemma DiscardedIsSuffix(ix: Index, s: Step)
    ensures var es, ds := RingOf(ix, s), RingOf(Discarded(ix), s); |ds| <= |es| && ds == es[|es| - |ds|..]
  {
  }

  lemma SuffixHolds(es: seq<KernEvent>, n: nat, i: nat) returns (k: nat)
    requires Sorted(es) && n <= |es| && i < |es| && Has(es[n..], es[i].pos)
    ensures k < |es[n..]| && es[n..][k] == es[i]
  {
    k :| 0 <= k < |es[n..]| && es[n..][k].pos == es[i].pos;
    assert es[n..][k] == es[n + k];
    SamePlace(es, i, n + k);
  }

  lemma SamePlace(es: seq<KernEvent>, i: nat, j: nat)
    requires Sorted(es) && i < |es| && j < |es| && es[i].pos == es[j].pos
    ensures i == j
  {
  }

  lemma StepKeepsEvent(ix: Index, maxLen: nat, op: Op, r: Report)
    requires GoodIndex(ix, maxLen) && StoredAs(ix, r) && !Drops(ix, op, r.step, r.pos)
    ensures StoredAs(Step1(ix, maxLen, op), r)
  {
    if op.Add? {
      var i :| 0 <= i < |RingOf(ix, r.step)| && AsReported(RingOf(ix, r.step)[i], r);
      assert Stored(ix, r.step, r.pos);
      SurvivesDiscard(ix, maxLen, r);
      SurvivesReport(ix, maxLen, op.r, r);
    } else {
      assert RingOf(Step1(ix, maxLen, op), r.step) == RingOf(ix, r.step);
    }
  }

  lemma SurvivesReport(ix: Index, maxLen: nat, other: Report, r: Report)
    requires StoredAs(Discarded(ix), r)
    ensures StoredAs(Added(ix, maxLen, other), r)
  {
    var ds, next := RingOf(Discarded(ix), r.step), RingOf(Added(ix, maxLen, other), r.step);
    var j :| 0 <= j < |ds| && AsReported(ds[j], r);
    if other.len > 0 && other.step == r.step {
      var k := InsertedKeepsEvents(ds, maxLen, other, j);
      assert AsReported(next[k], r);
    } else {
      assert next == ds;
    }
  }

  lemma {:induction false} RunKeepsEvent(ix: Index, maxLen: nat, ops: seq<Op>, r: Report)
    requires GoodIndex(ix, maxLen) && StoredAs(ix, r) && NeverDrops(ix, maxLen, ops, r.step, r.pos)
    ensures StoredAs(Run(ix, maxLen, ops), r)
    decreases ops
  {
    if ops != [] {
      StepGood(ix, maxLen, ops[0]);
      StepKeepsEvent(ix, maxLen, ops[0], r);
      RunKeepsEvent(Step1(ix, maxLen, ops[0]), maxLen, ops[1..], r);
    }
  }

  predicate Covers(e: KernEvent, p: int) {
    e.pos <= p < e.pos + e.len
  }

  /** Overlap is a shared position. */
  lemma OverlapsShares(e: KernEvent, start: nat, end: nat)
    requires start < end && e.len > 0
    ensures Overlaps(e, start, end) <==> exists p :: start <= p < end && Covers(e, p)
  {
    if Overlaps(e, start, end) { assert Covers(e, Max(start, e.pos)); }
  }

  /** A query returns exactly the stored events that overlap the range. */
  lemma {:induction false} FilterExact(es: seq<KernEvent>, start: nat, end: nat, e: KernEvent)
    ensures e in Filter(es, start, end) <==> e in es && Overlaps(e, start, end)
  {
    if es != [] { FilterExact(es[1..], start, end, e); }
  }

  /** End to end: after the first report of a position, any query of its step that overlaps
      the reported range finds an event with the reported position, length and time, for as
      long as no discard drops it, whatever else is reported. */
  lemma QueryFinds(ix: Index, maxLen: nat, r: Report, ops: seq<Op>, start: nat, end: nat)
    requires GoodIndex(ix, maxLen) && r.len > 0
    requires !Stored(Discarded(ix), r.step, r.pos) && |RingOf(Discarded(ix), r.step)| < maxLen
    requires NeverDrops(Added(ix, maxLen, r), maxLen, ops, r.step, r.pos)
    requires start < r.pos + r.len && r.pos < end
    ensures var answer := Filter(RingOf(Run(Added(ix, maxLen, r), maxLen, ops), r.step), start, end);
      exists e :: e in answer && AsReported(e, r)
  {
    var next := Added(ix, maxLen, r);
    FirstReportStored(ix, maxLen, r);
    StepGood(ix, maxLen, Add(r));
    RunKeepsEvent(next, maxLen, ops, r);
    var es := RingOf(Run(next, maxLen, ops), r.step);
    var i :| 0 <= i < |es| && AsReported(es[i], r);
    FilterExact(es, start, end, es[i]);
  }

  // ----- directions -----

  /** A watermark of one direction cuts only the rings of that direction: theirs at the
      higher of the two marks, the others as without it. */
  lemma MarkCutsOneSide(ix: Index, pos: nat, egress: bool, s: Step, e: KernEvent)
    requires s in ix.rings && Sorted(ix.rings[s])
    ensures var after := RingOf(Discarded(Marked(ix, pos, egress)), s);
      && (egress != (s <= 7) ==> after == RingOf(Discarded(ix), s))
      && (egress == (s <= 7) ==>
            var mark := Max(if egress then ix.egressMark else ix.ingressMark, pos);
            e in after <==> e in ix.rings[s] && (e.pos >= mark || forall i :: 0 <= i < |ix.rings[s]| ==> ix.rings[s][i].pos < mark))
  {
    DiscardExact(ix.rings[s], Max(if egress then ix.egressMark else ix.ingressMark, pos), e);
  }

  /** An event not below the mark of its direction is not dropped. */
  lemma AboveMarkStays(ix: Index, maxLen: nat, op: Op, s: Step, p: nat)
    requires GoodIndex(ix, maxLen) && p >= (if s <= 7 then ix.egressMark else ix.ingressMark)
    ensures !Drops(ix, op, s, p)
  {
    if op.Add? && Stored(ix, s, p) {
      DiscardHas(ix.rings[s], if s <= 7 then ix.egressMark else ix.ingressMark, p);
    }
  }
}
