/** The per-step event index of agent/conn/kern_event_handler.go as a value: sorted
    lists of kernel events, discard watermarks, range queries. */
module KernIndex {
  import opened Words

  /** Tracing steps, in the numbering of the BPF programs. */
  type Step = nat

  const DEV_OUT: Step := 6
  const NIC_OUT: Step := 7
  const NIC_IN: Step := 8
  const DEV_IN: Step := 9

  predicate IsEgressStep(s: Step) { s <= NIC_OUT }

  predicate IsIngressStep(s: Step) { s >= NIC_IN }

  predicate IsNicStep(s: Step) { s == DEV_OUT || s == DEV_IN }

  /** A stored event; `times` is its attribute map, the time seen per interface. */
  datatype KernEvent = KernEvent(pos: nat, len: int, startTs: nat, tsDelta: nat, step: Step, times: map<string, int>)

  /** An event as reported by the kernel side; `ifname` is resolved by the caller. */
  datatype Report = Report(pos: u32, len: u32, ts: nat, tsDelta: nat, step: Step, ifname: string)

  /** The events of one step: strictly increasing positions, positive lengths. */
  ghost predicate Sorted(es: seq<KernEvent>) {
    && (forall i :: 0 <= i < |es| ==> es[i].len > 0)
    && (forall i, j :: 0 <= i < j < |es| ==> es[i].pos < es[j].pos)
  }

  /** The number of events strictly below `p`: where `p` is or would be inserted. */
  function LowerBound(es: seq<KernEvent>, p: nat): (i: nat)
    ensures i <= |es|
    ensures forall j :: 0 <= j < i ==> es[j].pos < p
    ensures i < |es| ==> es[i].pos >= p
  {
    if es == [] || es[0].pos >= p then 0 else 1 + LowerBound(es[1..], p)
  }

  // ----- insertion -----

  /** The earliest time per interface is kept. */
  function NoteTime(times: map<string, int>, ifname: string, t: int): map<string, int> {
    if ifname in times && times[ifname] < t then times else times[ifname := t]
  }

  predicate TimeRejected(times: map<string, int>, ifname: string, t: int) {
    ifname in times && times[ifname] < t
  }

  function FreshEvent(r: Report): KernEvent {
    KernEvent(r.pos, r.len, r.ts, r.tsDelta, r.step,
              if IsNicStep(r.step) then map[r.ifname := Int64(r.ts)] else map[])
  }

  /** The step's events after a report of positive length. */
  function Inserted(es: seq<KernEvent>, maxLen: nat, r: Report): seq<KernEvent> {
    var i := LowerBound(es, r.pos);
    if i < |es| && es[i].pos == r.pos then
      if IsNicStep(r.step) then es[i := es[i].(times := NoteTime(es[i].times, r.ifname, Int64(r.ts)))] else es
    else if |es| == maxLen then es
    else es[..i] + [FreshEvent(r)] + es[i..]
  }

  /** What `AddKernEvent` answers for that report. */
  predicate Accepted(es: seq<KernEvent>, maxLen: nat, r: Report) {
    var i := LowerBound(es, r.pos);
    if i < |es| && es[i].pos == r.pos then
      if IsNicStep(r.step) then !TimeRejected(es[i].times, r.ifname, Int64(r.ts)) else es[i].startTs > r.ts
    else |es| != maxLen
  }

  // ----- discard -----

  /** Watermark discard. An index equal to the size is refused by the ring, so a
      watermark above every event discards nothing. */
  function Discard(es: seq<KernEvent>, mark: nat): seq<KernEvent> {
    var i := LowerBound(es, mark);
    if i < |es| then es[i..] else es
  }

  datatype Index = Index(rings: map<Step, seq<KernEvent>>, egressMark: nat, ingressMark: nat)

  function DiscardStep(ix: Index, s: Step): seq<KernEvent>
    requires s in ix.rings
  {
    var mark := if IsEgressStep(s) then ix.egressMark else ix.ingressMark;
    if mark != 0 then Discard(ix.rings[s], mark) else ix.rings[s]
  }

  function Discarded(ix: Index): Index {
    ix.(rings := map s | s in ix.rings :: DiscardStep(ix, s))
  }

  function RingOf(ix: Index, s: Step): seq<KernEvent> {
    if s in ix.rings then ix.rings[s] else []
  }

  /** The index `AddKernEvent` leaves. */
  function Added(ix: Index, maxLen: nat, r: Report): Index {
    var d := Discarded(ix);
    if r.len > 0 then d.(rings := d.rings[r.step := Inserted(RingOf(d, r.step), maxLen, r)]) else d
  }

  function Marked(ix: Index, pos: nat, egress: bool): Index {
    if egress then ix.(egressMark := Max(ix.egressMark, pos)) else ix.(ingressMark := Max(ix.ingressMark, pos))
  }

  // ----- queries -----

  /** The three-way test of `FindEventsBySeqAndLen`. */
  predicate Matches(e: KernEvent, start: nat, end: nat) {
    || (e.pos <= start && e.pos + e.len > start)
    || (e.pos < end && e.pos + e.len >= end)
    || (e.pos >= start && e.pos + e.len <= end)
  }

  /** The event shares at least one position with [start, end). */
  predicate Overlaps(e: KernEvent, start: nat, end: nat) {
    e.pos < end && e.pos + e.len > start
  }

  function Filter(es: seq<KernEvent>, start: nat, end: nat): (r: seq<KernEvent>) {
    if es == [] then []
    else (if Overlaps(es[0], start, end) then [es[0]] else []) + Filter(es[1..], start, end)
  }
}

/** Proofs about the event index. */
module KernIndexProofs {
  import opened Words
  import opened KernIndex

  lemma SplicedSorted(a: seq<KernEvent>, e: KernEvent, b: seq<KernEvent>)
    requires Sorted(a) && Sorted(b) && e.len > 0
    requires forall i :: 0 <= i < |a| ==> a[i].pos < e.pos
    requires forall i :: 0 <= i < |b| ==> e.pos < b[i].pos
    ensures Sorted(a + [e] + b)
  {
    var m := a + [e] + b;
    forall i, j | 0 <= i < j < |m| ensures m[i].pos < m[j].pos {
      assert i < |a| ==> m[i] == a[i];
      assert j > |a| ==> m[j] == b[j - |a| - 1];
    }
  }

  lemma InsertedSorted(es: seq<KernEvent>, maxLen: nat, r: Report)
    requires Sorted(es) && |es| <= maxLen && r.len > 0
    ensures Sorted(Inserted(es, maxLen, r)) && |Inserted(es, maxLen, r)| <= maxLen
  {
    var i := LowerBound(es, r.pos);
    if !(i < |es| && es[i].pos == r.pos) {
      assert Sorted(es[..i]) && Sorted(es[i..]);
      assert forall j :: 0 <= j < |es[i..]| ==> r.pos < es[i..][j].pos;
      SplicedSorted(es[..i], FreshEvent(r), es[i..]);
    }
  }

  lemma DiscardSorted(es: seq<KernEvent>, mark: nat)
    requires Sorted(es)
    ensures Sorted(Discard(es, mark)) && |Discard(es, mark)| <= |es|
  {
  }

  /** Discard safety: nothing at or above the watermark goes; everything below goes
      if some event is at or above it, and nothing at all otherwise. */
  lemma DiscardExact(es: seq<KernEvent>, mark: nat, e: KernEvent)
    requires Sorted(es)
    ensures e in Discard(es, mark) <==>
      e in es && (e.pos >= mark || forall i :: 0 <= i < |es| ==> es[i].pos < mark)
  {
    var i := LowerBound(es, mark);
    if i < |es| {
      if e in es[i..] {
        var j :| 0 <= j < |es[i..]| && es[i..][j] == e;
        assert e == es[i + j];
      }
      if e in es && e.pos >= mark {
        var j :| 0 <= j < |es| && es[j] == e;
        assert e == es[i..][j - i];
      }
    }
  }

  ghost predicate GoodIndex(ix: Index, maxLen: nat) {
    forall s :: s in ix.rings ==> Sorted(ix.rings[s]) && |ix.rings[s]| <= maxLen
  }

  datatype Op = Add(r: Report) | Mark(pos: nat, egress: bool)

  function Step1(ix: Index, maxLen: nat, op: Op): Index {
    match op
    case Add(r) => Added(ix, maxLen, r)
    case Mark(pos, egress) => Marked(ix, pos, egress)
  }

  function Run(ix: Index, maxLen: nat, ops: seq<Op>): Index
    decreases ops
  {
    if ops == [] then ix else Run(Step1(ix, maxLen, ops[0]), maxLen, ops[1..])
  }

  lemma DiscardedGood(ix: Index, maxLen: nat)
    requires GoodIndex(ix, maxLen)
    ensures GoodIndex(Discarded(ix), maxLen)
  {
    forall s | s in ix.rings
      ensures Sorted(DiscardStep(ix, s)) && |DiscardStep(ix, s)| <= maxLen
    {
      DiscardSorted(ix.rings[s], ix.egressMark);
      DiscardSorted(ix.rings[s], ix.ingressMark);
    }
  }

  lemma StepGood(ix: Index, maxLen: nat, op: Op)
    requires GoodIndex(ix, maxLen)
    ensures GoodIndex(Step1(ix, maxLen, op), maxLen)
    ensures Step1(ix, maxLen, op).egressMark >= ix.egressMark
    ensures Step1(ix, maxLen, op).ingressMark >= ix.ingressMark
  {
    DiscardedGood(ix, maxLen);
    if op.Add? && op.r.len > 0 {
      InsertedSorted(RingOf(Discarded(ix), op.r.step), maxLen, op.r);
    }
  }

  /** Index invariant: in every run each step's events stay strictly increasing, of
      positive length and at most `maxLen` many, and watermarks never go back. */
  lemma {:induction false} RunGood(ix: Index, maxLen: nat, ops: seq<Op>)
    requires GoodIndex(ix, maxLen)
    ensures GoodIndex(Run(ix, maxLen, ops), maxLen)
    ensures Run(ix, maxLen, ops).egressMark >= ix.egressMark
    ensures Run(ix, maxLen, ops).ingressMark >= ix.ingressMark
    decreases ops
  {
    if ops != [] {
      StepGood(ix, maxLen, ops[0]);
      RunGood(Step1(ix, maxLen, ops[0]), maxLen, ops[1..]);
    }
  }

  // ----- queries -----

  /** On positive lengths the three-way test is overlap. */
  lemma MatchesIsOverlap(e: KernEvent, start: nat, len: nat)
    requires e.len > 0 && len > 0
    ensures Matches(e, start, start + len) <==> Overlaps(e, start, start + len)
  {
  }

  /** On an empty range it also takes an event that merely ends at the position. */
  lemma MatchesEmptyRange(e: KernEvent, start: nat)
    requires e.len > 0
    ensures Matches(e, start, start) <==> e.pos == start || e.pos < start <= e.pos + e.len
  {
  }

  lemma {:induction false} FilterConcat(a: seq<KernEvent>, b: seq<KernEvent>, start: nat, end: nat)
    ensures Filter(a + b, start, end) == Filter(a, start, end) + Filter(b, start, end)
  {
    if a == [] {
      assert a + b == b;
    } else {
      assert (a + b)[0] == a[0] && (a + b)[1..] == a[1..] + b;
      FilterConcat(a[1..], b, start, end);
      var head := if Overlaps(a[0], start, end) then [a[0]] else [];
      assert head + (Filter(a[1..], start, end) + Filter(b, start, end)) == Filter(a, start, end) + Filter(b, start, end);
    }
  }

  lemma {:induction false} FilterNone(es: seq<KernEvent>, start: nat, end: nat)
    requires forall i :: 0 <= i < |es| ==> !Overlaps(es[i], start, end)
    ensures Filter(es, start, end) == []
  {
    if es != [] { FilterNone(es[1..], start, end); }
  }

  lemma {:induction false} FilterSome(es: seq<KernEvent>, start: nat, end: nat, k: nat)
    requires k < |es| && Overlaps(es[k], start, end)
    ensures Filter(es, start, end) != []
  {
    if k > 0 { FilterSome(es[1..], start, end, k - 1); }
  }

  /** A query after the discard answers as before exactly when no event that was
      dropped overlaps the range. */
  lemma DiscardQueryExact(es: seq<KernEvent>, mark: nat, start: nat, end: nat)
    requires Sorted(es)
    ensures Filter(Discard(es, mark), start, end) == Filter(es, start, end)
      <==> LowerBound(es, mark) == |es| || forall i :: 0 <= i < LowerBound(es, mark) ==> !Overlaps(es[i], start, end)
  {
    var i := LowerBound(es, mark);
    if i < |es| { FilterDropped(es, i, start, end); }
  }

  lemma FilterDropped(es: seq<KernEvent>, i: nat, start: nat, end: nat)
    requires i <= |es|
    ensures Filter(es[i..], start, end) == Filter(es, start, end)
      <==> forall k :: 0 <= k < i ==> !Overlaps(es[k], start, end)
  {
    assert es == es[..i] + es[i..];
    FilterConcat(es[..i], es[i..], start, end);
    if k :| 0 <= k < i && Overlaps(es[k], start, end) {
      FilterSome(es[..i], start, end, k);
      assert |Filter(es, start, end)| > |Filter(es[i..], start, end)|;
    } else {
      FilterNone(es[..i], start, end);
    }
  }

  /** No event below the watermark reaches past it. */
  ghost predicate NoneStraddles(es: seq<KernEvent>, mark: nat) {
    forall i :: 0 <= i < |es| && es[i].pos < mark ==> es[i].pos + es[i].len <= mark
  }

  /** If no event straddles the watermark, every range query that starts at or above
      it has the same answer before and after the discard. */
  lemma DiscardKeepsQueries(es: seq<KernEvent>, mark: nat, start: nat, len: nat)
    requires Sorted(es) && NoneStraddles(es, mark) && start >= mark
    ensures Filter(Discard(es, mark), start, start + len) == Filter(es, start, start + len)
  {
    DiscardQueryExact(es, mark, start, start + len);
  }

  // ----- interface times -----

  /** `times` is, per interface, the least time among `log`. */
  ghost predicate LeastTimes(times: map<string, int>, log: seq<Report>) {
    && (forall n :: n in times ==> exists i :: 0 <= i < |log| && log[i].ifname == n && Int64(log[i].ts) == times[n])
    && (forall i :: 0 <= i < |log| ==> log[i].ifname in times && times[log[i].ifname] <= Int64(log[i].ts))
  }

  lemma NoteLeast(times: map<string, int>, log: seq<Report>, r: Report)
    requires LeastTimes(times, log)
    ensures LeastTimes(NoteTime(times, r.ifname, Int64(r.ts)), log + [r])
  {
    var next, log' := NoteTime(times, r.ifname, Int64(r.ts)), log + [r];
    forall n | n in next
      ensures exists i :: 0 <= i < |log'| && log'[i].ifname == n && Int64(log'[i].ts) == next[n]
    {
      if n in times && next[n] == times[n] {
        var i :| 0 <= i < |log| && log[i].ifname == n && Int64(log[i].ts) == times[n];
        assert log'[i] == log[i];
      } else {
        assert log'[|log|] == r;
      }
    }
  }

  /** The event stored for a position, if any. */
  ghost predicate Has(es: seq<KernEvent>, p: nat) {
    exists i :: 0 <= i < |es| && es[i].pos == p
  }

  /** The reports a stored position has received since it was last inserted. */
  type Log = map<(Step, nat), seq<Report>>

  ghost predicate RingFits(s: Step, es: seq<KernEvent>, log: Log) {
    forall i :: 0 <= i < |es| ==> (s, es[i].pos) in log && LeastTimes(es[i].times, log[(s, es[i].pos)])
  }

  ghost predicate LogFits(ix: Index, log: Log) {
    forall s :: s in ix.rings && IsNicStep(s) ==> RingFits(s, ix.rings[s], log)
  }

  /** A report extends the entry of the stored event it meets, or starts a new one. */
  ghost function LogReport(es: seq<KernEvent>, log: Log, r: Report): Log {
    var k := (r.step, r.pos as nat);
    if Has(es, r.pos) && k in log then log[k := log[k] + [r]] else log[k := [r]]
  }

  ghost function LogStep(ix: Index, log: Log, op: Op): Log {
    if op.Add? && op.r.len > 0 && IsNicStep(op.r.step)
    then LogReport(RingOf(Discarded(ix), op.r.step), log, op.r) else log
  }

  ghost function LogRun(ix: Index, maxLen: nat, log: Log, ops: seq<Op>): Log
    decreases ops
  {
    if ops == [] then log
    else LogRun(Step1(ix, maxLen, ops[0]), maxLen, LogStep(ix, log, ops[0]), ops[1..])
  }

  lemma DiscardFits(ix: Index, log: Log)
    requires LogFits(ix, log)
    ensures LogFits(Discarded(ix), log)
  {
    forall s | s in ix.rings && IsNicStep(s) ensures RingFits(s, DiscardStep(ix, s), log) {
      var es, ds := ix.rings[s], DiscardStep(ix, s);
      assert RingFits(s, es, log) && ds == es[|es| - |ds|..];
    }
  }

  /** Each event after a report is an old one, a fresh one, or one with its time noted. */
  lemma InsertedTimes(es: seq<KernEvent>, maxLen: nat, r: Report, k: nat) returns (j: nat)
    requires Sorted(es) && IsNicStep(r.step) && k < |Inserted(es, maxLen, r)|
    ensures var e := Inserted(es, maxLen, r)[k];
      if e.pos != r.pos then j < |es| && es[j] == e
      else if Has(es, r.pos) then
        j < |es| && es[j].pos == r.pos && e.times == NoteTime(es[j].times, r.ifname, Int64(r.ts))
      else e == FreshEvent(r)
  {
    var i := LowerBound(es, r.pos);
    var e := Inserted(es, maxLen, r)[k];
    assert Has(es, r.pos) ==> i < |es| && es[i].pos == r.pos;
    if i < |es| && es[i].pos == r.pos {
      j := k;
    } else if |es| == maxLen {
      j := k;
    } else {
      j := if k <= i then k else k - 1;
      assert k < i ==> e == es[k];
      assert k > i ==> e == es[k - 1];
    }
  }

  lemma InsertedFits(es: seq<KernEvent>, maxLen: nat, log: Log, r: Report)
    requires Sorted(es) && IsNicStep(r.step) && RingFits(r.step, es, log)
    ensures RingFits(r.step, Inserted(es, maxLen, r), LogReport(es, log, r))
  {
    var next, log' := Inserted(es, maxLen, r), LogReport(es, log, r);
    forall k | 0 <= k < |next|
      ensures (r.step, next[k].pos) in log' && LeastTimes(next[k].times, log'[(r.step, next[k].pos)])
    {
      var j := InsertedTimes(es, maxLen, r, k);
      if next[k].pos == r.pos {
        if Has(es, r.pos) {
          NoteLeast(es[j].times, log[(r.step, es[j].pos)], r);
        } else {
          assert log'[(r.step, next[k].pos)][0] == r;
        }
      }
    }
  }

  lemma AddFits(ix: Index, maxLen: nat, log: Log, r: Report)
    requires GoodIndex(ix, maxLen) && LogFits(ix, log)
    ensures LogFits(Added(ix, maxLen, r), LogStep(ix, log, Add(r)))
  {
    var d, log' := Discarded(ix), LogStep(ix, log, Add(r));
    DiscardFits(ix, log);
    DiscardedGood(ix, maxLen);
    if r.len > 0 && IsNicStep(r.step) {
      InsertedFits(RingOf(d, r.step), maxLen, log, r);
      forall s | s in d.rings && IsNicStep(s) && s != r.step ensures RingFits(s, d.rings[s], log') {
        assert RingFits(s, d.rings[s], log);
      }
    }
  }

  /** Interface times: in every run, each stored device event keeps per interface the
      minimum time reported for its position since it was last inserted. */
  lemma {:induction false} RunLeastTimes(ix: Index, maxLen: nat, log: Log, ops: seq<Op>)
    requires GoodIndex(ix, maxLen) && LogFits(ix, log)
    ensures LogFits(Run(ix, maxLen, ops), LogRun(ix, maxLen, log, ops))
    decreases ops
  {
    if ops != [] {
      StepGood(ix, maxLen, ops[0]);
      if ops[0].Add? { AddFits(ix, maxLen, log, ops[0].r); }
      RunLeastTimes(Step1(ix, maxLen, ops[0]), maxLen, LogStep(ix, log, ops[0]), ops[1..]);
    }
  }
}
