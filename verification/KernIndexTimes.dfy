/** When the interface times of the event index are the minimum ever reported. */
module KernIndexTimes {
  import opened Words
  import opened KernIndex
  import opened KernIndexProofs

  // ----- one discard and one report -----

  lemma DiscardHas(es: seq<KernEvent>, mark: nat, p: nat)
    requires Sorted(es)
    ensures Has(Discard(es, mark), p) <==> Has(es, p) && (p >= mark || forall i :: 0 <= i < |es| ==> es[i].pos < mark)
  {
    var i := LowerBound(es, mark);
    if i < |es| {
      if j :| 0 <= j < |es| && es[j].pos == p && p >= mark { assert Discard(es, mark)[j - i] == es[j]; }
      if j :| 0 <= j < |es[i..]| && es[i..][j].pos == p { assert es[i + j].pos == p; }
    }
  }

  /** The times kept for a stored position. */
  ghost predicate Keeps(es: seq<KernEvent>, p: nat, times: map<string, int>) {
    exists i :: 0 <= i < |es| && es[i].pos == p && es[i].times == times
  }

  lemma KeepsUnique(es: seq<KernEvent>, p: nat, a: map<string, int>, b: map<string, int>)
    requires Sorted(es) && Keeps(es, p, a) && Keeps(es, p, b)
    ensures a == b
  {
    var i :| 0 <= i < |es| && es[i].pos == p && es[i].times == a;
    var j :| 0 <= j < |es| && es[j].pos == p && es[j].times == b;
    if i < j { assert es[i].pos < es[j].pos; }
    if j < i { assert es[j].pos < es[i].pos; }
  }

  lemma InsertedKeeps(es: seq<KernEvent>, maxLen: nat, r: Report, times: map<string, int>)
    requires Sorted(es) && IsNicStep(r.step) && Keeps(es, r.pos, times)
    ensures Keeps(Inserted(es, maxLen, r), r.pos, NoteTime(times, r.ifname, Int64(r.ts)))
  {
    var i :| 0 <= i < |es| && es[i].pos == r.pos && es[i].times == times;
    assert LowerBound(es, r.pos) == i;
    assert Inserted(es, maxLen, r)[i].times == NoteTime(times, r.ifname, Int64(r.ts));
  }

  lemma InsertedAnew(es: seq<KernEvent>, maxLen: nat, r: Report)
    requires Sorted(es) && IsNicStep(r.step) && !Has(es, r.pos) && |es| < maxLen
    ensures Keeps(Inserted(es, maxLen, r), r.pos, map[r.ifname := Int64(r.ts)])
  {
    var i := LowerBound(es, r.pos);
    assert Inserted(es, maxLen, r)[i] == FreshEvent(r);
  }

  lemma StillStored(es: seq<KernEvent>, maxLen: nat, mark: nat, r: Report, times: map<string, int>)
    requires Sorted(es) && IsNicStep(r.step) && Keeps(es, r.pos, times) && Has(Discard(es, mark), r.pos)
    ensures Keeps(Inserted(Discard(es, mark), maxLen, r), r.pos, NoteTime(times, r.ifname, Int64(r.ts)))
  {
    var ds := Discard(es, mark);
    DiscardSorted(es, mark);
    var i :| 0 <= i < |ds| && ds[i].pos == r.pos;
    assert ds[i] in es;
    assert Keeps(es, r.pos, ds[i].times);
    KeepsUnique(es, r.pos, times, ds[i].times);
    assert Keeps(ds, r.pos, times);
    InsertedKeeps(ds, maxLen, r, times);
  }

  lemma Dropped(es: seq<KernEvent>, maxLen: nat, mark: nat, r: Report, times: map<string, int>)
    requires Sorted(es) && |es| <= maxLen && IsNicStep(r.step) && r.len > 0
    requires Has(es, r.pos) && !Has(Discard(es, mark), r.pos)
    requires Keeps(Inserted(Discard(es, mark), maxLen, r), r.pos, times)
    ensures times == map[r.ifname := Int64(r.ts)]
  {
    var ds := Discard(es, mark);
    DiscardSorted(es, mark);
    InsertedAnew(ds, maxLen, r);
    InsertedSorted(ds, maxLen, r);
    KeepsUnique(Inserted(ds, maxLen, r), r.pos, times, map[r.ifname := Int64(r.ts)]);
  }

  /** A device event's earlier time survives the discard that precedes a later report of
      its position exactly when the watermark does not reach it, or lies above every event
      of the step. */
  lemma DiscardForgetsTimes(es: seq<KernEvent>, maxLen: nat, mark: nat, r: Report, times: map<string, int>)
    requires Sorted(es) && |es| <= maxLen && IsNicStep(r.step) && r.len > 0 && Keeps(es, r.pos, times)
    requires r.ifname in times && times[r.ifname] < Int64(r.ts)
    ensures Keeps(Inserted(Discard(es, mark), maxLen, r), r.pos, times) <==>
      r.pos >= mark || forall i :: 0 <= i < |es| ==> es[i].pos < mark
  {
    assert Has(es, r.pos);
    DiscardHas(es, mark, r.pos);
    if Has(Discard(es, mark), r.pos) {
      StillStored(es, maxLen, mark, r, times);
    } else if Keeps(Inserted(Discard(es, mark), maxLen, r), r.pos, times) {
      Dropped(es, maxLen, mark, r, times);
    }
  }

  // ----- runs -----

  ghost predicate Stored(ix: Index, s: Step, p: nat) {
    Has(RingOf(ix, s), p)
  }

  predicate Reported(op: Op, s: Step, p: nat) {
    op.Add? && op.r.step == s && op.r.pos == p && op.r.len > 0
  }

  /** All reports a run makes of a step's position. */
  function Reports(ops: seq<Op>, s: Step, p: nat): seq<Report> {
    if ops == [] then []
    else (if Reported(ops[0], s, p) then [ops[0].r] else []) + Reports(ops[1..], s, p)
  }

  /** The discard before an operation drops the stored position. */
  ghost predicate Drops(ix: Index, op: Op, s: Step, p: nat) {
    op.Add? && Stored(ix, s, p) && !Stored(Discarded(ix), s, p)
  }

  /** A report of the position finds it absent and the ring full. */
  ghost predicate Refuses(ix: Index, maxLen: nat, op: Op, s: Step, p: nat) {
    Reported(op, s, p) && !Stored(Discarded(ix), s, p) && |RingOf(Discarded(ix), s)| == maxLen
  }

  ghost predicate NeverForgets(ix: Index, maxLen: nat, ops: seq<Op>, s: Step, p: nat)
    decreases ops
  {
    ops != [] ==>
      && !Drops(ix, ops[0], s, p) && !Refuses(ix, maxLen, ops[0], s, p)
      && NeverForgets(Step1(ix, maxLen, ops[0]), maxLen, ops[1..], s, p)
  }

  lemma {:induction false} InsertedHas(es: seq<KernEvent>, maxLen: nat, r: Report, p: nat)
    requires Sorted(es)
    ensures Has(Inserted(es, maxLen, r), p) <==> Has(es, p) || (p == r.pos && |es| != maxLen)
  {
    var i, m := LowerBound(es, r.pos), Inserted(es, maxLen, r);
    if i < |es| && es[i].pos == r.pos {
      assert |m| == |es| && forall j :: 0 <= j < |es| ==> m[j].pos == es[j].pos;
    } else if |es| != maxLen {
      SplicedHas(es, i, FreshEvent(r), p);
    } else {
      assert m == es;
    }
  }

  lemma SplicedHas(es: seq<KernEvent>, i: nat, e: KernEvent, p: nat)
    requires i <= |es|
    ensures Has(es[..i] + [e] + es[i..], p) <==> Has(es, p) || p == e.pos
  {
    var m := es[..i] + [e] + es[i..];
    assert m[i] == e;
    if j :| 0 <= j < |es| && es[j].pos == p {
      assert m[if j < i then j else j + 1] == es[j];
    }
    if j :| 0 <= j < |m| && m[j].pos == p && j != i {
      assert es[if j < i then j else j - 1] == m[j];
    }
  }

  lemma StoredBefore(ix: Index, s: Step, p: nat)
    requires Stored(Discarded(ix), s, p)
    ensures Stored(ix, s, p)
  {
    var es, ds := RingOf(ix, s), RingOf(Discarded(ix), s);
    var i :| 0 <= i < |ds| && ds[i].pos == p;
    assert ds == es[|es| - |ds|..];
    assert es[|es| - |ds| + i].pos == p;
  }

  lemma StoredAfter(ix: Index, maxLen: nat, r: Report, s: Step, p: nat)
    requires GoodIndex(ix, maxLen)
    ensures Stored(Added(ix, maxLen, r), s, p) <==>
      Stored(Discarded(ix), s, p) || (Reported(Add(r), s, p) && |RingOf(Discarded(ix), s)| != maxLen)
  {
    DiscardedGood(ix, maxLen);
    if r.step == s && r.len > 0 { InsertedHas(RingOf(Discarded(ix), s), maxLen, r, p); }
  }

  /** The log entry of the position holds everything reported of it. */
  ghost predicate Complete(ix: Index, log: Log, s: Step, p: nat, past: seq<Report>) {
    if Stored(ix, s, p) then past != [] && (s, p) in log && log[(s, p)] == past else past == []
  }

  /** Something reported is missing, now or whenever the position is stored again. */
  ghost predicate Broken(ix: Index, log: Log, s: Step, p: nat, past: seq<Report>) {
    past != [] && (Stored(ix, s, p) ==> (s, p) in log && |log[(s, p)]| < |past|)
  }

  function Past(past: seq<Report>, op: Op, s: Step, p: nat): seq<Report> {
    if Reported(op, s, p) then past + [op.r] else past
  }

  /** The log entry of the position after an operation. */
  lemma LogAt(ix: Index, log: Log, op: Op, s: Step, p: nat)
    requires IsNicStep(s)
    ensures var log', k := LogStep(ix, log, op), (s, p);
      if Reported(op, s, p) then
        k in log' && log'[k] == (if Stored(Discarded(ix), s, p) && k in log then log[k] else []) + [op.r]
      else
        (k in log' <==> k in log) && (k in log ==> log'[k] == log[k])
  {
    if Reported(op, s, p) { assert [] + [op.r] == [op.r]; }
  }

  lemma OtherStep(ix: Index, maxLen: nat, op: Op, s: Step, p: nat)
    requires GoodIndex(ix, maxLen) && !Reported(op, s, p)
    ensures Stored(Step1(ix, maxLen, op), s, p) <==> Stored(ix, s, p) && !Drops(ix, op, s, p)
  {
    if op.Add? {
      StoredAfter(ix, maxLen, op.r, s, p);
      if Stored(Discarded(ix), s, p) { StoredBefore(ix, s, p); }
    }
  }

  lemma ReportStep(ix: Index, maxLen: nat, op: Op, s: Step, p: nat)
    requires GoodIndex(ix, maxLen) && Reported(op, s, p)
    ensures Stored(Step1(ix, maxLen, op), s, p) <==> !Refuses(ix, maxLen, op, s, p)
    ensures Stored(Discarded(ix), s, p) <==> Stored(ix, s, p) && !Drops(ix, op, s, p)
  {
    StoredAfter(ix, maxLen, op.r, s, p);
    if Stored(Discarded(ix), s, p) { StoredBefore(ix, s, p); }
  }

  lemma CompleteStep(ix: Index, maxLen: nat, log: Log, op: Op, s: Step, p: nat, past: seq<Report>)
    requires GoodIndex(ix, maxLen) && IsNicStep(s) && Complete(ix, log, s, p, past)
    ensures var ix', log', past' := Step1(ix, maxLen, op), LogStep(ix, log, op), Past(past, op, s, p);
      if Drops(ix, op, s, p) || Refuses(ix, maxLen, op, s, p) then Broken(ix', log', s, p, past')
      else Complete(ix', log', s, p, past')
  {
    LogAt(ix, log, op, s, p);
    if Reported(op, s, p) {
      ReportStep(ix, maxLen, op, s, p);
    } else {
      OtherStep(ix, maxLen, op, s, p);
    }
  }

  lemma BrokenStep(ix: Index, maxLen: nat, log: Log, op: Op, s: Step, p: nat, past: seq<Report>)
    requires GoodIndex(ix, maxLen) && IsNicStep(s) && Broken(ix, log, s, p, past)
    ensures Broken(Step1(ix, maxLen, op), LogStep(ix, log, op), s, p, Past(past, op, s, p))
  {
    LogAt(ix, log, op, s, p);
    if Reported(op, s, p) {
      ReportStep(ix, maxLen, op, s, p);
    } else {
      OtherStep(ix, maxLen, op, s, p);
    }
  }

  lemma {:induction false} BrokenRun(ix: Index, maxLen: nat, log: Log, ops: seq<Op>, s: Step, p: nat, past: seq<Report>)
    requires GoodIndex(ix, maxLen) && IsNicStep(s) && Broken(ix, log, s, p, past)
    ensures Broken(Run(ix, maxLen, ops), LogRun(ix, maxLen, log, ops), s, p, past + Reports(ops, s, p))
    decreases ops
  {
    if ops == [] {
      assert past + [] == past;
    } else {
      StepGood(ix, maxLen, ops[0]);
      BrokenStep(ix, maxLen, log, ops[0], s, p, past);
      BrokenRun(Step1(ix, maxLen, ops[0]), maxLen, LogStep(ix, log, ops[0]), ops[1..], s, p, Past(past, ops[0], s, p));
      PastReports(past, ops, s, p);
    }
  }

  lemma {:induction false} PastReports(past: seq<Report>, ops: seq<Op>, s: Step, p: nat)
    requires ops != []
    ensures Past(past, ops[0], s, p) + Reports(ops[1..], s, p) == past + Reports(ops, s, p)
  {
    var rest := Reports(ops[1..], s, p);
    if Reported(ops[0], s, p) {
      assert past + [ops[0].r] + rest == past + ([ops[0].r] + rest);
    } else {
      assert [] + rest == rest;
    }
  }

  lemma {:induction false} CompleteRun(ix: Index, maxLen: nat, log: Log, ops: seq<Op>, s: Step, p: nat, past: seq<Report>)
    requires GoodIndex(ix, maxLen) && IsNicStep(s) && Complete(ix, log, s, p, past)
    ensures var end, all := Run(ix, maxLen, ops), past + Reports(ops, s, p);
      if NeverForgets(ix, maxLen, ops, s, p) then Complete(end, LogRun(ix, maxLen, log, ops), s, p, all)
      else Broken(end, LogRun(ix, maxLen, log, ops), s, p, all)
    decreases ops
  {
    if ops == [] {
      assert past + [] == past;
    } else {
      var next, log' := Step1(ix, maxLen, ops[0]), LogStep(ix, log, ops[0]);
      StepGood(ix, maxLen, ops[0]);
      CompleteStep(ix, maxLen, log, ops[0], s, p, past);
      PastReports(past, ops, s, p);
      if Drops(ix, ops[0], s, p) || Refuses(ix, maxLen, ops[0], s, p) {
        BrokenRun(next, maxLen, log', ops[1..], s, p, Past(past, ops[0], s, p));
      } else {
        CompleteRun(next, maxLen, log', ops[1..], s, p, Past(past, ops[0], s, p));
      }
    }
  }

  const NO_EVENTS := Index(map[], 0, 0)

  /** Over every run from an empty index, for a device event stored at the end: the log its
      times are the minimum of is the log of all reports of its step and position exactly
      when no discard ever dropped the position and no report of it was refused. */
  lemma EverReported(maxLen: nat, ops: seq<Op>, s: Step, p: nat)
    requires IsNicStep(s) && Stored(Run(NO_EVENTS, maxLen, ops), s, p)
    ensures (s, p) in LogRun(NO_EVENTS, maxLen, map[], ops)
    ensures LogRun(NO_EVENTS, maxLen, map[], ops)[(s, p)] == Reports(ops, s, p)
      <==> NeverForgets(NO_EVENTS, maxLen, ops, s, p)
  {
    CompleteRun(NO_EVENTS, maxLen, map[], ops, s, p, []);
    assert [] + Reports(ops, s, p) == Reports(ops, s, p);
  }

  /** Then every interface time kept is the minimum ever reported for it. */
  lemma LeastEver(maxLen: nat, ops: seq<Op>, s: Step, i: nat)
    requires IsNicStep(s) && i < |RingOf(Run(NO_EVENTS, maxLen, ops), s)|
    requires NeverForgets(NO_EVENTS, maxLen, ops, s, RingOf(Run(NO_EVENTS, maxLen, ops), s)[i].pos)
    ensures var e := RingOf(Run(NO_EVENTS, maxLen, ops), s)[i]; LeastTimes(e.times, Reports(ops, s, e.pos))
  {
    var end := Run(NO_EVENTS, maxLen, ops);
    var e := RingOf(end, s)[i];
    RunLeastTimes(NO_EVENTS, maxLen, map[], ops);
    assert Has(RingOf(end, s), e.pos);
    EverReported(maxLen, ops, s, e.pos);
    assert RingFits(s, end.rings[s], LogRun(NO_EVENTS, maxLen, map[], ops));
  }
}
