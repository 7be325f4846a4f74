/** The `KernEventStream` object of agent/conn/kern_event_handler.go: one ring buffer
    of events per tracing step, proved to keep the index of KernIndex. */
module KernEventStreams {
  import opened Words
  import opened Options
  import opened RingBuffers
  import opened RingTables
  import opened KernIndex
  import opened KernIndexProofs
  import opened KernIndexTimes
  import opened KernIndexEvents

  function ComparePos(a: KernEvent, b: KernEvent): int {
    if a.pos < b.pos then -1 else if a.pos > b.pos then 1 else 0
  }

  function Probe(pos: nat): KernEvent {
    KernEvent(pos, 0, 0, 0, 0, map[])
  }

  lemma SearchIsLowerBound(es: seq<KernEvent>, pos: nat, index: nat, found: bool)
    requires Sorted(es) && index <= |es|
    requires found ==> index < |es| && es[index].pos == pos
    requires forall i :: 0 <= i < index ==> es[i].pos < pos
    requires !found ==> forall i :: index <= i < |es| ==> es[i].pos > pos
    ensures index == LowerBound(es, pos)
    ensures found <==> index < |es| && es[index].pos == pos
  {
    var k := LowerBound(es, pos);
    assert k < |es| ==> es[k].pos >= pos;
    assert index < |es| ==> es[index].pos >= pos;
  }

  type EventRing = RingBuffer<KernEvent>

  /** The ring's binary search, by position. */
  method Search(ring: EventRing, pos: nat) returns (index: nat, found: bool)
    requires ring.Valid() && Sorted(ring.contents)
    ensures index == LowerBound(ring.contents, pos)
    ensures found <==> index < |ring.contents| && ring.contents[index].pos == pos
  {
    index, found := ring.BinarySearch(Probe(pos), ComparePos);
    SearchIsLowerBound(ring.contents, pos, index, found);
  }

  /** One ring of `discardEventsBySeq`. */
  method DiscardRing(ring: EventRing, pos: nat)
    requires ring.Valid() && Sorted(ring.contents)
    modifies ring, ring.data
    ensures ring.Valid() && ring.data == old(ring.data)
    ensures ring.contents == Discard(old(ring.contents), pos)
  {
    var index, _ := Search(ring, pos);
    if index > 0 {
      var _ := ring.DiscardBeforeIndex(index); // the source ignores the error
    }
  }

  /** `AddKernEvent` when the position is already stored. */
  method Revisit(ring: EventRing, index: nat, event: Report) returns (ok: bool)
    requires ring.Valid() && index < |ring.contents|
    modifies ring, ring.data
    ensures ring.Valid() && ring.data == old(ring.data)
    ensures var e := old(ring.contents)[index];
      if IsNicStep(event.step) then
        && ring.contents == old(ring.contents)[index := e.(times := NoteTime(e.times, event.ifname, Int64(event.ts)))]
        && ok == !TimeRejected(e.times, event.ifname, Int64(event.ts))
      else
        ring.contents == old(ring.contents) && ok == (e.startTs > event.ts)
  {
    var cell, _ := ring.ReadIndex(index);
    var kernEvent := cell.value;
    var isNicEvent := IsNicStep(event.step);
    if kernEvent.startTs > event.ts && !isNicEvent {
      // the source changes a copy here and never writes it back
      kernEvent := kernEvent.(len := event.len, startTs := event.ts, tsDelta := event.tsDelta, step := event.step);
    } else if !isNicEvent {
      return false;
    }
    if isNicEvent {
      if TimeRejected(kernEvent.times, event.ifname, Int64(event.ts)) {
        assert ring.contents[index := kernEvent] == ring.contents;
        return false;
      }
      // the attribute map is shared with the stored event
      ring.Replace(index, kernEvent.(times := kernEvent.times[event.ifname := Int64(event.ts)]));
    }
    return true;
  }

  /** The part of `AddKernEvent` that works on the step's ring. */
  method AddToRing(ring: EventRing, event: Report) returns (ok: bool)
    requires ring.Valid() && Sorted(ring.contents) && event.len > 0
    modifies ring, ring.data
    ensures ring.Valid() && ring.data == old(ring.data)
    ensures ring.contents == Inserted(old(ring.contents), ring.size, event)
    ensures ok == Accepted(old(ring.contents), ring.size, event)
    ensures ok && !Has(old(ring.contents), event.pos) ==>
      exists i :: 0 <= i < |ring.contents| && AsReported(ring.contents[i], event)
  {
    var index, found := Search(ring, event.pos);
    if found {
      ok := Revisit(ring, index, event);
    } else {
      var kernEvent := KernEvent(event.pos, event.len, event.ts, event.tsDelta, event.step, map[]);
      if IsNicStep(event.step) {
        kernEvent := kernEvent.(times := NoteTime(map[], event.ifname, Int64(event.ts)));
      }
      var err := ring.Insert(index, kernEvent);
      ok := err == NoError;
      assert ok ==> ring.contents[index] == kernEvent;
    }
  }

  lemma ScanOne(es: seq<KernEvent>, i: nat, start: nat, end: nat)
    requires i < |es|
    ensures Filter(es[..i + 1], start, end) ==
      Filter(es[..i], start, end) + if Overlaps(es[i], start, end) then [es[i]] else []
  {
    assert es[..i + 1] == es[..i] + [es[i]];
    FilterConcat(es[..i], [es[i]], start, end);
    assert [es[i]][1..] == [];
  }

  lemma ScanStop(es: seq<KernEvent>, i: nat, start: nat, end: nat)
    requires Sorted(es) && i < |es| && es[i].pos >= end
    ensures Filter(es, start, end) == Filter(es[..i], start, end)
  {
    assert es == es[..i] + es[i..];
    FilterConcat(es[..i], es[i..], start, end);
    forall k | 0 <= k < |es[i..]| ensures !Overlaps(es[i..][k], start, end) {
      assert es[i..][k] == es[i + k];
    }
    FilterNone(es[i..], start, end);
  }

  /** The early-exit scan of `FindEventsBySeqAndLen` over one ring: exactly the events
      that overlap the range, in order. */
  method FindInRing(ring: EventRing, start: nat, len: nat) returns (result: seq<KernEvent>)
    requires ring.Valid() && Sorted(ring.contents) && len > 0
    ensures result == Filter(ring.contents, start, start + len)
  {
    var end := start + len;
    result := [];
    ghost var es := ring.contents;
    var i := 0;
    while i < ring.Size()
      invariant 0 <= i <= |es|
      invariant result == Filter(es[..i], start, end)
    {
      var cell := ring.CellAt(i);
      var each := cell.value;
      MatchesIsOverlap(each, start, len);
      ScanOne(es, i, start, end);
      if Matches(each, start, end) {
        result := result + [each];
      } else if each.pos > end {
        ScanStop(es, i, start, end);
        return;
      }
      i := i + 1;
    }
    assert es[..i] == es;
  }

  /** Every ring of one direction cut at the watermark. */
  function DiscardedSide(rings: map<Step, seq<KernEvent>>, pos: nat, egress: bool): (r: map<Step, seq<KernEvent>>)
    ensures r.Keys == rings.Keys
  {
    map s | s in rings :: if IsEgressStep(s) == egress then Discard(rings[s], pos) else rings[s]
  }

  lemma BothSides(ix: Index)
    ensures var e := if ix.egressMark != 0 then DiscardedSide(ix.rings, ix.egressMark, true) else ix.rings;
      Discarded(ix).rings == if ix.ingressMark != 0 then DiscardedSide(e, ix.ingressMark, false) else e
  {
  }

  // ----- the rings of all steps -----

  method DiscardAt(rings: Table<KernEvent>, step: Step, pos: nat, ghost owner: Owner, ghost maxLen: nat,
                   ghost m: map<Step, seq<KernEvent>>, ghost after: seq<KernEvent>)
    requires TableOk(rings, owner, maxLen) && step in rings && Holds(rings, m)
    requires Sorted(m[step]) && after == Discard(m[step], pos)
    modifies rings[step], rings[step].data
    ensures TableOk(rings, owner, maxLen) && Holds(rings, m[step := after])
  {
    assert Owned(rings[step], step, owner, maxLen);
    DiscardRing(rings[step], pos);
    forall s | s in rings && s != step ensures Owned(rings[s], s, owner, maxLen) && rings[s].contents == m[s] {
      assert unchanged(rings[s]) && unchanged(rings[s].data);
    }
  }

  method AddAt(rings: Table<KernEvent>, event: Report, ghost owner: Owner, ghost maxLen: nat,
               ghost m: map<Step, seq<KernEvent>>, ghost after: seq<KernEvent>) returns (ok: bool)
    requires TableOk(rings, owner, maxLen) && event.step in rings && event.len > 0 && Holds(rings, m)
    requires Sorted(m[event.step]) && after == Inserted(m[event.step], maxLen, event)
    modifies rings[event.step], rings[event.step].data
    ensures TableOk(rings, owner, maxLen) && Holds(rings, m[event.step := after])
    ensures ok == Accepted(m[event.step], maxLen, event)
  {
    assert Owned(rings[event.step], event.step, owner, maxLen);
    ok := AddToRing(rings[event.step], event);
    forall s | s in rings && s != event.step ensures Owned(rings[s], s, owner, maxLen) && rings[s].contents == m[s] {
      assert unchanged(rings[s]) && unchanged(rings[s].data);
    }
  }

  type Seqs = map<Step, seq<KernEvent>>

  ghost predicate AllSorted(m: Seqs) {
    forall s :: s in m ==> Sorted(m[s])
  }

  /** One step's sequence cut, if the step is of the given direction. */
  function CutStep(m: Seqs, step: Step, pos: nat, egress: bool): Seqs
    requires step in m
  {
    if IsEgressStep(step) == egress then m[step := Discard(m[step], pos)] else m
  }

  /** The rings still in `todo` are as in `m`, the others are cut. */
  ghost predicate CutBut(now: Seqs, m: Seqs, todo: set<Step>, pos: nat, egress: bool) {
    && now.Keys == m.Keys && todo <= m.Keys
    && forall s :: s in m ==> now[s] == if s in todo then m[s] else DiscardedSide(m, pos, egress)[s]
  }

  lemma CutOne(now: Seqs, m: Seqs, todo: set<Step>, pos: nat, egress: bool, step: Step)
    requires CutBut(now, m, todo, pos, egress) && step in todo && AllSorted(m)
    ensures |todo - {step}| < |todo| && step in now && Sorted(now[step])
    ensures CutBut(CutStep(now, step, pos, egress), m, todo - {step}, pos, egress)
  {
    assert Sorted(m[step]);
  }

  lemma CutAll(now: Seqs, m: Seqs, pos: nat, egress: bool)
    requires CutBut(now, m, {}, pos, egress)
    ensures now == DiscardedSide(m, pos, egress)
  {
  }

  method DiscardIfSide(rings: Table<KernEvent>, step: Step, pos: nat, egress: bool, ghost owner: Owner, ghost maxLen: nat,
                       ghost m: Seqs, ghost next: Seqs)
    requires TableOk(rings, owner, maxLen) && step in rings && Holds(rings, m)
    requires Sorted(m[step]) && next == CutStep(m, step, pos, egress)
    modifies rings[step], rings[step].data
    ensures TableOk(rings, owner, maxLen) && Holds(rings, next)
  {
    if egress && !IsEgressStep(step) {
      return;
    }
    if !egress && !IsIngressStep(step) {
      return;
    }
    DiscardAt(rings, step, pos, owner, maxLen, m, Discard(m[step], pos));
  }

  /** `discardEventsBySeq`: the rings of one direction are cut at the watermark. */
  method DiscardEventsBySeq(rings: Table<KernEvent>, pos: nat, egress: bool, ghost owner: Owner, ghost maxLen: nat, ghost m: Seqs)
    requires TableOk(rings, owner, maxLen) && Holds(rings, m) && AllSorted(m)
    modifies owner.Keys
    ensures TableOk(rings, owner, maxLen) && Holds(rings, DiscardedSide(m, pos, egress))
  {
    var todo := rings.Keys;
    ghost var now := m;
    while todo != {}
      invariant TableOk(rings, owner, maxLen) && Holds(rings, now)
      invariant CutBut(now, m, todo, pos, egress)
      decreases |todo|
    {
      var step :| step in todo;
      CutOne(now, m, todo, pos, egress, step);
      ghost var next := CutStep(now, step, pos, egress);
      DiscardIfSide(rings, step, pos, egress, owner, maxLen, now, next);
      todo, now := todo - {step}, next;
    }
    CutAll(now, m, pos, egress);
  }

  lemma SideSorted(m: Seqs, pos: nat, egress: bool)
    requires AllSorted(m)
    ensures AllSorted(DiscardedSide(m, pos, egress))
  {
    forall s | s in m ensures Sorted(DiscardedSide(m, pos, egress)[s]) { DiscardSorted(m[s], pos); }
  }

  /** `discardEventsIfNeeded` on the rings; a watermark of zero means none. */
  method DiscardBothSides(rings: Table<KernEvent>, egressMark: nat, ingressMark: nat, ghost owner: Owner, ghost maxLen: nat, ghost m: Seqs)
    requires TableOk(rings, owner, maxLen) && Holds(rings, m) && AllSorted(m)
    modifies owner.Keys
    ensures TableOk(rings, owner, maxLen) && Holds(rings, Discarded(Index(m, egressMark, ingressMark)).rings)
  {
    ghost var now := m;
    BothSides(Index(m, egressMark, ingressMark));
    if egressMark != 0 {
      SideSorted(m, egressMark, true);
      DiscardEventsBySeq(rings, egressMark, true, owner, maxLen, m);
      now := DiscardedSide(m, egressMark, true);
    }
    if ingressMark != 0 {
      DiscardEventsBySeq(rings, ingressMark, false, owner, maxLen, now);
    }
  }

  /** The part of `AddKernEvent` that makes the step's ring if need be and adds to it. */
  method InsertEvent(rings: Table<KernEvent>, event: Report, maxLen: nat, ghost owner: Owner, ghost m: Seqs)
    returns (next: Table<KernEvent>, ghost owner': Owner, ok: bool)
    requires TableOk(rings, owner, maxLen) && Holds(rings, m) && maxLen > 0 && event.len > 0 && Sorted(At(m, event.step))
    modifies owner.Keys
    ensures TableOk(next, owner', maxLen) && fresh(owner'.Keys - owner.Keys)
    ensures Holds(next, m[event.step := Inserted(At(m, event.step), maxLen, event)])
    ensures ok == Accepted(At(m, event.step), maxLen, event)
  {
    next, owner' := EnsureRing(rings, maxLen, owner, m, event.step);
    ghost var all := m[event.step := At(m, event.step)];
    ghost var after := Inserted(At(m, event.step), maxLen, event);
    assert next[event.step] in owner' && next[event.step].data in owner';
    ok := AddAt(next, event, owner', maxLen, all, after);
    SetTwice(m, event.step, At(m, event.step), after);
  }

  /** An accepted report of a new position is stored as it was made. */
  ghost predicate StoresNew(ix: Index, maxLen: nat, r: Report, ok: bool, next: Index) {
    ok && r.len > 0 && !Stored(Discarded(ix), r.step, r.pos) ==> StoredAs(next, r)
  }

  lemma AddedStoresNew(ix: Index, maxLen: nat, r: Report, ok: bool)
    requires ok == (r.len == 0 || Accepted(RingOf(Discarded(ix), r.step), maxLen, r)) && GoodIndex(ix, maxLen)
    ensures StoresNew(ix, maxLen, r, ok, Added(ix, maxLen, r))
  {
    if ok && r.len > 0 && !Stored(Discarded(ix), r.step, r.pos) { FirstReportStored(ix, maxLen, r); }
  }

  lemma AddedIs(ix: Index, maxLen: nat, r: Report)
    ensures var d := Discarded(ix);
      && RingOf(d, r.step) == At(d.rings, r.step)
      && Added(ix, maxLen, r) ==
           if r.len > 0 then d.(rings := d.rings[r.step := Inserted(At(d.rings, r.step), maxLen, r)]) else d
  {
  }

  /** The stream object: one ring per step, and the watermarks. */
  class KernEventStream {
    var kernEvents: Table<KernEvent>
    const maxLen: nat
    var egressDiscardSeq: nat
    var ingressDiscardSeq: nat
    ghost var index: Index // what the rings and the watermarks hold
    ghost var owner: Owner // the step each ring and each array belongs to

    constructor (maxLen: nat)
      requires maxLen > 0
      ensures Valid() && index == Index(map[], 0, 0) && this.maxLen == maxLen && owner == map[]
    {
      this.maxLen := maxLen;
      kernEvents, egressDiscardSeq, ingressDiscardSeq := map[], 0, 0;
      index, owner := Index(map[], 0, 0), map[];
    }

    ghost predicate Valid()
      reads this, owner.Keys, set s | s in kernEvents :: kernEvents[s]
    {
      && maxLen > 0 && this !in owner && TableOk(kernEvents, owner, maxLen) && Holds(kernEvents, index.rings)
      && GoodIndex(index, maxLen) && index.egressMark == egressDiscardSeq && index.ingressMark == ingressDiscardSeq
    }

    method MarkNeedDiscardSeq(pos: nat, egress: bool)
      requires Valid()
      modifies this`egressDiscardSeq, this`ingressDiscardSeq, this`index
      ensures Valid() && index == Marked(old(index), pos, egress)
    {
      if egress {
        egressDiscardSeq := Max(egressDiscardSeq, pos);
      } else {
        ingressDiscardSeq := Max(ingressDiscardSeq, pos);
      }
      index := Marked(index, pos, egress);
    }

    method DiscardEventsIfNeeded()
      requires Valid()
      modifies this`index, owner.Keys
      ensures Valid() && index == Discarded(old(index))
    {
      DiscardedGood(index, maxLen);
      DiscardBothSides(kernEvents, egressDiscardSeq, ingressDiscardSeq, owner, maxLen, index.rings);
      index := Discarded(index);
    }

    /** Takes over rings that hold an index with the same watermarks. */
    method Adopt(rings: Table<KernEvent>, ghost owner': Owner, ghost next: Index)
      requires maxLen > 0 && this !in owner' && TableOk(rings, owner', maxLen) && Holds(rings, next.rings)
      requires GoodIndex(next, maxLen) && next.egressMark == egressDiscardSeq && next.ingressMark == ingressDiscardSeq
      modifies this`kernEvents, this`index, this`owner
      ensures Valid() && index == next && owner == owner'
    {
      kernEvents, owner, index := rings, owner', next;
    }

    method InsertReport(event: Report, ghost next: Index) returns (ok: bool)
      requires Valid() && event.len > 0 && GoodIndex(next, maxLen)
      requires next == index.(rings := index.rings[event.step := Inserted(At(index.rings, event.step), maxLen, event)])
      modifies this`kernEvents, this`index, this`owner, owner.Keys
      ensures Valid() && fresh(owner.Keys - old(owner.Keys)) && index == next
      ensures ok == Accepted(At(old(index).rings, event.step), maxLen, event)
    {
      var rings;
      ghost var owner';
      rings, owner', ok := InsertEvent(kernEvents, event, maxLen, owner, index.rings);
      Adopt(rings, owner', next);
    }

    method DiscardAndInsert(event: Report, ghost cut: Index, ghost next: Index) returns (ok: bool)
      requires Valid() && cut == Discarded(index) && GoodIndex(next, maxLen)
      requires next == if event.len > 0 then cut.(rings := cut.rings[event.step := Inserted(At(cut.rings, event.step), maxLen, event)])
                       else cut
      modifies this`kernEvents, this`index, this`owner, owner.Keys
      ensures Valid() && fresh(owner.Keys - old(owner.Keys)) && index == next
      ensures ok == (event.len == 0 || Accepted(At(cut.rings, event.step), maxLen, event))
    {
      DiscardEventsIfNeeded();
      ok := true;
      if event.len > 0 {
        ok := InsertReport(event, next);
      }
    }

    /** Adds a reported event; a report of length zero only triggers the discard. */
    method AddKernEvent(event: Report) returns (ok: bool)
      requires Valid()
      modifies this`kernEvents, this`index, this`owner, owner.Keys
      ensures Valid() && fresh(owner.Keys - old(owner.Keys)) && index == Added(old(index), maxLen, event)
      ensures ok == (event.len == 0 || Accepted(RingOf(Discarded(old(index)), event.step), maxLen, event))
      ensures StoresNew(old(index), maxLen, event, ok, index)
    {
      ghost var before := index;
      AddedIs(before, maxLen, event);
      StepGood(before, maxLen, Add(event));
      ok := DiscardAndInsert(event, Discarded(before), Added(before, maxLen, event));
      AddedStoresNew(before, maxLen, event, ok);
    }

    /** `FindEventsBySeqAndLen`: exactly the step's events that overlap the range. */
    method FindEventsBySeqAndLen(step: Step, start: nat, len: nat) returns (result: seq<KernEvent>)
      requires Valid() && len > 0
      ensures result == Filter(RingOf(index, step), start, start + len)
    {
      if step !in kernEvents {
        return [];
      }
      assert Owned(kernEvents[step], step, owner, maxLen);
      result := FindInRing(kernEvents[step], start, len);
    }
  }
}
