/** SSL events in user space: the sorted list of agent/conn/kern_event_handler.go and
    the kernel range covering several of them (agent/analysis/stat.go). */
module TlsEvents {
  import opened Words

  datatype SslEvent = SslEvent(pos: nat, len: int, kernPos: nat, kernLen: nat)

  ghost predicate Sorted(es: seq<SslEvent>) {
    forall i, j :: 0 <= i < j < |es| ==> es[i].pos < es[j].pos
  }

  function LowerBound(es: seq<SslEvent>, p: nat): (i: nat)
    ensures i <= |es|
    ensures forall j :: 0 <= j < i ==> es[j].pos < p
    ensures i < |es| ==> es[i].pos >= p
  {
    if es == [] || es[0].pos >= p then 0 else 1 + LowerBound(es[1..], p)
  }

  /** `slices.BinarySearchFunc` by position. */
  method BinarySearch(es: seq<SslEvent>, p: nat) returns (index: nat, found: bool)
    requires Sorted(es)
    ensures index == LowerBound(es, p)
    ensures found <==> index < |es| && es[index].pos == p
  {
    var low, high := 0, |es|;
    while low < high
      invariant 0 <= low <= high <= |es|
      invariant forall i :: 0 <= i < low ==> es[i].pos < p
      invariant forall i :: high <= i < |es| ==> es[i].pos >= p
    {
      var mid := (low + high) / 2;
      if es[mid].pos < p { low := mid + 1; } else { high := mid; }
    }
    index, found := low, low < |es| && es[low].pos == p;
    SameBound(es, p, low);
  }

  lemma SameBound(es: seq<SslEvent>, p: nat, i: nat)
    requires i <= |es|
    requires forall j :: 0 <= j < i ==> es[j].pos < p
    requires i < |es| ==> es[i].pos >= p
    ensures i == LowerBound(es, p)
  {
  }

  /** The events of the list whose position lies in [start, end). */
  function Within(es: seq<SslEvent>, start: nat, end: nat): seq<SslEvent> {
    if es == [] then []
    else (if start <= es[0].pos < end then [es[0]] else []) + Within(es[1..], start, end)
  }

  /** A query returns exactly the stored events positioned in the range. */
  lemma {:induction false} WithinExact(es: seq<SslEvent>, start: nat, end: nat, x: SslEvent)
    ensures x in Within(es, start, end) <==> x in es && start <= x.pos < end
  {
    if es != [] { WithinExact(es[1..], start, end, x); }
  }

  /** What is left once only the `max` latest events may stay. */
  function Latest(es: seq<SslEvent>, max: nat): seq<SslEvent> {
    if |es| > max then es[|es| - max..] else es
  }

  function Inserted(es: seq<SslEvent>, e: SslEvent, max: nat): seq<SslEvent> {
    var i := LowerBound(es, e.pos);
    if i < |es| && es[i].pos == e.pos then es else Latest(es[..i] + [e] + es[i..], max)
  }

  lemma {:induction false} PlaceSplits(es: seq<SslEvent>, p: nat)
    requires Sorted(es) && (LowerBound(es, p) < |es| ==> es[LowerBound(es, p)].pos != p)
    ensures forall j :: LowerBound(es, p) <= j < |es| ==> es[j].pos > p
  {
    var i := LowerBound(es, p);
    forall j | i < j < |es| ensures es[j].pos > p { assert es[i].pos < es[j].pos; }
  }

  lemma {:induction false} InsertedSorted(es: seq<SslEvent>, e: SslEvent, max: nat)
    requires Sorted(es) && |es| <= max
    ensures Sorted(Inserted(es, e, max)) && |Inserted(es, e, max)| <= max
  {
    var i := LowerBound(es, e.pos);
    if !(i < |es| && es[i].pos == e.pos) {
      PlaceSplits(es, e.pos);
      GrownSorted(es, e, i);
    }
  }

  method KeepLatest(all: seq<SslEvent>, max: nat) returns (kept: seq<SslEvent>)
    ensures kept == Latest(all, max)
  {
    kept := all;
    while |kept| > max
      invariant |kept| <= |all| && kept == all[|all| - |kept|..]
      invariant |kept| >= max || kept == all
    {
      kept := kept[1..];
    }
  }

  /** Which events are stored after one more: a known position changes nothing; with room
      the new one joins; without room the one with the least position goes, old or new. */
  lemma {:induction false} InsertedExact(es: seq<SslEvent>, e: SslEvent, max: nat, x: SslEvent)
    requires Sorted(es) && |es| <= max
    ensures (exists i :: 0 <= i < |es| && es[i].pos == e.pos) ==> Inserted(es, e, max) == es
    ensures (forall i :: 0 <= i < |es| ==> es[i].pos != e.pos) ==>
      (x in Inserted(es, e, max) <==>
         (x in es || x == e) && (|es| == max ==> x.pos > e.pos || exists i :: 0 <= i < |es| && x.pos > es[i].pos))
  {
    var i := LowerBound(es, e.pos);
    var m := es[..i] + [e] + es[i..];
    if forall j :: 0 <= j < |es| ==> es[j].pos != e.pos {
      PlaceSplits(es, e.pos);
      GrownHolds(es, e, i, x);
      if |es| == max {
        GrownSorted(es, e, i);
        TailHolds(m, x);
        LeastOf(es, e, i, x);
      }
    }
  }

  lemma GrownHolds(es: seq<SslEvent>, e: SslEvent, i: nat, x: SslEvent)
    requires i <= |es|
    ensures x in es[..i] + [e] + es[i..] <==> x in es || x == e
  {
    assert es == es[..i] + es[i..];
  }

  lemma GrownSorted(es: seq<SslEvent>, e: SslEvent, i: nat)
    requires Sorted(es) && i <= |es|
    requires (forall j :: 0 <= j < i ==> es[j].pos < e.pos) && (forall j :: i <= j < |es| ==> es[j].pos > e.pos)
    ensures Sorted(es[..i] + [e] + es[i..])
  {
    var m := es[..i] + [e] + es[i..];
    forall j, k | 0 <= j < k < |m| ensures m[j].pos < m[k].pos {
      assert j < i ==> m[j] == es[j];
      assert j > i ==> m[j] == es[j - 1];
      assert k < i ==> m[k] == es[k];
      assert k > i ==> m[k] == es[k - 1];
    }
  }

  lemma TailHolds(m: seq<SslEvent>, x: SslEvent)
    requires Sorted(m) && m != []
    ensures x in m[1..] <==> x in m && x.pos > m[0].pos
  {
    if x in m && x.pos > m[0].pos {
      var j :| 0 <= j < |m| && m[j] == x;
      assert m[1..][j - 1] == x;
    }
  }

  lemma LeastOf(es: seq<SslEvent>, e: SslEvent, i: nat, x: SslEvent)
    requires Sorted(es) && i <= |es|
    requires (forall j :: 0 <= j < i ==> es[j].pos < e.pos) && (forall j :: i <= j < |es| ==> es[j].pos > e.pos)
    ensures var least := (es[..i] + [e] + es[i..])[0];
      x.pos > least.pos <==> x.pos > e.pos || exists j :: 0 <= j < |es| && x.pos > es[j].pos
  {
    var least := (es[..i] + [e] + es[i..])[0];
    if i > 0 {
      assert least == es[0];
      assert es[0].pos < e.pos;
    } else {
      assert least == e;
    }
    if j :| 0 <= j < |es| && x.pos > es[j].pos && j > 0 { assert es[0].pos < es[j].pos; }
  }

  /** The watermark leaves exactly the events at or above it. */
  lemma {:induction false} DiscardExact(es: seq<SslEvent>, mark: nat, x: SslEvent)
    requires Sorted(es)
    ensures x in es[LowerBound(es, mark)..] <==> x in es && x.pos >= mark
  {
    var i := LowerBound(es, mark);
    forall j | i < j < |es| ensures es[j].pos >= mark { assert es[i].pos < es[j].pos; }
    SuffixHolds(es, mark, i, x);
  }

  lemma SuffixHolds(es: seq<SslEvent>, mark: nat, i: nat, x: SslEvent)
    requires i <= |es|
    requires (forall j :: 0 <= j < i ==> es[j].pos < mark) && (forall j :: i <= j < |es| ==> es[j].pos >= mark)
    ensures x in es[i..] <==> x in es && x.pos >= mark
  {
    if x in es && x.pos >= mark {
      var j :| 0 <= j < |es| && es[j] == x;
      assert es[i..][j - i] == x;
    }
  }

  /** One direction's SSL events of a `KernEventStream`. */
  class SslEventList {
    var events: seq<SslEvent>
    var discardSeq: nat
    const maxLen: nat

    constructor (maxLen: nat)
      ensures Valid() && events == [] && discardSeq == 0 && this.maxLen == maxLen
    {
      this.maxLen := maxLen;
      events, discardSeq := [], 0;
    }

    ghost predicate Valid()
      reads this
    {
      Sorted(events) && |events| <= maxLen
    }

    method MarkNeedDiscardSslSeq(pos: nat)
      requires Valid()
      modifies this`discardSeq
      ensures Valid() && discardSeq == Max(old(discardSeq), pos)
    {
      discardSeq := Max(discardSeq, pos);
    }

    /** Everything below the watermark goes, even when that empties the list. */
    method DiscardSslEventsIfNeeded()
      requires Valid()
      modifies this`events
      ensures Valid() && events == old(events)[LowerBound(old(events), discardSeq)..]
    {
      if discardSeq != 0 {
        var index, _ := BinarySearch(events, discardSeq);
        events := events[index..];
      }
    }

    method AddSslEvent(e: SslEvent)
      requires Valid()
      modifies this`events
      ensures Valid()
      ensures events == Inserted(old(events)[LowerBound(old(events), discardSeq)..], e, maxLen)
    {
      DiscardSslEventsIfNeeded();
      InsertedSorted(events, e, maxLen);
      var index, found := BinarySearch(events, e.pos);
      if found {
        return;
      }
      var sslEvents := events[..index] + [e] + events[index..];
      events := KeepLatest(sslEvents, maxLen);
    }

    /** The early-exit scan: exactly the events with a position in [pos, pos + len). */
    method FindSslEventsBySeqAndLen(pos: nat, len: nat) returns (result: seq<SslEvent>)
      requires Valid()
      ensures result == Within(events, pos, pos + len)
    {
      var end := pos + len;
      result := [];
      var i := 0;
      while i < |events|
        invariant 0 <= i <= |events|
        invariant Within(events, pos, end) == result + Within(events[i..], pos, end)
      {
        assert events[i..][1..] == events[i + 1..];
        if events[i].pos < pos {
          i := i + 1;
          continue;
        }
        if events[i].pos < end {
          result := result + [events[i]];
        } else {
          NoneWithin(events[i..], pos, end);
          return;
        }
        i := i + 1;
      }
    }
  }

  lemma {:induction false} NoneWithin(es: seq<SslEvent>, start: nat, end: nat)
    requires forall i :: 0 <= i < |es| ==> es[i].pos >= end
    ensures Within(es, start, end) == []
  {
    if es != [] { NoneWithin(es[1..], start, end); }
  }

  // ----- the kernel range of a message -----

  /** An event without any kernel range is skipped. */
  predicate Located(e: SslEvent) {
    e.kernPos != 0 || e.kernLen != 0
  }

  /** Ranges in kernel order: each ends where or before the next one starts. */
  ghost predicate KernOrdered(es: seq<SslEvent>) {
    forall i, j :: 0 <= i < j < |es| && Located(es[i]) && Located(es[j]) ==>
      es[i].kernPos + es[i].kernLen <= es[j].kernPos
  }

  /** `getKernSeqAndLen`: from the first located event's start to the last one's end. */
  method GetKernSeqAndLen(es: seq<SslEvent>) returns (pos: nat, len: int)
    ensures (forall i :: 0 <= i < |es| ==> !Located(es[i])) ==> pos == 0 && len == 0
    ensures (exists i :: 0 <= i < |es| && Located(es[i])) ==>
      exists f, l :: IsFirst(es, f) && IsLast(es, l) && pos == es[f].kernPos && pos + len == es[l].kernPos + es[l].kernLen
  {
    var idx := 0;
    while idx < |es| && !Located(es[idx])
      invariant 0 <= idx <= |es| && forall i :: 0 <= i < idx ==> !Located(es[i])
    {
      idx := idx + 1;
    }
    if idx == |es| {
      return 0, 0;
    }
    pos := es[idx].kernPos;
    var back := |es| - 1;
    while !Located(es[back])
      invariant idx <= back < |es| && forall i :: back < i < |es| ==> !Located(es[i])
      decreases back
    {
      back := back - 1;
    }
    len := es[back].kernLen + es[back].kernPos - pos;
    assert IsFirst(es, idx) && IsLast(es, back);
  }

  ghost predicate IsFirst(es: seq<SslEvent>, f: int) {
    0 <= f < |es| && Located(es[f]) && forall i :: 0 <= i < f ==> !Located(es[i])
  }

  ghost predicate IsLast(es: seq<SslEvent>, l: int) {
    0 <= l < |es| && Located(es[l]) && forall i :: l < i < |es| ==> !Located(es[i])
  }

  /** Every located range lies inside [lo, hi). */
  ghost predicate Spans(es: seq<SslEvent>, lo: int, hi: int) {
    forall i :: 0 <= i < |es| && Located(es[i]) ==> lo <= es[i].kernPos && es[i].kernPos + es[i].kernLen <= hi
  }

  /** The hull: on ordered events the range found contains every event's range, and no
      shorter range does. */
  lemma KernHull(es: seq<SslEvent>, f: int, l: int, pos: nat, len: int)
    requires KernOrdered(es) && IsFirst(es, f) && IsLast(es, l)
    requires pos == es[f].kernPos && pos + len == es[l].kernPos + es[l].kernLen
    ensures len >= 0 && Spans(es, pos, pos + len)
    ensures forall lo, hi :: Spans(es, lo, hi) ==> lo <= pos && pos + len <= hi
  {
    assert f <= l;
    forall i | 0 <= i < |es| && Located(es[i])
      ensures pos <= es[i].kernPos && es[i].kernPos + es[i].kernLen <= pos + len
    {
      assert f <= i <= l;
    }
  }
}
