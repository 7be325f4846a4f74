/** How the events of one vectored call, and of a whole run of calls, cover the byte
    positions of a direction (bpf/data_common.h, bpf/pktlatency.bpf.c). */
module SyscallEvents {
  import opened Words
  import opened Options
  import opened Numbering

  const LOOP_LIMIT: nat := 3

  /** A reported event: its position, its length, and the buffer its data is copied from;
      None if it is reported without data. */
  datatype Range = Range(start: u32, len: nat, buf: Option<nat>)

  /** `es` cut [from, from + total) into consecutive non-empty pieces, modulo 2^32. */
  ghost predicate Tiles(es: seq<Range>, from: nat, total: nat)
    decreases es
  {
    if es == [] then total == 0
    else
      && es[0].start == Wrap32(from) && 0 < es[0].len <= total
      && Tiles(es[1..], from + es[0].len, total - es[0].len)
  }

  lemma {:induction false} TilesConcat(a: seq<Range>, b: seq<Range>, from: nat, m: nat, n: nat)
    requires Tiles(a, from, m) && Tiles(b, from + m, n)
    ensures Tiles(a + b, from, m + n)
    decreases a
  {
    if a == [] {
      assert a + b == b;
    } else {
      assert (a + b)[1..] == a[1..] + b;
      TilesConcat(a[1..], b, from + a[0].len, m - a[0].len, n);
    }
  }

  lemma TilesOne(from: nat, n: nat, buf: Option<nat>)
    requires n > 0
    ensures Tiles([Range(Wrap32(from), n, buf)], from, n)
  {
    assert [Range(Wrap32(from), n, buf)][1..] == [];
  }

  /** The part of an iovec that a call of `left` remaining bytes fills. */
  function Piece(iov: nat, left: nat): nat {
    if iov < left then iov else left
  }

  /** The bytes of the call held by its first `i` iovecs. */
  function Taken(total: nat, iovs: seq<nat>, i: nat): (b: nat)
    requires i <= |iovs|
    ensures b <= total
  {
    if i == 0 then 0 else Taken(total, iovs, i - 1) + Piece(iovs[i - 1], total - Taken(total, iovs, i - 1))
  }

  /** `report_syscall_buf`: nothing is reported for an empty buffer. */
  function Emit(done: seq<Range>, start: u32, n: nat, buf: Option<nat>): seq<Range> {
    if n > 0 then done + [Range(start, n, buf)] else done
  }

  /** One event per non-empty piece of the first `i` iovecs. */
  function PieceEvents(from: nat, total: nat, iovs: seq<nat>, i: nat): seq<Range>
    requires i <= |iovs|
  {
    if i == 0 then []
    else
      var b := Taken(total, iovs, i - 1);
      Emit(PieceEvents(from, total, iovs, i - 1), Wrap32(from + b), Piece(iovs[i - 1], total - b), Some(i - 1))
  }

  function Inspected(iovs: seq<nat>, limit: nat): nat {
    if limit < |iovs| then limit else |iovs|
  }

  /** One event per non-empty iovec among the first `limit`, cut off at the bytes
      transferred, and one event for whatever they do not hold. */
  function VecEvents(from: nat, total: nat, iovs: seq<nat>, limit: nat): seq<Range> {
    var m := Inspected(iovs, limit);
    var b := Taken(total, iovs, m);
    Emit(PieceEvents(from, total, iovs, m), Wrap32(from + b), total - b, None)
  }

  lemma EmitTiles(done: seq<Range>, from: nat, b: nat, n: nat, buf: Option<nat>)
    requires Tiles(done, from, b)
    ensures Tiles(Emit(done, Wrap32(from + b), n, buf), from, b + n)
  {
    if n > 0 {
      TilesOne(from + b, n, buf);
      TilesConcat(done, [Range(Wrap32(from + b), n, buf)], from, b, n);
    }
  }

  lemma {:induction false} PieceEventsTile(from: nat, total: nat, iovs: seq<nat>, i: nat)
    requires i <= |iovs|
    ensures Tiles(PieceEvents(from, total, iovs, i), from, Taken(total, iovs, i))
    ensures |PieceEvents(from, total, iovs, i)| <= i
  {
    if i > 0 {
      var b := Taken(total, iovs, i - 1);
      PieceEventsTile(from, total, iovs, i - 1);
      EmitTiles(PieceEvents(from, total, iovs, i - 1), from, b, Piece(iovs[i - 1], total - b), Some(i - 1));
    }
  }

  /** Event tiling: whatever the iovec lengths, the events of one call cut the whole
      of [from, from + total) into pieces. */
  lemma VecEventsTile(from: nat, total: nat, iovs: seq<nat>, limit: nat)
    ensures Tiles(VecEvents(from, total, iovs, limit), from, total)
    ensures |VecEvents(from, total, iovs, limit)| <= limit + 1
  {
    var m := Inspected(iovs, limit);
    var b := Taken(total, iovs, m);
    PieceEventsTile(from, total, iovs, m);
    EmitTiles(PieceEvents(from, total, iovs, m), from, b, total - b, None);
  }

  // ----- which bytes come from which iovec -----

  /** The bytes the first `i` iovecs can hold. */
  function Room(iovs: seq<nat>, i: nat): nat
    requires i <= |iovs|
  {
    if i == 0 then 0 else Room(iovs, i - 1) + iovs[i - 1]
  }

  function Least(a: nat, b: nat): nat {
    if a < b then a else b
  }

  lemma {:induction false} TakenIsLeast(total: nat, iovs: seq<nat>, i: nat)
    requires i <= |iovs|
    ensures Taken(total, iovs, i) == Least(total, Room(iovs, i))
  {
    if i > 0 { TakenIsLeast(total, iovs, i - 1); }
  }

  /** The event of iovec `i`: the bytes of the call between the ends of the iovecs before
      it and its own end. */
  predicate IsPiece(r: Range, from: nat, total: nat, iovs: seq<nat>, i: nat)
    requires i < |iovs|
  {
    var a, b := Least(total, Room(iovs, i)), Least(total, Room(iovs, i + 1));
    b > a && r == Range(Wrap32(from + a), b - a, Some(i))
  }

  lemma {:induction false} PieceEventsExact(from: nat, total: nat, iovs: seq<nat>, m: nat, r: Range)
    requires m <= |iovs|
    ensures r in PieceEvents(from, total, iovs, m) <==> exists i :: 0 <= i < m && IsPiece(r, from, total, iovs, i)
  {
    if m > 0 {
      PieceEventsExact(from, total, iovs, m - 1, r);
      OneMorePiece(from, total, iovs, m, r);
    }
  }

  lemma OneMorePiece(from: nat, total: nat, iovs: seq<nat>, m: nat, r: Range)
    requires 0 < m <= |iovs|
    ensures r in PieceEvents(from, total, iovs, m) <==>
      r in PieceEvents(from, total, iovs, m - 1) || IsPiece(r, from, total, iovs, m - 1)
  {
    TakenIsLeast(total, iovs, m - 1);
    TakenIsLeast(total, iovs, m);
    var b, n := Taken(total, iovs, m - 1), Piece(iovs[m - 1], total - Taken(total, iovs, m - 1));
    assert Taken(total, iovs, m) == b + n;
    EmitHolds(PieceEvents(from, total, iovs, m - 1), Wrap32(from + b), n, Some(m - 1), r);
  }

  lemma EmitHolds(done: seq<Range>, start: u32, n: nat, buf: Option<nat>, r: Range)
    ensures r in Emit(done, start, n, buf) <==> r in done || (n > 0 && r == Range(start, n, buf))
  {
  }

  /** Exactly what a vectored call reports: for each of its first three iovecs the bytes of
      the call that lie in it, if any, with data from that iovec; and for whatever lies past
      them one event without data. */
  lemma VecEventsExact(from: nat, total: nat, iovs: seq<nat>, r: Range)
    ensures var m := Least(3, |iovs|);
      r in VecEvents(from, total, iovs, LOOP_LIMIT) <==>
        || (exists i :: 0 <= i < m && IsPiece(r, from, total, iovs, i))
        || (total > Room(iovs, m) && r == Range(Wrap32(from + Room(iovs, m)), total - Room(iovs, m), None))
  {
    var m := Least(3, |iovs|);
    TakenIsLeast(total, iovs, m);
    PieceEventsExact(from, total, iovs, m, r);
    assert Inspected(iovs, LOOP_LIMIT) == m;
  }

  /** Once the call is used up further iovecs add nothing. */
  lemma {:induction false} UsedUp(from: nat, total: nat, iovs: seq<nat>, i: nat, m: nat)
    requires i <= m <= |iovs| && Taken(total, iovs, i) == total
    ensures Taken(total, iovs, m) == total && PieceEvents(from, total, iovs, m) == PieceEvents(from, total, iovs, i)
    decreases m
  {
    if i < m { UsedUp(from, total, iovs, i, m - 1); }
  }

  /** `seq += n` on a `uint32` that stands for position `x`. */
  method Plus32(w: u32, ghost x: nat, n: nat) returns (r: u32)
    requires w == Wrap32(x)
    ensures r == Wrap32(x + n)
  {
    WrapAdd(x, n);
    r := Wrap32(w + n);
  }

  /** The loop of `report_syscall_evt_vecs`, with its limit as a parameter. */
  method ReportPieces(start: u32, total: nat, iovs: seq<nat>, limit: nat)
    returns (events: seq<Range>, seqNo: u32, bytesSent: nat, ghost m: nat)
    requires total < TWO_31 // a Linux call transfers less than 2^31 bytes
    ensures m <= Inspected(iovs, limit) && (m < Inspected(iovs, limit) ==> bytesSent == total)
    ensures bytesSent == Taken(total, iovs, m) && seqNo == Wrap32(start + bytesSent)
    ensures events == PieceEvents(start, total, iovs, m)
  {
    events, seqNo, bytesSent := [], start, 0;
    var i := 0;
    while i < limit && i < |iovs| && bytesSent < total
      invariant 0 <= i <= Inspected(iovs, limit)
      invariant bytesSent == Taken(total, iovs, i)
      invariant seqNo == Wrap32(start + bytesSent)
      invariant events == PieceEvents(start, total, iovs, i)
    {
      var bytesRemaining := total - bytesSent;
      var iovSize := if iovs[i] < bytesRemaining then iovs[i] else bytesRemaining;
      events := Emit(events, seqNo, iovSize, Some(i));
      seqNo := Plus32(seqNo, start + bytesSent, iovSize);
      bytesSent := bytesSent + iovSize;
      i := i + 1;
    }
    m := i;
  }

  method ReportVecs(start: u32, total: nat, iovs: seq<nat>, limit: nat) returns (events: seq<Range>)
    requires total < TWO_31
    ensures events == VecEvents(start, total, iovs, limit)
  {
    var seqNo, bytesSent;
    ghost var m;
    events, seqNo, bytesSent, m := ReportPieces(start, total, iovs, limit);
    if bytesSent == total { UsedUp(start, total, iovs, m, Inspected(iovs, limit)); }
    if bytesSent < total {
      events := Emit(events, seqNo, total - bytesSent, None);
    }
  }

  method ReportSyscallEvtVecs(start: u32, total: nat, iovs: seq<nat>) returns (events: seq<Range>)
    requires total < TWO_31
    ensures events == VecEvents(start, total, iovs, LOOP_LIMIT) && Tiles(events, start, total)
  {
    events := ReportVecs(start, total, iovs, LOOP_LIMIT);
    VecEventsTile(start, total, iovs, LOOP_LIMIT);
  }

  // ----- what a tiling means, when no position wraps -----

  /** Non-empty ranges inside [lo, hi), each ending before the next starts. */
  ghost predicate Increasing(es: seq<Range>, lo: nat, hi: nat) {
    && (forall i :: 0 <= i < |es| ==> es[i].len > 0 && lo <= es[i].start && es[i].start + es[i].len <= hi)
    && (forall i, j :: 0 <= i < j < |es| ==> es[i].start + es[i].len <= es[j].start)
  }

  ghost predicate Has(r: Range, p: int) {
    r.start <= p < r.start + r.len
  }

  lemma {:induction false} TilesIncreasing(es: seq<Range>, from: nat, total: nat)
    requires Tiles(es, from, total) && from + total <= TWO_32
    ensures Increasing(es, from, from + total)
    decreases es
  {
    if es != [] {
      TilesIncreasing(es[1..], from + es[0].len, total - es[0].len);
      assert es == [es[0]] + es[1..];
    }
  }

  /** No gap and no overlap: every position of the call lies in exactly one event. */
  lemma {:induction false} TilesPartition(es: seq<Range>, from: nat, total: nat, p: nat)
    requires Tiles(es, from, total) && from + total <= TWO_32
    ensures from <= p < from + total <==> exists i :: 0 <= i < |es| && Has(es[i], p)
    ensures forall i, j :: 0 <= i < j < |es| ==> !(Has(es[i], p) && Has(es[j], p))
    decreases es
  {
    TilesIncreasing(es, from, total);
    if es != [] {
      TilesPartition(es[1..], from + es[0].len, total - es[0].len, p);
      if i :| 0 <= i < |es| && Has(es[i], p) {
        if i > 0 { assert Has(es[1..][i - 1], p); }
      }
      if from <= p < from + es[0].len {
        assert Has(es[0], p);
      } else if p < from + total && p >= from {
        var j :| 0 <= j < |es[1..]| && Has(es[1..][j], p);
        assert Has(es[j + 1], p);
      }
    }
  }

  // ----- a whole run of one direction -----

  /** A data call: its direction, the bytes it moved, the lengths of its buffers (one for a
      plain read or write, none for sendfile), and whether it is reported at all. */
  datatype DataCall = DataCall(dir: Dir, total: nat, iovs: seq<nat>, reported: bool)

  /** The events of one call, numbered from the connection's counter. */
  function CallEvents(c: Conn, call: DataCall): seq<Range> {
    if call.reported then VecEvents(SyscallSeq(c, call.dir), call.total, call.iovs, LOOP_LIMIT) else []
  }

  /** The events of one direction over a run of calls, each counted after its report. */
  function RunEvents(c: Conn, calls: seq<DataCall>, d: Dir): seq<Range>
    decreases calls
  {
    if calls == [] then []
    else
      (if calls[0].dir == d then CallEvents(c, calls[0]) else [])
      + RunEvents(c.Count(calls[0].dir, calls[0].total), calls[1..], d)
  }

  /** The bytes a run moves in a direction. */
  function Sent(calls: seq<DataCall>, d: Dir): nat {
    if calls == [] then 0 else (if calls[0].dir == d then calls[0].total else 0) + Sent(calls[1..], d)
  }

  lemma {:induction false} TilesShift(es: seq<Range>, a: nat, b: nat, n: nat)
    requires Tiles(es, a, n) && Wrap32(a) == Wrap32(b)
    ensures Tiles(es, b, n)
    decreases es
  {
    if es != [] {
      WrapCancel(a, b, es[0].len);
      TilesShift(es[1..], a + es[0].len, b + es[0].len, n - es[0].len);
    }
  }

  lemma CallTiles(c: Conn, call: DataCall)
    requires call.reported
    ensures Tiles(CallEvents(c, call), c.Bytes(call.dir) + 1, call.total)
  {
    VecEventsTile(SyscallSeq(c, call.dir), call.total, call.iovs, LOOP_LIMIT);
    WrapAdd(c.Bytes(call.dir) + 1, 0);
    TilesShift(CallEvents(c, call), SyscallSeq(c, call.dir), c.Bytes(call.dir) + 1, call.total);
  }

  /** What is numbered from the counter after a call follows on from that call's events. */
  lemma CallThenRest(c: Conn, call: DataCall, rest: seq<Range>, n: nat)
    requires call.reported && Tiles(rest, c.Count(call.dir, call.total).Bytes(call.dir) + 1, n)
    ensures Tiles(CallEvents(c, call) + rest, c.Bytes(call.dir) + 1, call.total + n)
  {
    var bytes: nat := c.Bytes(call.dir);
    CallTiles(c, call);
    Wrap64Low(bytes + call.total);
    WrapCancel((bytes + call.total) % TWO_64, bytes + call.total, 1);
    TilesShift(rest, (bytes + call.total) % TWO_64 + 1, bytes + call.total + 1, n);
    TilesConcat(CallEvents(c, call), rest, bytes + 1, call.total, n);
  }

  /** Over a run of any length in which every call of a direction is reported, its events
      tile everything moved in that direction, modulo 2^32. */
  lemma {:induction false} RunTiles(c: Conn, calls: seq<DataCall>, d: Dir)
    requires forall i :: 0 <= i < |calls| && calls[i].dir == d ==> calls[i].reported
    ensures Tiles(RunEvents(c, calls, d), c.Bytes(d) + 1, Sent(calls, d))
    decreases calls
  {
    if calls != [] {
      var call, next := calls[0], c.Count(calls[0].dir, calls[0].total);
      assert forall i :: 0 <= i < |calls[1..]| ==> calls[1..][i] == calls[i + 1];
      RunTiles(next, calls[1..], d);
      if call.dir == d {
        CallThenRest(c, call, RunEvents(next, calls[1..], d), Sent(calls[1..], d));
      } else {
        assert [] + RunEvents(next, calls[1..], d) == RunEvents(next, calls[1..], d);
      }
    }
  }

  lemma IncreasingConcat(a: seq<Range>, b: seq<Range>, lo: nat, mid: nat, hi: nat)
    requires lo <= mid <= hi && Increasing(a, lo, mid) && Increasing(b, mid, hi)
    ensures Increasing(a + b, lo, hi)
  {
    var m := a + b;
    forall i, j | 0 <= i < j < |m| ensures m[i].start + m[i].len <= m[j].start {
      assert i < |a| ==> m[i] == a[i];
      assert j >= |a| ==> m[j] == b[j - |a|];
    }
  }

  /** Over a run of fewer than 2^32 bytes all ranges reported in a direction are
      disjoint and increasing, whether or not every call was reported. */
  lemma {:induction false} RunIncreasing(c: Conn, calls: seq<DataCall>, d: Dir)
    requires c.Bytes(d) + 1 + Sent(calls, d) <= TWO_32
    ensures Increasing(RunEvents(c, calls, d), c.Bytes(d) + 1, c.Bytes(d) + 1 + Sent(calls, d))
    decreases calls
  {
    if calls != [] {
      var call, next := calls[0], c.Count(calls[0].dir, calls[0].total);
      var lo, hi := c.Bytes(d) + 1, c.Bytes(d) + 1 + Sent(calls, d);
      var head := if call.dir == d then CallEvents(c, call) else [];
      var mid := if call.dir == d then lo + call.total else lo;
      assert next.Bytes(d) + 1 == mid;
      RunIncreasing(next, calls[1..], d);
      if call.dir == d && call.reported {
        CallTiles(c, call);
        TilesIncreasing(head, lo, call.total);
      }
      IncreasingConcat(head, RunEvents(next, calls[1..], d), lo, mid, hi);
    }
  }
}
