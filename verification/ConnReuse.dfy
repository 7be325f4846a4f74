/** Descriptor reuse: the connection history behind one descriptor and the lookup by
    timestamp (agent/conn/conntrack.go). */
module ConnReuse {
  import opened Options

  type Fd = nat // tgid_fd

  /** A connection; `addr` stands for the four address fields that IsIpPortEqualsWith
      compares, `temp` for its lists of events waiting for protocol inference, and
      `depth` for the length of its own prevConn. */
  datatype Conn = Conn(addr: nat, startTs: nat, closeTs: nat, closed: bool, temp: seq<nat>, depth: nat) {
    /** `timeBoundCheck` */
    predicate Contains(ts: nat) {
      startTs == 0 || (startTs <= ts && (closeTs == 0 || ts <= closeTs))
    }
  }

  /** The connection stored for a descriptor, with its prevConn. */
  datatype Entry = Entry(cur: Conn, prev: seq<Conn>)

  /** How many connections go: all up to the last closed one. */
  function ThroughLastClosed(prev: seq<Conn>): (k: nat)
    ensures k <= |prev| && (k > 0 ==> prev[k - 1].closed)
    ensures forall i :: k <= i < |prev| ==> !prev[i].closed
  {
    if prev == [] then 0
    else if prev[|prev| - 1].closed then |prev|
    else ThroughLastClosed(prev[..|prev| - 1])
  }

  /** What stays of a history: the part after its last closed connection. */
  function Kept(prev: seq<Conn>): seq<Conn> {
    prev[ThroughLastClosed(prev)..]
  }

  function WithHistory(conn: Conn, prev: seq<Conn>): Entry {
    Entry(conn.(depth := |prev|), prev)
  }

  /** `conn` put in the place of `was` with another address: the old connection joins
      the history without a history of its own, and hands its waiting events over. */
  function Replacing(was: Entry, conn: Conn): Entry {
    WithHistory(conn.(temp := conn.temp + was.cur.temp), Kept(was.prev) + [was.cur.(depth := 0, temp := [])])
  }

  function Added(was: Option<Entry>, conn: Conn): Option<Entry> {
    if was.None? then Some(WithHistory(conn, []))
    else if was.value.cur.addr != conn.addr then Some(Replacing(was.value, conn))
    else was
  }

  /** The branch of `AddConnection4` for another address. */
  method Replace(existed: Entry, conn: Conn) returns (r: Entry)
    ensures r == Replacing(existed, conn)
  {
    var prevConn := DropThroughLastClosed(existed.prev);
    var existedConn := existed.cur.(depth := 0);
    prevConn := prevConn + [existedConn.(temp := [])];
    r := WithHistory(conn.(temp := conn.temp + existedConn.temp), prevConn);
  }

  class ConnManager {
    var connMap: map<Fd, Entry>

    constructor ()
      ensures connMap == map[]
    {
      connMap := map[];
    }

    ghost function Current(fd: Fd): Option<Entry>
      reads this
    {
      if fd in connMap then Some(connMap[fd]) else None
    }

    /** Adds a fresh connection to a descriptor. */
    method AddConnection4(fd: Fd, conn: Conn)
      modifies this
      ensures connMap == old(connMap)[fd := Added(old(Current(fd)), conn).value]
      ensures fd in old(connMap) && old(connMap)[fd].cur.addr != conn.addr ==>
        && Same(connMap[fd].cur, conn) && connMap[fd].prev != []
        && Same(connMap[fd].prev[|connMap[fd].prev| - 1], old(connMap)[fd].cur)
    {
      if fd in connMap {
        var existed := connMap[fd];
        if existed.cur.addr != conn.addr {
          ReplacementExact(existed, conn);
          var replacing := Replace(existed, conn);
          connMap := connMap[fd := replacing];
        }
      } else {
        connMap := connMap[fd := WithHistory(conn, [])];
      }
    }

    method LookupConnection4ByTimestamp(fd: Fd, ts: nat) returns (r: Option<Conn>)
      ensures r == if fd in connMap then Lookup(connMap[fd], ts) else None
    {
      if fd !in connMap {
        return None;
      }
      var connection := connMap[fd].cur;
      if connection.startTs < ts {
        return Some(connection);
      }
      var curConnList := connMap[fd].prev;
      var idx := |curConnList| - 1;
      assert curConnList[..idx + 1] == curConnList;
      while idx >= 0
        invariant -1 <= idx < |curConnList|
        invariant LastContaining(curConnList, ts) == LastContaining(curConnList[..idx + 1], ts)
      {
        assert curConnList[..idx + 1][..idx] == curConnList[..idx];
        if curConnList[idx].Contains(ts) {
          return Some(curConnList[idx]);
        }
        idx := idx - 1;
      }
      return None;
    }
  }

  /** The backward scan for the last closed connection. */
  method DropThroughLastClosed(prevConn: seq<Conn>) returns (keep: seq<Conn>)
    ensures keep == Kept(prevConn)
  {
    var deleteEndIdx := -1;
    var idx := |prevConn| - 1;
    while idx >= 0 && deleteEndIdx == -1
      invariant -1 <= deleteEndIdx < |prevConn| && -1 <= idx < |prevConn|
      invariant deleteEndIdx == -1 ==> forall i :: idx < i < |prevConn| ==> !prevConn[i].closed
      invariant deleteEndIdx != -1 ==> prevConn[deleteEndIdx].closed
      invariant deleteEndIdx != -1 ==> forall i :: deleteEndIdx < i < |prevConn| ==> !prevConn[i].closed
      decreases idx + 1, deleteEndIdx == -1
    {
      if prevConn[idx].closed {
        deleteEndIdx := idx;
      } else {
        idx := idx - 1;
      }
    }
    keep := prevConn[deleteEndIdx + 1..];
    SamePoint(prevConn, deleteEndIdx + 1);
  }

  /** There is only one such point. */
  lemma SamePoint(prev: seq<Conn>, k: nat)
    requires k <= |prev| && (k > 0 ==> prev[k - 1].closed)
    requires forall i :: k <= i < |prev| ==> !prev[i].closed
    ensures k == ThroughLastClosed(prev)
  {
    var j := ThroughLastClosed(prev);
    assert j > 0 ==> prev[j - 1].closed;
  }

  function LastContaining(cs: seq<Conn>, ts: nat): Option<Conn> {
    if cs == [] then None
    else
      var n := |cs| - 1;
      if cs[n].Contains(ts) then Some(cs[n]) else LastContaining(cs[..n], ts)
  }

  function Lookup(e: Entry, ts: nat): Option<Conn> {
    if e.cur.startTs < ts then Some(e.cur) else LastContaining(e.prev, ts)
  }

  // ----- over runs -----

  ghost predicate Increasing(cs: seq<Conn>) {
    forall i, j :: 0 <= i < j < |cs| ==> cs[i].startTs < cs[j].startTs
  }

  /** All started before `ts`, and none has a history of its own. */
  ghost predicate FlatBefore(cs: seq<Conn>, ts: nat) {
    forall i :: 0 <= i < |cs| ==> cs[i].startTs < ts && cs[i].depth == 0
  }

  /** The history started in order, before the current connection, and is flat. */
  ghost predicate Ordered(e: Entry) {
    e.cur.depth == |e.prev| && Increasing(e.prev) && FlatBefore(e.prev, e.cur.startTs)
  }

  /** What can happen to the connections of one descriptor. */
  datatype Event =
    | Arrive(conn: Conn)              // AddConnection4
    | CloseCurrent(ts: nat)
    | ClosePrevious(i: nat, ts: nat)
    | Sweep                           // the ticker drops a closed current connection

  /** Connections arrive with increasing start times. */
  predicate Possible(was: Option<Entry>, e: Event) {
    e.Arrive? && was.Some? ==> was.value.cur.startTs < e.conn.startTs
  }

  function Next(was: Option<Entry>, e: Event): Option<Entry> {
    match e
    case Arrive(conn) => Added(was, conn)
    case CloseCurrent(ts) =>
      if was.Some? then Some(was.value.(cur := was.value.cur.(closed := true, closeTs := ts))) else was
    case ClosePrevious(i, ts) =>
      if was.Some? && i < |was.value.prev|
      then Some(was.value.(prev := was.value.prev[i := was.value.prev[i].(closed := true, closeTs := ts)])) else was
    case Sweep => if was.Some? && was.value.cur.closed then None else was
  }

  ghost predicate Runs(was: Option<Entry>, es: seq<Event>)
    decreases es
  {
    es != [] ==> Possible(was, es[0]) && Runs(Next(was, es[0]), es[1..])
  }

  function After(was: Option<Entry>, es: seq<Event>): Option<Entry>
    decreases es
  {
    if es == [] then was else After(Next(was, es[0]), es[1..])
  }

  lemma SuffixOrdered(cs: seq<Conn>, k: nat, ts: nat)
    requires k <= |cs| && Increasing(cs) && FlatBefore(cs, ts)
    ensures Increasing(cs[k..]) && FlatBefore(cs[k..], ts)
  {
  }

  lemma AppendOrdered(cs: seq<Conn>, c: Conn, ts: nat)
    requires Increasing(cs) && FlatBefore(cs, c.startTs) && c.startTs < ts && c.depth == 0
    ensures Increasing(cs + [c]) && FlatBefore(cs + [c], ts)
  {
  }

  lemma ReplacingOrdered(was: Entry, conn: Conn)
    requires Ordered(was) && was.cur.startTs < conn.startTs
    ensures Ordered(Replacing(was, conn))
  {
    SuffixOrdered(was.prev, ThroughLastClosed(was.prev), was.cur.startTs);
    AppendOrdered(Kept(was.prev), was.cur.(depth := 0, temp := []), conn.startTs);
  }

  lemma StepOrdered(was: Option<Entry>, e: Event)
    requires Possible(was, e) && (was.Some? ==> Ordered(was.value))
    ensures Next(was, e).Some? ==> Ordered(Next(was, e).value)
  {
    if e.Arrive? && was.Some? { ReplacingOrdered(was.value, e.conn); }
  }

  /** In every run the history stays ordered by start time, before the current
      connection, with no history inside the history. */
  lemma {:induction false} RunOrdered(was: Option<Entry>, es: seq<Event>)
    requires Runs(was, es) && (was.Some? ==> Ordered(was.value))
    ensures After(was, es).Some? ==> Ordered(After(was, es).value)
    decreases es
  {
    if es != [] {
      StepOrdered(was, es[0]);
      RunOrdered(Next(was, es[0]), es[1..]);
    }
  }

  /** `r` is the latest-started of `cs` whose lifetime contains `ts`. */
  ghost predicate IsLatest(cs: seq<Conn>, ts: nat, r: Conn) {
    && r in cs && r.Contains(ts)
    && forall i :: 0 <= i < |cs| && cs[i].Contains(ts) ==> cs[i].startTs <= r.startTs
  }

  lemma {:induction false} LastContainingIs(cs: seq<Conn>, ts: nat)
    requires Increasing(cs)
    ensures match LastContaining(cs, ts)
      case None => forall i :: 0 <= i < |cs| ==> !cs[i].Contains(ts)
      case Some(r) => IsLatest(cs, ts, r)
    decreases |cs|
  {
    if cs != [] {
      var n := |cs| - 1;
      assert cs == cs[..n] + [cs[n]];
      LastContainingIs(cs[..n], ts);
    }
  }

  /** The lookup: after any run, the current connection if it started strictly before
      `ts`, otherwise the latest-started retained one whose lifetime contains `ts`, or
      none when no lifetime does. */
  lemma LookupLatest(es: seq<Event>, ts: nat)
    requires Runs(None, es) && After(None, es).Some?
    ensures var e := After(None, es).value;
      if e.cur.startTs < ts then Lookup(e, ts) == Some(e.cur)
      else match Lookup(e, ts)
        case None => forall i :: 0 <= i < |e.prev| ==> !e.prev[i].Contains(ts)
        case Some(r) => IsLatest(e.prev, ts, r)
  {
    RunOrdered(None, es);
    LastContainingIs(After(None, es).value.prev, ts);
  }

  // ----- nothing is lost but by a close -----

  /** The same connection, whatever its waiting events and history. */
  predicate Same(a: Conn, b: Conn) {
    a.addr == b.addr && a.startTs == b.startTs && a.closeTs == b.closeTs && a.closed == b.closed
  }

  /** A connection on another address: it becomes current and takes over the waiting
      events; the connection that was current becomes the last of the history; and an
      earlier one stays in the history exactly when neither it nor a later one is closed. */
  lemma ReplacementExact(was: Entry, conn: Conn)
    requires was.cur.addr != conn.addr
    ensures Added(Some(was), conn).Some?
    ensures var e := Added(Some(was), conn).value;
      && Same(e.cur, conn) && e.cur.temp == conn.temp + was.cur.temp
      && 0 < |e.prev| <= |was.prev| + 1
      && Same(e.prev[|e.prev| - 1], was.cur) && e.prev[|e.prev| - 1].temp == []
      && var gone := |was.prev| + 1 - |e.prev|;
         forall i :: 0 <= i < |was.prev| ==>
           && (i >= gone <==> forall j :: i <= j < |was.prev| ==> !was.prev[j].closed)
           && (i >= gone ==> e.prev[i - gone] == was.prev[i])
  {
  }

  /** A connection on the same address changes nothing; a first one has no history. */
  lemma OtherArrivals(was: Option<Entry>, conn: Conn)
    requires was.Some? ==> was.value.cur.addr == conn.addr
    ensures Added(was, conn).Some?
    ensures was.Some? ==> Added(was, conn) == was
    ensures was.None? ==> Same(Added(was, conn).value.cur, conn) && Added(was, conn).value.prev == []
  {
  }

  /** Every connection the descriptor has had since it was last free, as it is now. */
  function LogStep(was: Option<Entry>, all: seq<Conn>, e: Event): seq<Conn> {
    if was.None? then if e.Arrive? then [e.conn] else all
    else
      match e
      case Arrive(conn) => if was.value.cur.addr != conn.addr then all + [conn] else all
      case CloseCurrent(ts) => if all != [] then all[|all| - 1 := all[|all| - 1].(closed := true, closeTs := ts)] else all
      case ClosePrevious(i, ts) =>
        var j := |all| - 1 - |was.value.prev| + i;
        if i < |was.value.prev| && 0 <= j then all[j := all[j].(closed := true, closeTs := ts)] else all
      case Sweep => if was.value.cur.closed then [] else all
  }

  function LogRun(was: Option<Entry>, all: seq<Conn>, es: seq<Event>): seq<Conn>
    decreases es
  {
    if es == [] then all else LogRun(Next(was, es[0]), LogStep(was, all, es[0]), es[1..])
  }

  /** The events that wait in those connections, the latest connection's first. */
  function Waiting(all: seq<Conn>): seq<nat> {
    if all == [] then [] else all[|all| - 1].temp + Waiting(all[..|all| - 1])
  }

  /** The history and the current connection are the last ones of the log, the first
      that are missing end with a closed one, and no waiting event is lost. */
  ghost predicate FitsLog(e: Entry, all: seq<Conn>, k: nat) {
    && |all| == k + |e.prev| + 1 && (k > 0 ==> all[k - 1].closed)
    && (forall i :: 0 <= i < |e.prev| ==> Same(e.prev[i], all[k + i]) && e.prev[i].temp == [])
    && Same(e.cur, all[|all| - 1]) && e.cur.temp == Waiting(all)
  }

  lemma {:induction false} WaitingSame(a: seq<Conn>, b: seq<Conn>)
    requires |a| == |b| && forall i :: 0 <= i < |a| ==> a[i].temp == b[i].temp
    ensures Waiting(a) == Waiting(b)
    decreases |a|
  {
    if a != [] { WaitingSame(a[..|a| - 1], b[..|b| - 1]); }
  }

  lemma ArriveFits(was: Entry, all: seq<Conn>, k: nat, conn: Conn) returns (k': nat)
    requires FitsLog(was, all, k) && was.cur.addr != conn.addr
    ensures FitsLog(Replacing(was, conn), all + [conn], k')
  {
    var gone := ThroughLastClosed(was.prev);
    k' := k + gone;
    var e, more := Replacing(was, conn), all + [conn];
    assert more[..|more| - 1] == all;
    forall i | 0 <= i < |e.prev| ensures Same(e.prev[i], more[k' + i]) && e.prev[i].temp == [] {
      HistoryAt(was, all, k, conn, i);
    }
    if gone > 0 { assert Same(was.prev[gone - 1], all[k + gone - 1]); }
  }

  lemma HistoryAt(was: Entry, all: seq<Conn>, k: nat, conn: Conn, i: nat)
    requires FitsLog(was, all, k) && i < |Replacing(was, conn).prev|
    ensures var c, j := Replacing(was, conn).prev[i], k + ThroughLastClosed(was.prev) + i;
      j < |all| && Same(c, all[j]) && c.temp == []
  {
    if i < |Replacing(was, conn).prev| - 1 {
      assert Replacing(was, conn).prev[i] == was.prev[ThroughLastClosed(was.prev) + i];
    }
  }

  lemma CloseFits(was: Entry, all: seq<Conn>, k: nat, e: Event)
    requires FitsLog(was, all, k) && (e.CloseCurrent? || e.ClosePrevious?)
    ensures FitsLog(Next(Some(was), e).value, LogStep(Some(was), all, e), k)
  {
    WaitingSame(all, LogStep(Some(was), all, e));
  }

  lemma StepFits(was: Option<Entry>, all: seq<Conn>, k: nat, e: Event) returns (k': nat)
    requires was.Some? ==> FitsLog(was.value, all, k)
    ensures Next(was, e).Some? ==> FitsLog(Next(was, e).value, LogStep(was, all, e), k')
  {
    k' := k;
    if was.None? {
      if e.Arrive? {
        k' := 0;
        assert [e.conn][..0] == [];
      }
    } else if e.Arrive? {
      if was.value.cur.addr != e.conn.addr { k' := ArriveFits(was.value, all, k, e.conn); }
    } else if !e.Sweep? {
      CloseFits(was.value, all, k, e);
    }
  }

  /** Over every run: the current connection is the latest of the log, the history is the
      part of the log just before it, what is missing of the log ends with a closed
      connection, and every waiting event has been handed on to the current one. */
  lemma {:induction false} RunHistory(was: Option<Entry>, all: seq<Conn>, k: nat, es: seq<Event>) returns (k': nat)
    requires was.Some? ==> FitsLog(was.value, all, k)
    ensures After(was, es).Some? ==> FitsLog(After(was, es).value, LogRun(was, all, es), k')
    decreases es
  {
    k' := k;
    if es != [] {
      var mid := StepFits(was, all, k, es[0]);
      k' := RunHistory(Next(was, es[0]), LogStep(was, all, es[0]), mid, es[1..]);
    }
  }

  /** A time within the lifetime of a retained connection, and not after the current one
      started, is answered, by that connection or one that started later. */
  lemma LookupAnswers(es: seq<Event>, ts: nat, i: nat)
    requires Runs(None, es) && After(None, es).Some? && i < |After(None, es).value.prev|
    requires var e := After(None, es).value;
      ts <= e.cur.startTs && e.prev[i].startTs <= ts && (e.prev[i].closeTs == 0 || ts <= e.prev[i].closeTs)
    ensures var e := After(None, es).value;
      Lookup(e, ts).Some? && Lookup(e, ts).value in e.prev && e.prev[i].startTs <= Lookup(e, ts).value.startTs
  {
    LookupLatest(es, ts);
  }

  /** An answer from the history was alive at that time, as far as its times are known. */
  lemma LookupAlive(es: seq<Event>, ts: nat)
    requires Runs(None, es) && After(None, es).Some?
    ensures var e := After(None, es).value;
      ts <= e.cur.startTs && Lookup(e, ts).Some? ==>
        var r := Lookup(e, ts).value;
        r in e.prev && (r.startTs == 0 || (r.startTs <= ts && (r.closeTs == 0 || ts <= r.closeTs)))
  {
    LookupLatest(es, ts);
  }

  /** In particular the connection just replaced answers for the times of its life. */
  lemma LookupReplaced(was: Entry, conn: Conn, ts: nat)
    requires was.cur.addr != conn.addr && ts <= conn.startTs
    requires was.cur.startTs <= ts && (was.cur.closeTs == 0 || ts <= was.cur.closeTs)
    ensures var e := Added(Some(was), conn).value; Lookup(e, ts).Some? && Same(Lookup(e, ts).value, was.cur)
  {
  }
}
