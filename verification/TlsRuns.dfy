/** Runs of SSL calls on one connection: their events come in order, by position and by
    kernel range, so a message's kernel range is the hull of its events'. */
module TlsRuns {
  import opened Words
  import opened Numbering
  import opened TlsNesting
  import opened TlsEvents

  /** One SSL call: the descriptor its SSL object shows, its direction, its nested system
      calls, the bytes it returned, and whether the tests before the report pass. */
  datatype SslUse = SslUse(shown: int, dir: Dir, cs: seq<Syscall>, count: int, reportable: bool)

  function After(conns: map<Fd, Conn>, traced: set<Fd>, u: SslUse): (Nested, map<Fd, Conn>) {
    AfterCalls(Entered(u.shown), conns, traced, u.cs)
  }

  predicate WorksFor(u: SslUse, fd: Fd, d: Dir) {
    u.dir == d && WorksOn(Entered(u.shown), u.cs) == fd
  }

  /** The call returns data on the connection and direction. */
  predicate Returns(u: SslUse, conns: map<Fd, Conn>, fd: Fd, d: Dir) {
    WorksFor(u, fd, d) && fd in conns && u.count > 0
  }

  /** The event of one SSL call, if it is reported for the connection and direction;
      `ssl` is its SSL byte counter. */
  function OneEvent(a: (Nested, map<Fd, Conn>), ssl: nat, u: SslUse, fd: Fd, d: Dir): seq<SslEvent> {
    if Returns(u, a.1, fd, d) && u.reportable then
      var range := RangeOf(a.0.syscallLen, a.1[fd].Bytes(d));
      [SslEvent(Wrap32(ssl + 1), u.count, range.start, range.len)]
    else []
  }

  function SslCount(a: (Nested, map<Fd, Conn>), u: SslUse, fd: Fd, d: Dir): nat {
    if Returns(u, a.1, fd, d) then u.count else 0
  }

  /** The SSL events of one connection and direction over a run of SSL calls, of any
      connections and directions. */
  function Events(conns: map<Fd, Conn>, traced: set<Fd>, ssl: nat, us: seq<SslUse>, fd: Fd, d: Dir): seq<SslEvent>
    decreases us
  {
    if us == [] then []
    else
      var a := After(conns, traced, us[0]);
      OneEvent(a, ssl, us[0], fd, d) + Events(a.1, traced, ssl + SslCount(a, us[0], fd, d), us[1..], fd, d)
  }

  /** The bytes a run moves on a connection's direction, and the SSL bytes it returns. */
  function Moved(us: seq<SslUse>, fd: Fd, d: Dir): nat {
    if us == [] then 0 else BytesOn(us[0].cs, fd, d) + Moved(us[1..], fd, d)
  }

  function Returned(us: seq<SslUse>): nat {
    if us == [] then 0 else (if us[0].count > 0 then us[0].count else 0) + Returned(us[1..])
  }

  /** The calls that work for the connection and direction move bytes nowhere else. */
  ghost predicate WellNested(us: seq<SslUse>, fd: Fd, d: Dir) {
    forall i :: 0 <= i < |us| ==> BytesAll(us[i].cs) < TWO_31 && (WorksFor(us[i], fd, d) ==> AllOn(us[i].cs, fd, d))
  }

  /** Events in order whose positions start at `pos` and whose kernel ranges lie in
      [lo, hi]. */
  ghost predicate InOrder(es: seq<SslEvent>, pos: nat, lo: nat, hi: nat) {
    && Sorted(es) && KernOrdered(es)
    && forall i :: 0 <= i < |es| ==> pos <= es[i].pos && lo <= es[i].kernPos && es[i].kernPos + es[i].kernLen <= hi
  }

  lemma InOrderCons(e: SslEvent, es: seq<SslEvent>, pos: nat, lo: nat, mid: nat, hi: nat)
    requires InOrder(es, e.pos + 1, mid, hi) && pos <= e.pos && lo <= e.kernPos && e.kernPos + e.kernLen <= mid <= hi
    requires lo <= mid
    ensures InOrder([e] + es, pos, lo, hi)
  {
    var m := [e] + es;
    KernOrderedCons(e, es);
    forall i, j | 0 <= i < j < |m| ensures m[i].pos < m[j].pos {
      assert m[j] == es[j - 1];
    }
  }

  lemma InOrderWider(es: seq<SslEvent>, pos: nat, pos': nat, lo: nat, lo': nat, hi: nat)
    requires InOrder(es, pos', lo', hi) && pos <= pos' && lo <= lo'
    ensures InOrder(es, pos, lo, hi)
  {
  }

  /** The counter after one call, with no wrap. */
  lemma CounterAfter(conns: map<Fd, Conn>, traced: set<Fd>, u: SslUse, fd: Fd, d: Dir)
    requires fd in conns || fd in traced
    requires Counter(conns, fd, d) + BytesOn(u.cs, fd, d) < TWO_32
    ensures var a := After(conns, traced, u);
      && Counter(a.1, fd, d) == Counter(conns, fd, d) + BytesOn(u.cs, fd, d)
      && (fd in a.1 || fd in traced)
  {
    AfterCallsCount(Entered(u.shown), conns, traced, u.cs, fd, d);
    StaysKnown(Entered(u.shown), conns, traced, u.cs, fd);
  }

  /** One call's event: its range goes from the counter before to the counter after. */
  lemma EventIs(conns: map<Fd, Conn>, traced: set<Fd>, ssl: nat, u: SslUse, fd: Fd, d: Dir)
    requires BytesAll(u.cs) < TWO_31 && (WorksFor(u, fd, d) ==> AllOn(u.cs, fd, d))
    requires Counter(conns, fd, d) + 1 + BytesOn(u.cs, fd, d) < TWO_32 && ssl + 1 < TWO_32
    ensures var a := After(conns, traced, u);
      OneEvent(a, ssl, u, fd, d) ==
        if Returns(u, a.1, fd, d) && u.reportable
        then [SslEvent(ssl + 1, u.count, Counter(conns, fd, d) + 1, BytesOn(u.cs, fd, d))] else []
  {
    if Returns(u, After(conns, traced, u).1, fd, d) { NestingExact(u.shown, conns, traced, u.cs, fd, d); }
  }

  lemma {:induction false} StaysKnown(n: Nested, conns: map<Fd, Conn>, traced: set<Fd>, cs: seq<Syscall>, fd: Fd)
    requires fd in conns || fd in traced
    ensures fd in AfterCalls(n, conns, traced, cs).1 || fd in traced
    decreases cs
  {
    if cs != [] && fd in conns {
      StaysKnown(Propagated(n, cs[0]), CountedCall(conns, traced, cs[0]), traced, cs[1..], fd);
    }
  }

  /** Successive SSL calls on one connection yield events in order: positions increase,
      and each kernel range ends where or before the next one starts. */
  lemma {:induction false} EventsInOrder(conns: map<Fd, Conn>, traced: set<Fd>, ssl: nat, us: seq<SslUse>, fd: Fd, d: Dir)
    requires (fd in conns || fd in traced) && WellNested(us, fd, d)
    requires Counter(conns, fd, d) + 1 + Moved(us, fd, d) < TWO_32 && ssl + 1 + Returned(us) < TWO_32
    ensures var lo := Counter(conns, fd, d) + 1;
      InOrder(Events(conns, traced, ssl, us, fd, d), ssl + 1, lo, lo + Moved(us, fd, d))
    decreases us
  {
    if us != [] {
      var u, a, lo := us[0], After(conns, traced, us[0]), Counter(conns, fd, d) + 1;
      var n := SslCount(a, u, fd, d);
      CounterAfter(conns, traced, u, fd, d);
      EventIs(conns, traced, ssl, u, fd, d);
      assert forall i :: 0 <= i < |us[1..]| ==> us[1..][i] == us[i + 1];
      EventsInOrder(a.1, traced, ssl + n, us[1..], fd, d);
      OneMoreInOrder(OneEvent(a, ssl, u, fd, d), Events(a.1, traced, ssl + n, us[1..], fd, d), ssl, n, u.count,
                     lo, BytesOn(u.cs, fd, d), lo + Moved(us, fd, d));
    }
  }

  lemma OneMoreInOrder(one: seq<SslEvent>, rest: seq<SslEvent>, ssl: nat, more: nat, count: int, lo: nat, n: nat, hi: nat)
    requires lo + n <= hi && InOrder(rest, ssl + more + 1, lo + n, hi)
    requires one == [] || (one == [SslEvent(ssl + 1, count, lo, n)] && more > 0)
    ensures InOrder(one + rest, ssl + 1, lo, hi)
  {
    if one == [] {
      assert [] + rest == rest;
    } else {
      InOrderWider(rest, ssl + 2, ssl + more + 1, lo + n, lo + n, hi);
      InOrderCons(one[0], rest, ssl + 1, lo, lo + n, hi);
    }
  }

  lemma {:induction false} WithinFrom(es: seq<SslEvent>, start: nat, end: nat, j: nat)
    requires j < |Within(es, start, end)|
    ensures exists i :: 0 <= i < |es| && es[i] == Within(es, start, end)[j]
  {
    var rest := Within(es[1..], start, end);
    if start <= es[0].pos < end {
      if j > 0 {
        assert Within(es, start, end)[j] == rest[j - 1];
        WithinFrom(es[1..], start, end, j - 1);
        var i :| 0 <= i < |es[1..]| && es[1..][i] == rest[j - 1];
        assert es[i + 1] == rest[j - 1];
      } else {
        assert Within(es, start, end)[0] == es[0];
      }
    } else {
      assert Within(es, start, end) == rest;
      WithinFrom(es[1..], start, end, j);
      var i :| 0 <= i < |es[1..]| && es[1..][i] == rest[j];
      assert es[i + 1] == rest[j];
    }
  }

  lemma KernOrderedCons(e: SslEvent, es: seq<SslEvent>)
    requires KernOrdered(es)
    requires forall j :: 0 <= j < |es| && Located(e) && Located(es[j]) ==> e.kernPos + e.kernLen <= es[j].kernPos
    ensures KernOrdered([e] + es)
  {
    var m := [e] + es;
    forall i, j | 0 <= i < j < |m| && Located(m[i]) && Located(m[j]) ensures m[i].kernPos + m[i].kernLen <= m[j].kernPos {
      assert m[j] == es[j - 1];
      if i > 0 { assert m[i] == es[i - 1]; }
    }
  }

  lemma {:induction false} WithinOrdered(es: seq<SslEvent>, start: nat, end: nat)
    requires KernOrdered(es)
    ensures KernOrdered(Within(es, start, end))
  {
    if es != [] {
      var rest := Within(es[1..], start, end);
      WithinOrdered(es[1..], start, end);
      if start <= es[0].pos < end {
        forall j | 0 <= j < |rest| && Located(es[0]) && Located(rest[j]) ensures es[0].kernPos + es[0].kernLen <= rest[j].kernPos {
          WithinFrom(es[1..], start, end, j);
          var i :| 0 <= i < |es[1..]| && es[1..][i] == rest[j];
          assert es[i + 1] == rest[j];
        }
        KernOrderedCons(es[0], rest);
      } else {
        assert [] + rest == rest;
      }
    }
  }

  /** The kernel range of a message: over any run of well-nested SSL calls, from the first
      located event of the message to its last is the smallest range that contains the
      range of each of them. */
  lemma MessageHull(conns: map<Fd, Conn>, traced: set<Fd>, ssl: nat, us: seq<SslUse>, fd: Fd, d: Dir,
                    pos: nat, len: nat, f: int, l: int)
    requires (fd in conns || fd in traced) && WellNested(us, fd, d)
    requires Counter(conns, fd, d) + 1 + Moved(us, fd, d) < TWO_32 && ssl + 1 + Returned(us) < TWO_32
    requires var m := Within(Events(conns, traced, ssl, us, fd, d), pos, pos + len); IsFirst(m, f) && IsLast(m, l)
    ensures var m := Within(Events(conns, traced, ssl, us, fd, d), pos, pos + len);
      var lo, hi := m[f].kernPos, m[l].kernPos + m[l].kernLen;
      lo <= hi && Spans(m, lo, hi) && forall lo', hi' :: Spans(m, lo', hi') ==> lo' <= lo && hi <= hi'
  {
    var es := Events(conns, traced, ssl, us, fd, d);
    var m := Within(es, pos, pos + len);
    EventsInOrder(conns, traced, ssl, us, fd, d);
    WithinOrdered(es, pos, pos + len);
    KernHull(m, f, l, m[f].kernPos, m[l].kernPos + m[l].kernLen - m[f].kernPos);
  }
}
