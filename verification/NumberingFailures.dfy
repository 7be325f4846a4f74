/** Runs of the numbering machine that end with a connection numbered wrong. */
module NumberingFailures {
  import opened Words
  import opened Options
  import opened Numbering
  import opened NumberingSystem
  import opened NumberingTally
  import opened NumberingRuns

  lemma {:induction false} AfterConcat(y: Sys, ts: seq<Step>, us: seq<Step>)
    requires Possible(y, ts) && Possible(After(y, ts), us)
    ensures Possible(y, ts + us) && After(y, ts + us) == After(After(y, ts), us)
    decreases ts
  {
    if ts == [] {
      assert ts + us == us;
    } else {
      assert (ts + us)[1..] == ts[1..] + us;
      AfterConcat(Next(y, ts[0]), ts[1..], us);
    }
  }

  lemma OneStep(y: Sys, t: Step)
    requires Enabled(y, t)
    ensures Possible(y, [t]) && After(y, [t]) == Next(y, t)
  {
    assert [t][1..] == [];
    assert Possible(Next(y, t), []);
  }

  lemma TwoSteps(y: Sys, t: Step, u: Step)
    requires Enabled(y, t) && Enabled(Next(y, t), u)
    ensures Possible(y, [t, u]) && After(y, [t, u]) == Next(Next(y, t), u)
  {
    OneStep(y, t);
    OneStep(Next(y, t), u);
    AfterConcat(y, [t], [u]);
    assert [t] + [u] == [t, u];
  }

  /** An established socket on endpoints nothing was ever seen of, and its accept. */
  function Accepted(fd: Fd, s: Endpoint): seq<Step> {
    [NewSocket(fd, s), Open(fd, true)]
  }

  lemma AfterAccept(s: Endpoint)
    requires s.local != s.remote && s.established && s.Seq(Egress) != 0 && s.Seq(Ingress) != 0
    ensures Possible(START, Accepted(1, s))
    ensures var z := After(START, Accepted(1, s));
      && z.socks == map[1 := s] && z.maps.conns == map[1 := Conn(0, 0)] && z.origins == map[1 := Origin(s.sent, s.rcvd)]
      && z.maps.xmit == map[s.Entry(Egress) := Wrap32(s.Seq(Egress) - 1), s.Entry(Ingress) := Wrap32(s.Seq(Ingress) - 1)]
      && z.made == map[s.Entry(Egress) := Some(s.sent), s.Entry(Ingress) := Some(s.rcvd)]
  {
    TwoSteps(START, NewSocket(1, s), Open(1, true));
  }

  /** The connection closes and the kernel destroys its socket; only the entry of the
      sending direction goes. */
  lemma AfterDestroy(y: Sys, s: Endpoint)
    requires s.local != s.remote && y.socks == map[1 := s] && y.maps.conns == map[1 := Conn(0, 0)]
    ensures var ts := [Close(1), Destroy(s.local, s.remote)];
      && Possible(y, ts)
      && var z := After(y, ts);
         && z.socks == map[] && z.maps.conns == map[]
         && z.maps.xmit == y.maps.xmit - {s.Entry(Egress)} && z.made == y.made - {s.Entry(Egress)}
  {
    TwoSteps(y, Close(1), Destroy(s.local, s.remote));
  }

  /** A non-blocking connect on endpoints where only a reverse entry is left. */
  lemma AfterConnect(y: Sys, c: Endpoint)
    requires y.socks == map[] && y.maps.conns == map[]
    requires c.local != c.remote && !c.established && c.rcvd == 0 && c.Entry(Ingress) in y.made && c.Entry(Ingress) in y.maps.xmit
    ensures var ts := [NewSocket(2, c), Open(2, true)];
      && Possible(y, ts)
      && var z := After(y, ts);
         && Live(z, 2) && z.socks[2] == c
         && c.Entry(Ingress) in z.made && z.made[c.Entry(Ingress)] == None
         && c.Entry(Ingress) in z.maps.xmit && z.maps.xmit[c.Entry(Ingress)] == y.maps.xmit[c.Entry(Ingress)]
  {
    TwoSteps(y, NewSocket(2, c), Open(2, true));
  }

  /** A connection is accepted, closed and destroyed; then a socket connects between the
      same endpoints and takes its peer's SYN. The old connection's reverse entry is still
      there, so what the new one reads is numbered right exactly when the peer happens to
      choose the number that entry holds. */
  lemma SurvivorRun(s: Endpoint, c: Endpoint)
    requires s.local != s.remote && s.established && s.Seq(Egress) != 0 && s.Seq(Ingress) != 0
    requires c.local == s.local && c.remote == s.remote && !c.established && c.rcvd == 0
    ensures var ts := Accepted(1, s) + [Close(1), Destroy(s.local, s.remote)] + [NewSocket(2, c), Open(2, true)] + [SynAck(2)];
      && Possible(START, ts) && Live(After(START, ts), 2)
      && (Agrees(After(START, ts), 2, Ingress) <==> c.irs == Wrap32(s.Seq(Ingress) - 1))
  {
    var t1, t2, t3 := Accepted(1, s), [Close(1), Destroy(s.local, s.remote)], [NewSocket(2, c), Open(2, true)];
    AfterAccept(s);
    var y1 := After(START, t1);
    AfterDestroy(y1, s);
    var y2 := After(y1, t2);
    AfterConcat(START, t1, t2);
    AfterConnect(y2, c);
    AfterConcat(START, t1 + t2, t3);
    StartSane();
    RunSane(START, t1 + t2 + t3);
    var y3 := After(START, t1 + t2 + t3);
    OneStep(y3, SynAck(2));
    AfterConcat(START, t1 + t2 + t3, [SynAck(2)]);
    SynAckExact(y3, 2);
  }

  lemma StartSane()
    ensures Sane(START) && Right(START)
  {
  }

  /** A connection is accepted, user space drops its entries, and a segment of either
      direction enters a device. The entry it makes is right exactly when the segment
      starts at the first byte counted. */
  lemma RecreatedRun(s: Endpoint, d: Dir, off: nat)
    requires s.local != s.remote && s.established && s.Seq(Egress) != 0 && s.Seq(Ingress) != 0
    ensures var ts := Accepted(1, s) + [Cleanup(s.local, s.remote), DevIn(1, d, false, off)];
      && Possible(START, ts) && Live(After(START, ts), 1)
      && (Agrees(After(START, ts), 1, d) <==> Same32(off, s.Moved(d)))
  {
    var t1, t2 := Accepted(1, s), [Cleanup(s.local, s.remote), DevIn(1, d, false, off)];
    AfterAccept(s);
    var y1 := After(START, t1);
    TwoSteps(y1, t2[0], t2[1]);
    AfterConcat(START, t1, t2);
    StartSane();
    RunSane(START, t1);
    SaneStep(y1, t2[0]);
    var y2 := Next(y1, t2[0]);
    assert y2.maps.xmit == map[];
    assert Right(y2);
    DevInExact(y2, 1, d, false, off);
    SaneStep(y2, t2[1]);
    AgreesExact(Next(y2, t2[1]), 1, d);
  }
}
