/** Numbering agreement over whole runs: syscall positions and TCP relative sequence
    numbers name the same bytes, modulo 2^32 (section 3.4 of RFC 9293). */
module NumberingRuns {
  import opened Words
  import opened Options
  import opened Numbering
  import opened NumberingSystem
  import opened NumberingTally

  predicate Same32(a: int, b: int) {
    Wrap32(a) == Wrap32(b)
  }

  /** The entry of a stream, if any, is the number just before the first byte counted. */
  predicate RightEntry(s: Endpoint, o: Origin, d: Dir, xmit: map<Key, u32>) {
    s.Entry(d) in xmit ==> xmit[s.Entry(d)] == Base(s, o, d)
  }

  ghost predicate RightAt(y: Sys, f: Fd, d: Dir)
    requires Live(y, f) && f in y.origins
  {
    RightEntry(y.socks[f], y.origins[f], d, y.maps.xmit)
  }

  ghost predicate RightIfLive(y: Sys, f: Fd, d: Dir) {
    Live(y, f) ==> f in y.origins && RightAt(y, f, d)
  }

  ghost predicate Right(y: Sys) {
    forall f: Fd, d: Dir :: RightIfLive(y, f, d)
  }

  /** Numbering agreement for one direction of one live connection: entry + 1 + bytes
      counted is the kernel's next number. */
  ghost predicate Agrees(y: Sys, f: Fd, d: Dir)
    requires Live(y, f)
  {
    var s := y.socks[f];
    s.Entry(d) in y.maps.xmit && (s.established || d == Egress) ==>
      Wrap32(y.maps.xmit[s.Entry(d)] + 1 + y.maps.conns[f].Bytes(d)) == s.Seq(d)
  }

  lemma AgreesExact(y: Sys, f: Fd, d: Dir)
    requires Sane(y) && Live(y, f) && (y.socks[f].established || d == Egress)
    ensures f in y.origins && (Agrees(y, f, d) <==> RightAt(y, f, d))
  {
    assert TallyOk(y, f);
    var s, o := y.socks[f], y.origins[f];
    assert Tally(s, y.maps.conns[f], o, y.calls[f], d);
    if s.Entry(d) in y.maps.xmit {
      NextFrom(y.maps.xmit[s.Entry(d)], s.Init(d), s.Moved(d), o.Of(d), y.maps.conns[f].Bytes(d));
    }
  }

  lemma NextFrom(x: u32, init: int, moved: nat, from: nat, bytes: nat)
    requires from <= moved && bytes == (moved - from) % TWO_64
    ensures Wrap32(x + 1 + bytes) == Wrap32(init + 1 + moved) <==> x == Wrap32(init + from)
  {
    Wrap64Low(moved - from);
    var y: int := x;
    WrapCancel(bytes, moved - from, y + 1);
    WrapCancel(y, init + from, 1 + moved - from);
  }

  // ----- guards -----

  /** `connect` or `accept` leaves an entry as it finds it, because the kernel's counter
      reads zero. */
  ghost predicate Leaves(y: Sys, t: Step, d: Dir)
    requires Enabled(y, t)
  {
    t.Open? && t.traced && y.socks[t.fd].Seq(d) == 0 && y.socks[t.fd].Entry(d) in y.made
  }

  /** A live connection, not started by the step, whose entry the step writes. */
  ghost predicate Rewritten(y: Sys, t: Step, f: Fd, d: Dir)
    requires Enabled(y, t)
  {
    Live(y, f) && f in y.origins && !(Starts(y, t) && f == t.fd) && Written(y, t, y.socks[f].Entry(d)).Some?
  }

  /** Entries written, or left in place, were made from the byte where each connection
      that uses them starts counting. */
  ghost predicate Placed(y: Sys, t: Step)
    requires Enabled(y, t)
  {
    && (forall f, d :: Rewritten(y, t, f, d) ==> Same32(Written(y, t, y.socks[f].Entry(d)).value, y.origins[f].Of(d)))
    && (forall d :: Leaves(y, t, d) && y.made[y.socks[t.fd].Entry(d)].Some? ==>
          Same32(y.made[y.socks[t.fd].Entry(d)].value, y.socks[t.fd].Moved(d)))
  }

  /** A segment that is not of the connection's stream makes its entry. */
  ghost predicate Astray(y: Sys, t: Step, f: Fd, d: Dir) {
    t.Stray? && HeaderKey(t.header) !in y.maps.xmit && Live(y, f) && f in y.origins && y.socks[f].Entry(d) == HeaderKey(t.header)
  }

  /** No entry that is left in place survives from an earlier socket, and no segment of an
      earlier socket makes the entry of a live connection. */
  ghost predicate NoSurvivor(y: Sys, t: Step)
    requires Enabled(y, t)
  {
    && (forall d :: Leaves(y, t, d) ==> y.made[y.socks[t.fd].Entry(d)].Some?)
    && (forall f, d :: !Astray(y, t, f, d))
  }

  /** An entry that survives, or comes from elsewhere, happens to be the number needed. */
  ghost predicate Lucky(y: Sys, t: Step)
    requires Enabled(y, t)
  {
    && (forall d :: Leaves(y, t, d) && y.made[y.socks[t.fd].Entry(d)] == None ==> Fits(y.socks[t.fd], d, y.maps.xmit))
    && (forall f, d :: Astray(y, t, f, d) ==> FirstSeen(t.tcpSeq, t.syn) == Base(y.socks[f], y.origins[f], d))
  }

  predicate Fits(s: Endpoint, d: Dir, xmit: map<Key, u32>) {
    s.Entry(d) in xmit && xmit[s.Entry(d)] == Wrap32(s.Init(d) + s.Moved(d))
  }

  // ----- one step, exactly -----

  /** A direction whose entry the step writes. */
  lemma WrittenExact(y: Sys, t: Step, f: Fd, d: Dir)
    requires Sane(y) && Enabled(y, t) && f in y.socks && Live(Next(y, t), f)
    requires Written(y, t, y.socks[f].Entry(d)).Some?
    ensures f in Next(y, t).origins
    ensures RightAt(Next(y, t), f, d) <==>
      Same32(Written(y, t, y.socks[f].Entry(d)).value, Next(y, t).origins[f].Of(d))
  {
    TallyStep(y, t, f);
    SameEnds(y, t, f, d);
    SocketEntry(y, t, f, d);
    var z := Next(y, t);
    RightIfSame(z.socks[f], z.origins[f], d, z.maps.xmit, Written(y, t, y.socks[f].Entry(d)).value);
  }

  lemma RightIfSame(s: Endpoint, o: Origin, d: Dir, xmit: map<Key, u32>, w: nat)
    requires s.Entry(d) in xmit && xmit[s.Entry(d)] == Wrap32(s.Init(d) + w)
    ensures RightEntry(s, o, d, xmit) <==> Same32(w, o.Of(d))
  {
    WrapCancel(w, o.Of(d), s.Init(d));
  }

  lemma StaysLive(y: Sys, t: Step, f: Fd)
    requires Sane(y) && Enabled(y, t) && Live(Next(y, t), f) && !(Starts(y, t) && f == t.fd)
    ensures Live(y, f) && f in y.origins && f in Next(y, t).origins && Next(y, t).origins[f] == y.origins[f]
  {
    assert Live(y, f);
    assert TallyOk(y, f);
  }

  /** A direction whose entry the step does not write, of a connection it does not start. */
  lemma UnwrittenKeeps(y: Sys, t: Step, f: Fd, d: Dir)
    requires Sane(y) && Enabled(y, t) && Live(Next(y, t), f) && !(Starts(y, t) && f == t.fd)
    requires Live(y, f) && f in y.origins && RightAt(y, f, d) && Written(y, t, y.socks[f].Entry(d)) == None
    requires !Astray(y, t, f, d)
    ensures f in Next(y, t).origins && RightAt(Next(y, t), f, d)
  {
    StaysLive(y, t, f);
    SameEnds(y, t, f, d);
    SocketEntry(y, t, f, d);
  }

  lemma AstrayExact(y: Sys, t: Step, f: Fd, d: Dir)
    requires Enabled(y, t) && Astray(y, t, f, d)
    ensures Live(Next(y, t), f) && f in Next(y, t).origins
    ensures RightAt(Next(y, t), f, d) <==> FirstSeen(t.tcpSeq, t.syn) == Base(y.socks[f], y.origins[f], d)
  {
  }

  lemma StartedFrom(y: Sys, t: Step)
    requires Enabled(y, t) && Starts(y, t)
    ensures Live(Next(y, t), t.fd) && t.fd in Next(y, t).origins
    ensures forall d :: Next(y, t).origins[t.fd].Of(d) == y.socks[t.fd].Moved(d)
  {
  }

  lemma StartWrites(y: Sys, t: Step, d: Dir)
    requires SocksOk(y) && Enabled(y, t) && Starts(y, t)
    ensures var w := Written(y, t, y.socks[t.fd].Entry(d));
      if t.Open? && y.socks[t.fd].Seq(d) == 0 then w == None else w == Some(y.socks[t.fd].Moved(d))
  {
  }

  /** After `connect`, `accept` or a discovery, a segment between the two addresses, in
      either direction, finds under the key of its header the entry the connection's own
      probe wrote, unless the kernel's counter read zero. */
  lemma SegmentFindsEntry(y: Sys, t: Step, d: Dir)
    requires Sane(y) && Enabled(y, t) && Starts(y, t) && (t.Open? ==> y.socks[t.fd].Seq(d) != 0)
    ensures var s, xmit := y.socks[t.fd], Next(y, t).maps.xmit;
      var k := HeaderKey(if d == Egress then Header(s.local, s.remote) else Header(s.remote, s.local));
      k in xmit && xmit[k] == Wrap32(s.Init(d) + s.Moved(d))
  {
    StartWrites(y, t, d);
    SocketEntry(y, t, t.fd, d);
  }

  /** The connection a step starts: what it writes is right; what it leaves in place is
      right exactly when it was made from the next byte, or survives by luck. */
  lemma StartExact(y: Sys, t: Step, d: Dir)
    requires Sane(y) && Enabled(y, t) && Starts(y, t)
    ensures Live(Next(y, t), t.fd) && t.fd in Next(y, t).origins
    ensures RightAt(Next(y, t), t.fd, d) <==>
      (Leaves(y, t, d) ==>
         match y.made[y.socks[t.fd].Entry(d)]
         case Some(o) => Same32(o, y.socks[t.fd].Moved(d))
         case None => Fits(y.socks[t.fd], d, y.maps.xmit))
  {
    var s := y.socks[t.fd];
    StartedFrom(y, t);
    StartWrites(y, t, d);
    if Written(y, t, s.Entry(d)).Some? {
      WrittenExact(y, t, t.fd, d);
    } else {
      LeftInPlace(y, t, d);
      if Leaves(y, t, d) && y.made[s.Entry(d)].Some? { LeftExact(y, t, d); }
    }
  }

  lemma LeftInPlace(y: Sys, t: Step, d: Dir)
    requires Sane(y) && Enabled(y, t) && Starts(y, t) && Written(y, t, y.socks[t.fd].Entry(d)) == None
    ensures Live(Next(y, t), t.fd) && t.fd in Next(y, t).origins
    ensures RightAt(Next(y, t), t.fd, d) <==> (y.socks[t.fd].Entry(d) in y.made ==> Fits(y.socks[t.fd], d, y.maps.xmit))
  {
    StartedFrom(y, t);
    StartWrites(y, t, d);
    assert t.Open? && y.socks[t.fd].Seq(d) == 0;
    SameEnds(y, t, t.fd, d);
    SocketEntry(y, t, t.fd, d);
    if y.socks[t.fd].Entry(d) in y.made { StillThere(y, t.fd, y.socks[t.fd].Entry(d)); }
  }

  lemma StillThere(y: Sys, fd: Fd, k: Key)
    requires Enabled(y, Open(fd, true)) && y.made.Keys == y.maps.xmit.Keys && k in y.made
    ensures k in NextMaps(y, Open(fd, true)).xmit
  {
  }

  lemma LeftExact(y: Sys, t: Step, d: Dir)
    requires Sane(y) && Enabled(y, t) && Leaves(y, t, d) && y.made[y.socks[t.fd].Entry(d)].Some?
    ensures Same32(y.made[y.socks[t.fd].Entry(d)].value, y.socks[t.fd].Moved(d)) <==> Fits(y.socks[t.fd], d, y.maps.xmit)
  {
    var s := y.socks[t.fd];
    assert MadeFrom(s, d, y.maps.xmit, y.made);
    WrapCancel(y.made[s.Entry(d)].value, s.Moved(d), s.Init(d));
  }

  /** One direction of one live connection after a step. */
  ghost predicate PlacedFor(y: Sys, t: Step, f: Fd, d: Dir)
    requires Enabled(y, t)
  {
    if Starts(y, t) && f == t.fd then
      Leaves(y, t, d) ==>
        match y.made[y.socks[f].Entry(d)]
        case Some(o) => Same32(o, y.socks[f].Moved(d))
        case None => Fits(y.socks[f], d, y.maps.xmit)
    else
      && (Rewritten(y, t, f, d) ==> Same32(Written(y, t, y.socks[f].Entry(d)).value, y.origins[f].Of(d)))
      && (Astray(y, t, f, d) ==> FirstSeen(t.tcpSeq, t.syn) == Base(y.socks[f], y.origins[f], d))
  }

  lemma DirectionExact(y: Sys, t: Step, f: Fd, d: Dir)
    requires Sane(y) && Right(y) && Enabled(y, t) && Live(Next(y, t), f)
    ensures f in Next(y, t).origins && (RightAt(Next(y, t), f, d) <==> PlacedFor(y, t, f, d))
  {
    if Starts(y, t) && f == t.fd {
      StartExact(y, t, d);
    } else {
      StaysLive(y, t, f);
      if Written(y, t, y.socks[f].Entry(d)).Some? {
        WrittenExact(y, t, f, d);
      } else if Astray(y, t, f, d) {
        AstrayExact(y, t, f, d);
      } else {
        assert RightIfLive(y, f, d);
        UnwrittenKeeps(y, t, f, d);
      }
    }
  }

  lemma RewrittenStaysLive(y: Sys, t: Step, f: Fd, d: Dir)
    requires Enabled(y, t) && Rewritten(y, t, f, d)
    ensures Live(Next(y, t), f)
  {
  }

  ghost predicate AllPlaced(y: Sys, t: Step)
    requires Enabled(y, t)
  {
    forall f: Fd, d: Dir :: PlacedFor(y, t, f, d)
  }

  lemma AllPlacedIs(y: Sys, t: Step)
    requires Enabled(y, t)
    ensures AllPlaced(y, t) <==> Placed(y, t) && Lucky(y, t)
  {
    if AllPlaced(y, t) {
      forall f, d | Rewritten(y, t, f, d)
        ensures Same32(Written(y, t, y.socks[f].Entry(d)).value, y.origins[f].Of(d))
      {
        assert PlacedFor(y, t, f, d);
      }
      forall f, d | Astray(y, t, f, d) ensures FirstSeen(t.tcpSeq, t.syn) == Base(y.socks[f], y.origins[f], d) {
        assert PlacedFor(y, t, f, d);
      }
      forall d | Leaves(y, t, d)
        ensures match y.made[y.socks[t.fd].Entry(d)]
                case Some(o) => Same32(o, y.socks[t.fd].Moved(d))
                case None => Fits(y.socks[t.fd], d, y.maps.xmit)
      {
        assert PlacedFor(y, t, t.fd, d);
      }
    }
  }

  lemma PlacedIfRight(y: Sys, t: Step, f: Fd, d: Dir)
    requires Sane(y) && Right(y) && Enabled(y, t) && Right(Next(y, t))
    ensures PlacedFor(y, t, f, d)
  {
    if Starts(y, t) && f == t.fd {
      StartedFrom(y, t);
      assert RightIfLive(Next(y, t), f, d);
      DirectionExact(y, t, f, d);
    } else if Rewritten(y, t, f, d) {
      RewrittenStaysLive(y, t, f, d);
      assert RightIfLive(Next(y, t), f, d);
      DirectionExact(y, t, f, d);
    } else if Astray(y, t, f, d) {
      AstrayExact(y, t, f, d);
      assert RightIfLive(Next(y, t), f, d);
    }
  }

  lemma RightIfPlaced(y: Sys, t: Step)
    requires Sane(y) && Right(y) && Enabled(y, t) && AllPlaced(y, t)
    ensures Right(Next(y, t))
  {
    forall f: Fd, d: Dir ensures RightIfLive(Next(y, t), f, d) {
      assert PlacedFor(y, t, f, d);
      if Live(Next(y, t), f) { DirectionExact(y, t, f, d); }
    }
  }

  /** Exactly when a step keeps every live connection numbered right: what it writes or
      leaves in place was made from the right byte, or survives by luck. */
  lemma StepExact(y: Sys, t: Step)
    requires Sane(y) && Right(y) && Enabled(y, t)
    ensures Right(Next(y, t)) <==> Placed(y, t) && Lucky(y, t)
  {
    AllPlacedIs(y, t);
    if AllPlaced(y, t) { RightIfPlaced(y, t); }
    if Right(Next(y, t)) {
      forall f: Fd, d: Dir ensures PlacedFor(y, t, f, d) { PlacedIfRight(y, t, f, d); }
    }
  }

  /** A segment that creates the entry of a live connection numbers it right exactly
      when it starts at the first byte counted, or is the SYN of a stream counted from
      its beginning. */
  lemma DevInExact(y: Sys, fd: Fd, d: Dir, syn: bool, off: nat)
    requires Sane(y) && Right(y) && Live(y, fd)
    ensures var z := Next(y, DevIn(fd, d, syn, off));
      && Live(z, fd) && fd in y.origins && fd in z.origins
      && (RightAt(z, fd, d) <==>
            y.socks[fd].Entry(d) in y.maps.xmit || Same32(if syn then 0 else off, y.origins[fd].Of(d)))
  {
    DirectionExact(y, DevIn(fd, d, syn, off), fd, d);
  }

  /** When a connecting socket takes the peer's SYN, what it reads is numbered right
      exactly when no entry survives under its reversed key, unless by luck that entry is
      the peer's initial number, and none was made from later data. */
  lemma SynAckExact(y: Sys, fd: Fd)
    requires Sane(y) && Live(y, fd) && !y.socks[fd].established
    ensures var z, k := Next(y, SynAck(fd)), y.socks[fd].Entry(Ingress);
      && Live(z, fd)
      && (Agrees(z, fd, Ingress) <==>
            (k in y.made ==>
               match y.made[k]
               case Some(o) => Same32(o, 0)
               case None => y.maps.xmit[k] == y.socks[fd].irs))
  {
    var z, s := Next(y, SynAck(fd)), y.socks[fd];
    var k := s.Entry(Ingress);
    SaneStep(y, SynAck(fd));
    AgreesExact(z, fd, Ingress);
    assert TallyOk(z, fd) && Tally(z.socks[fd], z.maps.conns[fd], z.origins[fd], z.calls[fd], Ingress);
    if k in y.made && y.made[k].Some? {
      assert MadeFrom(s, Ingress, y.maps.xmit, y.made);
      RightIfSame(z.socks[fd], z.origins[fd], Ingress, z.maps.xmit, y.made[k].value);
    }
  }

  /** Both ends of one connection on one host share both entries. When the second end is
      opened or discovered, the first stays numbered right exactly when the entries
      rewritten take the same byte for the first. */
  lemma SharedEntries(y: Sys, t: Step, f: Fd, d: Dir)
    requires Sane(y) && Right(y) && Enabled(y, t) && Starts(y, t)
    requires Live(y, f) && f != t.fd && Peers(y.socks[f], y.socks[t.fd])
    ensures Live(Next(y, t), f) && f in y.origins && f in Next(y, t).origins
    ensures RightAt(Next(y, t), f, d) <==>
      ((t.Open? && y.socks[t.fd].Seq(Other(d)) == 0) || Same32(y.socks[t.fd].Moved(Other(d)), y.origins[f].Of(d)))
  {
    assert y.socks[f].Entry(d) == y.socks[t.fd].Entry(Other(d));
    assert RightIfLive(y, f, d);
    StartWrites(y, t, Other(d));
    DirectionExact(y, t, f, d);
  }

  // ----- runs -----

  /** The guards, step by step: what is written or left in place was made from the right
      byte, and nothing that is left in place survives from an earlier socket. */
  ghost predicate Guarded(y: Sys, ts: seq<Step>)
    requires Possible(y, ts)
    decreases ts
  {
    ts != [] ==> Placed(y, ts[0]) && NoSurvivor(y, ts[0]) && Guarded(Next(y, ts[0]), ts[1..])
  }

  /** Counters and names are right in every run, guarded or not. */
  lemma {:induction false} RunSane(y: Sys, ts: seq<Step>)
    requires Sane(y) && Possible(y, ts)
    ensures Sane(After(y, ts))
    decreases ts
  {
    if ts != [] {
      SaneStep(y, ts[0]);
      RunSane(Next(y, ts[0]), ts[1..]);
    }
  }

  ghost predicate AlwaysRight(y: Sys, ts: seq<Step>)
    requires Possible(y, ts)
    decreases ts
  {
    Right(y) && (ts != [] ==> AlwaysRight(Next(y, ts[0]), ts[1..]))
  }

  ghost predicate AlwaysPlaced(y: Sys, ts: seq<Step>)
    requires Possible(y, ts)
    decreases ts
  {
    ts != [] ==> Placed(y, ts[0]) && Lucky(y, ts[0]) && AlwaysPlaced(Next(y, ts[0]), ts[1..])
  }

  /** Exactly the runs in which no connection is ever numbered wrong. */
  lemma {:induction false} RunExact(y: Sys, ts: seq<Step>)
    requires Sane(y) && Right(y) && Possible(y, ts)
    ensures AlwaysRight(y, ts) <==> AlwaysPlaced(y, ts)
    decreases ts
  {
    if ts != [] {
      SaneStep(y, ts[0]);
      StepExact(y, ts[0]);
      if Right(Next(y, ts[0])) { RunExact(Next(y, ts[0]), ts[1..]); }
    }
  }

  lemma {:induction false} RunRight(y: Sys, ts: seq<Step>)
    requires Sane(y) && Right(y) && Possible(y, ts) && Guarded(y, ts)
    ensures Right(After(y, ts))
    decreases ts
  {
    if ts != [] {
      SaneStep(y, ts[0]);
      StepExact(y, ts[0]);
      RunRight(Next(y, ts[0]), ts[1..]);
    }
  }

  /** Numbering agreement: in every guarded run, whenever a live connection has an entry
      for a direction, entry + 1 + bytes counted is the kernel's next number modulo 2^32. */
  lemma NumberingAgreement(ts: seq<Step>, fd: Fd, d: Dir)
    requires Possible(START, ts) && Guarded(START, ts)
    requires Live(After(START, ts), fd)
    ensures Agrees(After(START, ts), fd, d)
  {
    RunSane(START, ts);
    RunRight(START, ts);
    RightAgrees(After(START, ts), fd, d);
  }

  lemma RightAgrees(y: Sys, f: Fd, d: Dir)
    requires Sane(y) && Right(y) && Live(y, f)
    ensures Agrees(y, f, d)
  {
    assert RightIfLive(y, f, d);
    if y.socks[f].established || d == Egress { AgreesExact(y, f, d); }
  }

  /** The same byte, the same number: byte `i` of any call counted on a live connection
      travels as TCP number tcp + i, in the first transmission or any later one, and a
      segment starting there is reported under the number the call gave that byte. */
  lemma SameByteSameNumber(ts: seq<Step>, fd: Fd, j: nat, i: nat)
    requires Possible(START, ts) && Guarded(START, ts)
    requires Carries(After(START, ts), fd, j, i)
    ensures NamedAlike(After(START, ts), fd, j, i)
  {
    RunSane(START, ts);
    RunRight(START, ts);
    CallNumbered(After(START, ts), fd, j, i);
  }

  /** Byte `i` of call `j` of a live connection, whose segments find an entry. */
  ghost predicate Carries(y: Sys, fd: Fd, j: nat, i: nat) {
    && Live(y, fd) && fd in y.calls && j < |y.calls[fd]| && i < y.calls[fd][j].len
    && HeaderKey(y.socks[fd].Segment(y.calls[fd][j].dir)) in y.maps.xmit
  }

  /** A segment that starts with that byte, between the connection's addresses, gets the
      number the call gave the byte. */
  ghost predicate NamedAlike(y: Sys, fd: Fd, j: nat, i: nat)
    requires Carries(y, fd, j, i)
  {
    var call := y.calls[fd][j];
    RelativeSeq(Wrap32(call.tcp + i), y.maps.xmit[HeaderKey(y.socks[fd].Segment(call.dir))]) == Wrap32(call.named + i)
  }

  lemma CallNumbered(y: Sys, fd: Fd, j: nat, i: nat)
    requires Sane(y) && Right(y) && Carries(y, fd, j, i)
    ensures NamedAlike(y, fd, j, i)
  {
    var call := y.calls[fd][j];
    assert TallyOk(y, fd) && RightIfLive(y, fd, call.dir);
    assert Tally(y.socks[fd], y.maps.conns[fd], y.origins[fd], y.calls[fd], call.dir);
    SameOffset(call.tcp, call.named, i, y.maps.xmit[y.socks[fd].Entry(call.dir)]);
  }

  lemma SameOffset(tcp: u32, named: u32, i: nat, base: u32)
    requires Wrap32(tcp - named) == base
    ensures RelativeSeq(Wrap32(tcp + i), base) == Wrap32(named + i)
  {
    WrapAdd(tcp + i, 0 - base);
    WrapSub(tcp + i, tcp - named);
  }
}
