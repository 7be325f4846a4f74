/** What every run of the numbering machine keeps, whatever happens to the entries:
    counters, names of calls, and what each entry was made from. */
module NumberingTally {
  import opened Words
  import opened Options
  import opened Numbering
  import opened NumberingSystem

  // ----- what every run keeps, whatever happens to the entries -----

  ghost predicate SocksOk(y: Sys) {
    && (forall f :: f in y.socks ==> y.socks[f].local != y.socks[f].remote)
    && (forall f :: f in y.socks && !y.socks[f].established ==> y.socks[f].rcvd == 0)
    && (forall f, g :: f in y.socks && g in y.socks && f != g ==> Compatible(y.socks[f], y.socks[g]))
    && (forall f :: f in y.maps.conns ==> f in y.socks)
  }

  /** An entry made for a stream's byte holds the number just before that byte. */
  predicate MadeFrom(s: Endpoint, d: Dir, xmit: map<Key, u32>, made: map<Key, Option<nat>>) {
    var k := s.Entry(d);
    k in made && made[k].Some? ==> k in xmit && xmit[k] == Wrap32(s.Init(d) + made[k].value)
  }

  ghost predicate MadeOk(y: Sys) {
    && y.made.Keys == y.maps.xmit.Keys
    && forall f, d :: f in y.socks ==> MadeFrom(y.socks[f], d, y.maps.xmit, y.made)
  }

  /** The TCP number just before the first byte counted. */
  function Base(s: Endpoint, o: Origin, d: Dir): u32 {
    Wrap32(s.Init(d) + o.Of(d))
  }

  /** Every call of a direction was named from the base. */
  ghost predicate AllNamed(calls: seq<Call>, d: Dir, base: u32) {
    forall i :: 0 <= i < |calls| && calls[i].dir == d ==> Wrap32(calls[i].tcp - calls[i].named) == base
  }

  /** The counter holds what moved since the origin, and every call was named from it. */
  ghost predicate Tally(s: Endpoint, c: Conn, o: Origin, calls: seq<Call>, d: Dir) {
    && o.Of(d) <= s.Moved(d)
    && c.Bytes(d) == (s.Moved(d) - o.Of(d)) % TWO_64
    && AllNamed(calls, d, Base(s, o, d))
  }

  ghost predicate TallyOk(y: Sys, f: Fd)
    requires Live(y, f)
  {
    f in y.origins && f in y.calls && forall d :: Tally(y.socks[f], y.maps.conns[f], y.origins[f], y.calls[f], d)
  }

  ghost predicate Sane(y: Sys) {
    SocksOk(y) && MadeOk(y) && forall f :: Live(y, f) ==> TallyOk(y, f)
  }

  lemma SocksKeep(y: Sys, t: Step)
    requires SocksOk(y) && Enabled(y, t)
    ensures SocksOk(Next(y, t))
  {
    var z := Next(y, t);
    forall f, g | f in z.socks && g in z.socks && f != g ensures Compatible(z.socks[f], z.socks[g]) {
      if t.NewSocket? {
        if f == t.fd { assert Compatible(t.sock, y.socks[g]); }
        if g == t.fd {
          assert Compatible(t.sock, y.socks[f]);
        }
      }
    }
  }

  /** Two sockets that use one entry are the two ends of one connection. */
  lemma SameStream(y: Sys, f: Fd, d: Dir, g: Fd, e: Dir)
    requires SocksOk(y) && f in y.socks && g in y.socks && y.socks[f].Entry(d) == y.socks[g].Entry(e)
    ensures y.socks[f].Init(d) == y.socks[g].Init(e)
  {
    var a, b := y.socks[f], y.socks[g];
    if f != g {
      assert Compatible(a, b);
    }
  }

  // ----- arithmetic modulo 2^32 -----

  lemma DiscountsCall(s: Endpoint, d: Dir, n: nat)
    requires s.established
    ensures Wrap32(s.Advance(d, n).Seq(d) - n - 1) == Wrap32(s.Init(d) + s.Moved(d))
  {
    WrapAdd(s.Init(d) + 1 + s.Moved(d) + n, 0 - n - 1);
  }

  /** One below the kernel's next number is the number just before the next byte. */
  lemma OneBelow(s: Endpoint, d: Dir)
    requires s.established || d == Egress
    ensures Wrap32(s.Seq(d) - 1) == Wrap32(s.Init(d) + s.Moved(d))
  {
    WrapAdd(s.Init(d) + 1 + s.Moved(d), -1);
  }

  lemma FirstSeenByte(s: Endpoint, d: Dir, syn: bool, off: nat)
    ensures FirstSeen(SegmentSeq(s, d, syn, off), syn) == Wrap32(s.Init(d) + if syn then 0 else off)
  {
    WrapAdd(s.Init(d) + 1 + off, -1);
  }

  // ----- the entries after a step -----

  /** The entry under `k` before and after a step that writes it from byte `w` of the
      stream with initial number `init`, or does not write it. */
  ghost predicate EntryMoves(x: map<Key, u32>, made: map<Key, Option<nat>>, x': map<Key, u32>, made': map<Key, Option<nat>>,
                             k: Key, w: Option<nat>, init: u32)
  {
    && (k in made' <==> k in x')
    && (w.Some? ==> k in made' && made'[k] == w && x'[k] == Wrap32(init + w.value))
    && (w == None && k in made' && k in made && k in x ==> x'[k] == x[k] && (made'[k] == made[k] || made'[k] == None))
    && (w == None && k in made' ==> k in made || made'[k] == None)
  }

  lemma OpenEntry(m: Maps, made: map<Key, Option<nat>>, fd: Fd, s: Endpoint, k: Key)
    requires s.local != s.remote && (k in made <==> k in m.xmit)
    ensures var w := if Uses(s, k) && s.Seq(Side(s, k)) != 0 then Some(s.Moved(Side(s, k))) else None;
      EntryMoves(m.xmit, made, Opened(m, fd, s.Read()).xmit, MadeByOpen(made, s), k, w, s.Init(Side(s, k)))
  {
    if Uses(s, k) && s.Seq(Side(s, k)) != 0 { OneBelow(s, Side(s, k)); }
  }

  lemma DiscoveryWrites(m: Maps, fd: Fd, s: Endpoint, d: Dir, n: nat, e: Dir)
    requires s.local != s.remote && s.established
    ensures var x := Discovered(m, fd, s.Advance(d, n).Read(), d, n).xmit;
      s.Entry(e) in x && x[s.Entry(e)] == Wrap32(s.Init(e) + s.Moved(e))
  {
    if d == e { DiscountsCall(s, d, n); } else { OneBelow(s, e); }
  }

  lemma DiscoveryEntry(m: Maps, made: map<Key, Option<nat>>, fd: Fd, s: Endpoint, d: Dir, n: nat, k: Key)
    requires s.local != s.remote && s.established && (k in made <==> k in m.xmit)
    ensures var w := if Uses(s, k) then Some(s.Moved(Side(s, k))) else None;
      EntryMoves(m.xmit, made, Discovered(m, fd, s.Advance(d, n).Read(), d, n).xmit, MadeByDiscovery(made, s), k, w, s.Init(Side(s, k)))
  {
    if Uses(s, k) { DiscoveryWrites(m, fd, s, d, n, Side(s, k)); }
  }

  lemma DevInEntry(xmit: map<Key, u32>, s: Endpoint, d: Dir, syn: bool, off: nat)
    requires s.Entry(d) !in xmit
    ensures var x := Noted(xmit, s.Entry(d), SegmentSeq(s, d, syn, off), syn);
      s.Entry(d) in x && x[s.Entry(d)] == Wrap32(s.Init(d) + if syn then 0 else off)
  {
    FirstSeenByte(s, d, syn, off);
  }

  /** The initial number of the stream an entry written by the step is for. */
  ghost function InitOf(y: Sys, t: Step, k: Key): u32
    requires Enabled(y, t)
  {
    if t.Open? || t.Data? || t.DevIn? then y.socks[t.fd].Init(Side(y.socks[t.fd], k)) else 0
  }

  lemma QuietEntry(y: Sys, t: Step, k: Key)
    requires y.made.Keys == y.maps.xmit.Keys && Enabled(y, t) && !Starts(y, t) && !t.DevIn?
    ensures EntryMoves(y.maps.xmit, y.made, NextMaps(y, t).xmit, NextMade(y, t), k, None, 0)
    ensures Written(y, t, k) == None
  {
  }

  lemma SegmentEntry(xmit: map<Key, u32>, made: map<Key, Option<nat>>, s: Endpoint, d: Dir, syn: bool, off: nat, k: Key)
    requires s.local != s.remote && made.Keys == xmit.Keys
    ensures var e, b := s.Entry(d), if syn then 0 else off;
      EntryMoves(xmit, made, Noted(xmit, e, SegmentSeq(s, d, syn, off), syn), if e in xmit then made else made[e := Some(b)],
                 k, if k == e && k !in xmit then Some(b) else None, s.Init(Side(s, k)))
  {
    if s.Entry(d) !in xmit { DevInEntry(xmit, s, d, syn, off); }
  }

  lemma EntryStep(y: Sys, t: Step, k: Key)
    requires SocksOk(y) && y.made.Keys == y.maps.xmit.Keys && Enabled(y, t)
    ensures EntryMoves(y.maps.xmit, y.made, NextMaps(y, t).xmit, NextMade(y, t), k, Written(y, t, k), InitOf(y, t, k))
  {
    if t.DevIn? {
      SegmentEntry(y.maps.xmit, y.made, y.socks[t.fd], t.dir, t.syn, t.off, k);
    } else if t.Open? && t.traced {
      OpenEntry(y.maps, y.made, t.fd, y.socks[t.fd], k);
    } else if Discovers(y, t) {
      DiscoveryEntry(y.maps, y.made, t.fd, y.socks[t.fd], t.dir, t.n, k);
    } else {
      QuietEntry(y, t, k);
    }
  }

  lemma WriterUses(y: Sys, t: Step, k: Key)
    requires Enabled(y, t) && Written(y, t, k).Some?
    ensures t.Open? || t.Data? || t.DevIn?
    ensures y.socks[t.fd].Entry(Side(y.socks[t.fd], k)) == k
  {
  }

  lemma OnlyStrays(y: Sys, t: Step, k: Key, f: Fd, d: Dir)
    requires SocksOk(y) && y.made.Keys == y.maps.xmit.Keys && Enabled(y, t) && Written(y, t, k) == None
    requires f in y.socks && y.socks[f].Entry(d) == k && k in NextMade(y, t)
    ensures k in y.made || (t.Stray? && HeaderKey(t.header) == k)
  {
  }

  /** The entry of an open socket: written for its own stream, kept, removed, or made by a
      segment that is not of the stream. */
  lemma SocketEntry(y: Sys, t: Step, f: Fd, d: Dir)
    requires SocksOk(y) && y.made.Keys == y.maps.xmit.Keys && Enabled(y, t) && f in y.socks
    ensures var k := y.socks[f].Entry(d);
      && EntryMoves(y.maps.xmit, y.made, NextMaps(y, t).xmit, NextMade(y, t), k, Written(y, t, k), y.socks[f].Init(d))
      && (Written(y, t, k) == None && k in NextMade(y, t) ==> k in y.made || (t.Stray? && HeaderKey(t.header) == k))
  {
    var k := y.socks[f].Entry(d);
    EntryStep(y, t, k);
    if Written(y, t, k).Some? {
      WriterUses(y, t, k);
      SameStream(y, f, d, t.fd, Side(y.socks[t.fd], k));
    } else if k in NextMade(y, t) {
      OnlyStrays(y, t, k, f, d);
    }
  }

  // ----- what a step keeps -----

  /** A step changes neither the endpoints nor the initial numbers of a socket. */
  lemma SameEnds(y: Sys, t: Step, f: Fd, d: Dir)
    requires Enabled(y, t) && f in NextSocks(y, t) && f in y.socks
    ensures NextSocks(y, t)[f].Entry(d) == y.socks[f].Entry(d) && NextSocks(y, t)[f].Init(d) == y.socks[f].Init(d)
  {
  }

  /** A new socket takes over only the entries of its open peer. */
  lemma NewSocketMade(y: Sys, fd: Fd, s: Endpoint, d: Dir)
    requires SocksOk(y) && MadeOk(y) && Enabled(y, NewSocket(fd, s))
    ensures MadeFrom(s, d, y.maps.xmit, NextMade(y, NewSocket(fd, s)))
  {
    if g :| g in y.socks && Peers(s, y.socks[g]) {
      assert Compatible(s, y.socks[g]);
      assert y.socks[g].Entry(Other(d)) == s.Entry(d);
      assert MadeFrom(y.socks[g], Other(d), y.maps.xmit, y.made);
    }
  }

  lemma NewEndpoint(y: Sys, t: Step, f: Fd)
    requires Enabled(y, t) && f in NextSocks(y, t) && f !in y.socks
    ensures t.NewSocket? && t.fd == f && NextSocks(y, t)[f] == t.sock && NextMaps(y, t) == y.maps
  {
  }

  lemma MadeAt(y: Sys, t: Step, f: Fd, d: Dir)
    requires SocksOk(y) && MadeOk(y) && Enabled(y, t) && f in NextSocks(y, t)
    ensures MadeFrom(NextSocks(y, t)[f], d, NextMaps(y, t).xmit, NextMade(y, t))
  {
    if f in y.socks {
      SameEnds(y, t, f, d);
      SocketEntry(y, t, f, d);
      assert MadeFrom(y.socks[f], d, y.maps.xmit, y.made);
    } else {
      NewEndpoint(y, t, f);
      NewSocketMade(y, f, t.sock, d);
    }
  }

  lemma MadeKeys(y: Sys, t: Step)
    requires SocksOk(y) && MadeOk(y) && Enabled(y, t)
    ensures NextMade(y, t).Keys == NextMaps(y, t).xmit.Keys
  {
    forall k ensures k in NextMade(y, t) <==> k in NextMaps(y, t).xmit { EntryStep(y, t, k); }
  }

  lemma MadeStep(y: Sys, t: Step)
    requires SocksOk(y) && MadeOk(y) && Enabled(y, t)
    ensures MadeOk(Next(y, t))
  {
    var z := Next(y, t);
    MadeKeys(y, t);
    forall f, d | f in z.socks ensures MadeFrom(z.socks[f], d, z.maps.xmit, z.made) { MadeAt(y, t, f, d); }
  }

  /** The number just before the next byte, less the number the next call reports. */
  lemma CallNamed(s: Endpoint, c: Conn, o: Origin, calls: seq<Call>, d: Dir)
    requires Tally(s, c, o, calls, d) && (s.established || d == Egress)
    ensures Wrap32(s.Seq(d) - SyscallSeq(c, d)) == Base(s, o, d)
  {
    NamedFrom(s.Init(d), s.Moved(d), o.Of(d), c.Bytes(d));
  }

  lemma NamedFrom(init: int, moved: nat, from: nat, bytes: nat)
    requires from <= moved && bytes == (moved - from) % TWO_64
    ensures Wrap32(Wrap32(init + 1 + moved) - Wrap32(bytes + 1)) == Wrap32(init + from)
  {
    WrapAdd(init + 1 + moved, 0 - Wrap32(bytes + 1));
    WrapSub(init + 1 + moved, bytes + 1);
    SameLow(init + moved, bytes, moved - from);
  }

  lemma SameLow(a: int, bytes: int, x: int)
    requires bytes == x % TWO_64
    ensures Wrap32(a - bytes) == Wrap32(a - x)
  {
    Wrap64Low(x);
    WrapSub(a, bytes);
    WrapSub(a, x);
  }

  lemma OneMoreNamed(calls: seq<Call>, c: Call, d: Dir, base: u32)
    requires AllNamed(calls, d, base) && (c.dir == d ==> Wrap32(c.tcp - c.named) == base)
    ensures AllNamed(calls + [c], d, base)
  {
  }

  lemma CounterGrows(moved: nat, from: nat, bytes: u64, n: nat)
    requires from <= moved && bytes == (moved - from) % TWO_64
    ensures (bytes + n) % TWO_64 == (moved + n - from) % TWO_64
  {
    Wrap64Add(moved - from, n);
  }

  lemma CountsOwn(s: Endpoint, c: Conn, o: Origin, calls: seq<Call>, d: Dir, n: nat)
    requires Tally(s, c, o, calls, d) && (s.established || d == Egress)
    ensures Tally(s.Advance(d, n), c.Count(d, n), o, calls + [Call(d, s.Seq(d), SyscallSeq(c, d), n)], d)
  {
    CallNamed(s, c, o, calls, d);
    CounterGrows(s.Moved(d), o.Of(d), c.Bytes(d), n);
    OneMoreNamed(calls, Call(d, s.Seq(d), SyscallSeq(c, d), n), d, Base(s, o, d));
  }

  lemma CountKeeps(s: Endpoint, c: Conn, o: Origin, calls: seq<Call>, d: Dir, n: nat, e: Dir)
    requires Tally(s, c, o, calls, e) && (e == d ==> s.established || d == Egress)
    ensures Tally(s.Advance(d, n), c.Count(d, n), o, calls + [Call(d, s.Seq(d), SyscallSeq(c, d), n)], e)
  {
    if e == d {
      CountsOwn(s, c, o, calls, d, n);
    } else {
      OneMoreNamed(calls, Call(d, s.Seq(d), SyscallSeq(c, d), n), e, Base(s, o, e));
    }
  }

  lemma FirstCount(s: Endpoint, d: Dir, n: nat, e: Dir)
    requires s.established
    ensures Tally(s.Advance(d, n), Conn(0, 0).Count(d, n), Origin(s.sent, s.rcvd), [Call(d, s.Seq(d), 1, n)], e)
  {
    CountKeeps(s, Conn(0, 0), Origin(s.sent, s.rcvd), [], d, n, e);
    assert [] + [Call(d, s.Seq(d), 1, n)] == [Call(d, s.Seq(d), 1, n)];
  }

  /** A live connection the step does not count on. */
  ghost predicate Carried(y: Sys, z: Sys, f: Fd) {
    && Live(y, f) && Live(z, f) && z.maps.conns[f] == y.maps.conns[f]
    && z.socks[f] == y.socks[f].(established := z.socks[f].established)
    && (f in y.origins ==> f in z.origins && z.origins[f] == y.origins[f])
    && (f in y.calls ==> f in z.calls && z.calls[f] == y.calls[f])
  }

  /** The connection a step counts on or starts. */
  predicate CountsOn(t: Step, f: Fd) {
    (t.Data? && t.fd == f) || (t.Open? && t.traced && t.fd == f)
  }

  lemma CarriedStep(y: Sys, t: Step, f: Fd)
    requires SocksOk(y) && Enabled(y, t) && Live(Next(y, t), f) && !CountsOn(t, f)
    ensures Carried(y, Next(y, t), f)
  {
  }

  lemma CarriedTally(y: Sys, z: Sys, f: Fd)
    requires Carried(y, z, f) && TallyOk(y, f)
    ensures TallyOk(z, f)
  {
    forall d ensures Tally(z.socks[f], z.maps.conns[f], z.origins[f], z.calls[f], d) {
      assert Tally(y.socks[f], y.maps.conns[f], y.origins[f], y.calls[f], d);
    }
  }

  lemma OpenTally(y: Sys, fd: Fd)
    requires Enabled(y, Open(fd, true))
    ensures Live(Next(y, Open(fd, true)), fd) && TallyOk(Next(y, Open(fd, true)), fd)
  {
  }

  lemma DiscoveryTally(y: Sys, fd: Fd, d: Dir, n: nat)
    requires Enabled(y, Data(fd, d, n, true)) && fd !in y.maps.conns
    ensures Live(Next(y, Data(fd, d, n, true)), fd) && TallyOk(Next(y, Data(fd, d, n, true)), fd)
  {
    var z := Next(y, Data(fd, d, n, true));
    forall e ensures Tally(z.socks[fd], z.maps.conns[fd], z.origins[fd], z.calls[fd], e) { FirstCount(y.socks[fd], d, n, e); }
  }

  lemma DataTally(y: Sys, fd: Fd, d: Dir, n: nat, traced: bool)
    requires Enabled(y, Data(fd, d, n, traced)) && Live(y, fd) && TallyOk(y, fd)
    ensures Live(Next(y, Data(fd, d, n, traced)), fd) && TallyOk(Next(y, Data(fd, d, n, traced)), fd)
  {
    var z := Next(y, Data(fd, d, n, traced));
    forall e ensures Tally(z.socks[fd], z.maps.conns[fd], z.origins[fd], z.calls[fd], e) {
      CountKeeps(y.socks[fd], y.maps.conns[fd], y.origins[fd], y.calls[fd], d, n, e);
    }
  }

  lemma StillUnknown(y: Sys, fd: Fd, d: Dir, n: nat, traced: bool)
    requires Enabled(y, Data(fd, d, n, traced)) && Live(Next(y, Data(fd, d, n, traced)), fd)
    ensures fd in y.maps.conns || traced
  {
  }

  lemma TallyStep(y: Sys, t: Step, f: Fd)
    requires Sane(y) && Enabled(y, t) && Live(Next(y, t), f)
    ensures TallyOk(Next(y, t), f)
  {
    if !CountsOn(t, f) {
      CarriedStep(y, t, f);
      CarriedTally(y, Next(y, t), f);
    } else if t.Open? {
      OpenTally(y, f);
    } else {
      StillUnknown(y, f, t.dir, t.n, t.traced);
      if f in y.maps.conns {
        DataTally(y, f, t.dir, t.n, t.traced);
      } else {
        DiscoveryTally(y, f, t.dir, t.n);
      }
    }
  }

  lemma SaneStep(y: Sys, t: Step)
    requires Sane(y) && Enabled(y, t)
    ensures Sane(Next(y, t))
  {
    SocksKeep(y, t);
    MadeStep(y, t);
    forall f | Live(Next(y, t), f) ensures TallyOk(Next(y, t), f) { TallyStep(y, t, f); }
  }
}
