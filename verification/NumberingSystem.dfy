/** The machine around the byte-numbering probes: the kernel's TCP sockets, the maps of
    the BPF programs, and the steps that change them. */
module NumberingSystem {
  import opened Words
  import opened Options
  import opened Numbering

  function Other(d: Dir): Dir {
    if d == Egress then Ingress else Egress
  }

  /** A TCP socket: its two addresses, the initial numbers of its two streams and the bytes
      moved so far. `irs` is the number the peer chose; the kernel learns it with the peer's
      SYN. */
  datatype Endpoint = Endpoint(local: Addr, remote: Addr, iss: u32, irs: u32, sent: nat, rcvd: nat, established: bool) {
    function Init(d: Dir): u32 { if d == Egress then iss else irs }

    function Moved(d: Dir): nat { if d == Egress then sent else rcvd }

    /** The kernel's next number, `write_seq` or `copied_seq`; a connecting socket has
        no `copied_seq` yet. */
    function Seq(d: Dir): u32 {
      if d == Ingress && !established then 0 else Wrap32(Init(d) + 1 + Moved(d))
    }

    /** The headers of the segments that carry a direction's stream: from its sender to
        its receiver. */
    function Segment(d: Dir): Header { if d == Egress then Header(local, remote) else Header(remote, local) }

    /** The key under which those segments look for their initial number. */
    function Entry(d: Dir): Key { HeaderKey(Segment(d)) }

    function Advance(d: Dir, n: nat): Endpoint {
      if d == Egress then this.(sent := sent + n) else this.(rcvd := rcvd + n)
    }

    /** What a probe reads from the kernel's socket. */
    function Read(): Sock { Sock(SocketKey(local, remote), Seq(Egress), Seq(Ingress)) }
  }

  /** A data call as it was seen: the TCP number of its first byte and the number
      reported for it. */
  datatype Call = Call(dir: Dir, tcp: u32, named: u32, len: nat)

  /** The bytes of each stream that moved before a connection was traced. */
  datatype Origin = Origin(sent: nat, rcvd: nat) {
    function Of(d: Dir): nat { if d == Egress then sent else rcvd }
  }

  /** The sockets, the maps, and what the proof remembers: for each entry of the
      initial-sequence map the byte of the present stream it was made from, or None if
      it survives from an earlier socket; and for each live connection where its
      counting began and the calls counted. */
  datatype Sys = Sys(
    socks: map<Fd, Endpoint>,
    maps: Maps,
    made: map<Key, Option<nat>>,
    origins: map<Fd, Origin>,
    calls: map<Fd, seq<Call>>)

  datatype Step =
    | NewSocket(fd: Fd, sock: Endpoint)                // the kernel opens a socket
    | Open(fd: Fd, traced: bool)                       // connect or accept returns
    | SynAck(fd: Fd)                                   // a connecting socket takes the peer's SYN
    | Data(fd: Fd, dir: Dir, n: nat, traced: bool)     // read, write or sendfile returns n
    | DevIn(fd: Fd, dir: Dir, syn: bool, off: nat)     // a SYN, or data from a byte on, enters a device
    | Stray(header: Header, tcpSeq: u32, syn: bool)    // any other segment enters a device
    | Close(fd: Fd)                                    // close returns
    | Destroy(local: Addr, remote: Addr)               // tcp_destroy_sock of a closed socket
    | Cleanup(local: Addr, remote: Addr)               // user space drops both entries

  predicate Live(y: Sys, fd: Fd) {
    fd in y.socks && fd in y.maps.conns
  }

  predicate Peers(a: Endpoint, b: Endpoint) {
    a.local == b.remote && a.remote == b.local
  }

  /** Two open sockets are one connection's two ends or have nothing in common. */
  predicate Compatible(a: Endpoint, b: Endpoint) {
    !(a.local == b.local && a.remote == b.remote) && (Peers(a, b) ==> a.iss == b.irs && a.irs == b.iss)
  }

  /** A data call is about to make its connection known. */
  predicate Discovers(y: Sys, t: Step) {
    t.Data? && t.traced && t.fd !in y.maps.conns
  }

  /** The kernel's side: calls happen on open sockets, one descriptor per socket; no
      socket is its own peer; both ends of a connection agree on its numbers. */
  ghost predicate Enabled(y: Sys, t: Step) {
    match t
    case NewSocket(fd, s) =>
      && fd !in y.socks && s.local != s.remote && (!s.established ==> s.rcvd == 0)
      && forall g :: g in y.socks ==> Compatible(s, y.socks[g])
    case Open(fd, _) => fd in y.socks
    case SynAck(fd) => fd in y.socks && !y.socks[fd].established
    case Data(fd, _, n, _) => fd in y.socks && y.socks[fd].established && n > 0
    case DevIn(fd, _, _, _) => fd in y.socks
    case Stray(_, _, _) => true
    case Close(fd) => fd in y.socks
    case Destroy(l, r) => forall g :: g in y.socks ==> !(y.socks[g].local == l && y.socks[g].remote == r)
    case Cleanup(_, _) => true
  }

  /** The TCP number a segment carries: the SYN takes the number before byte 0. */
  function SegmentSeq(s: Endpoint, d: Dir, syn: bool, off: nat): u32 {
    if syn then s.Init(d) else Wrap32(s.Init(d) + 1 + off)
  }

  /** The direction of a socket's stream an entry is for. */
  function Side(s: Endpoint, k: Key): Dir {
    if k == s.Entry(Egress) then Egress else Ingress
  }

  predicate Uses(s: Endpoint, k: Key) {
    k == s.Entry(Egress) || k == s.Entry(Ingress)
  }

  /** The byte a step takes for the first when it writes the entry under a key; None if
      it writes none there. */
  ghost function Written(y: Sys, t: Step, k: Key): Option<nat>
    requires Enabled(y, t)
  {
    match t
    case Open(fd, true) =>
      var s := y.socks[fd];
      if Uses(s, k) && s.Seq(Side(s, k)) != 0 then Some(s.Moved(Side(s, k))) else None
    case Data(fd, _, _, _) =>
      var s := y.socks[fd];
      if Discovers(y, t) && Uses(s, k) then Some(s.Moved(Side(s, k))) else None
    case DevIn(fd, d, syn, off) =>
      if k == y.socks[fd].Entry(d) && k !in y.maps.xmit then Some(if syn then 0 else off) else None
    case _ => None
  }

  function MadeByOpen(made: map<Key, Option<nat>>, s: Endpoint): map<Key, Option<nat>> {
    var m := if s.Seq(Egress) != 0 then made[s.Entry(Egress) := Some(s.sent)] else made;
    if s.Seq(Ingress) != 0 then m[s.Entry(Ingress) := Some(s.rcvd)] else m
  }

  function MadeByDiscovery(made: map<Key, Option<nat>>, s: Endpoint): map<Key, Option<nat>> {
    made[s.Entry(Egress) := Some(s.sent)][s.Entry(Ingress) := Some(s.rcvd)]
  }

  /** The entries of a new socket without an open peer survive from earlier ones. */
  function Survive(made: map<Key, Option<nat>>, s: Endpoint): map<Key, Option<nat>> {
    map k | k in made :: if Uses(s, k) then None else made[k]
  }

  ghost predicate HasPeer(y: Sys, s: Endpoint) {
    exists g :: g in y.socks && Peers(s, y.socks[g])
  }

  ghost function NextMade(y: Sys, t: Step): map<Key, Option<nat>>
    requires Enabled(y, t)
  {
    match t
    case NewSocket(_, s) => if HasPeer(y, s) then y.made else Survive(y.made, s)
    case Open(fd, true) => MadeByOpen(y.made, y.socks[fd])
    case Data(fd, _, _, _) => if Discovers(y, t) then MadeByDiscovery(y.made, y.socks[fd]) else y.made
    case DevIn(fd, d, syn, off) =>
      var k := y.socks[fd].Entry(d);
      if k in y.maps.xmit then y.made else y.made[k := Some(if syn then 0 else off)]
    case Stray(h, _, _) => if HeaderKey(h) in y.maps.xmit then y.made else y.made[HeaderKey(h) := None]
    case Destroy(l, r) => y.made - {SocketKey(l, r)}
    case Cleanup(l, r) => y.made - {SocketKey(l, r), SocketKey(r, l)}
    case _ => y.made
  }

  ghost function NextMaps(y: Sys, t: Step): Maps
    requires Enabled(y, t)
  {
    var m := y.maps;
    match t
    case Open(fd, traced) => if traced then Opened(m, fd, y.socks[fd].Read()) else m
    case Data(fd, d, n, traced) => Counted(m, fd, y.socks[fd].Advance(d, n).Read(), d, n, traced)
    case DevIn(fd, d, syn, off) =>
      var s := y.socks[fd];
      m.(xmit := Noted(m.xmit, s.Entry(d), SegmentSeq(s, d, syn, off), syn))
    case Stray(h, q, syn) => m.(xmit := Noted(m.xmit, HeaderKey(h), q, syn))
    case Close(fd) => Closed(m, fd)
    case Destroy(l, r) => Destroyed(m, l, r)
    case Cleanup(l, r) => CleanedUp(m, l, r)
    case _ => m
  }

  ghost function NextSocks(y: Sys, t: Step): map<Fd, Endpoint>
    requires Enabled(y, t)
  {
    match t
    case NewSocket(fd, s) => y.socks[fd := s]
    case SynAck(fd) => y.socks[fd := y.socks[fd].(established := true)]
    case Data(fd, d, n, _) => y.socks[fd := y.socks[fd].Advance(d, n)]
    case Close(fd) => y.socks - {fd}
    case _ => y.socks
  }

  /** A step after which the counting of its descriptor starts from the present. */
  ghost predicate Starts(y: Sys, t: Step) {
    (t.Open? && t.traced) || Discovers(y, t)
  }

  ghost function NextOrigins(y: Sys, t: Step): map<Fd, Origin>
    requires Enabled(y, t)
  {
    if Starts(y, t) then y.origins[t.fd := Origin(y.socks[t.fd].sent, y.socks[t.fd].rcvd)] else y.origins
  }

  ghost function NextCalls(y: Sys, t: Step): map<Fd, seq<Call>>
    requires Enabled(y, t)
  {
    match t
    case Open(fd, true) => y.calls[fd := []]
    case Data(fd, d, n, traced) =>
      var call := Call(d, y.socks[fd].Seq(d), CallSeq(y.maps, fd, d), n);
      if Discovers(y, t) then y.calls[fd := [call]]
      else if fd in y.maps.conns && fd in y.calls then y.calls[fd := y.calls[fd] + [call]]
      else y.calls
    case _ => y.calls
  }

  ghost function Next(y: Sys, t: Step): Sys
    requires Enabled(y, t)
  {
    Sys(NextSocks(y, t), NextMaps(y, t), NextMade(y, t), NextOrigins(y, t), NextCalls(y, t))
  }

  const START := Sys(map[], Maps(map[], map[]), map[], map[], map[])

  /** Every step of the run can happen where it happens. */
  ghost predicate Possible(y: Sys, ts: seq<Step>)
    decreases ts
  {
    ts != [] ==> Enabled(y, ts[0]) && Possible(Next(y, ts[0]), ts[1..])
  }

  ghost function After(y: Sys, ts: seq<Step>): Sys
    requires Possible(y, ts)
    decreases ts
  {
    if ts == [] then y else After(Next(y, ts[0]), ts[1..])
  }
}
