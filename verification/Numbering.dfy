/** The byte-numbering protocol of the BPF programs: connection counters and the
    initial-sequence map, updated in place by the probes (bpf/pktlatency.bpf.c). */
module Numbering {
  import opened Words

  type Fd = nat // tgid_fd

  /** An address, in two 64-bit words, and a port. */
  datatype Addr = Addr(ip: (nat, nat), port: nat)

  /** What the IP and TCP headers of a segment say: who sent it, and to whom. */
  datatype Header = Header(src: Addr, dst: Addr)

  /** `sock_key` */
  datatype Key = Key(sip: (nat, nat), dip: (nat, nat), sport: nat, dport: nat)

  /** `parse_sock_key_sk`: the key of a socket. */
  function SocketKey(local: Addr, remote: Addr): Key {
    Key(local.ip, remote.ip, local.port, remote.port)
  }

  /** `parse_sock_key_from_ipv4_tcp_hdr`, and the same for IPv6: the key of a segment. */
  function HeaderKey(h: Header): Key {
    Key(h.src.ip, h.dst.ip, h.src.port, h.dst.port)
  }

  /** `reverse_sock_key_no_copy` */
  function Reverse(k: Key): Key {
    Key(k.dip, k.sip, k.dport, k.sport)
  }

  datatype Dir = Egress | Ingress

  /** The counters of `conn_info_t`. */
  datatype Conn = Conn(writeBytes: u64, readBytes: u64) {
    function Bytes(d: Dir): u64 { if d == Egress then writeBytes else readBytes }

    /** `uint64` addition to the counter of a direction. */
    function Count(d: Dir, n: nat): Conn {
      if d == Egress then this.(writeBytes := (writeBytes + n) % TWO_64)
      else this.(readBytes := (readBytes + n) % TWO_64)
    }
  }

  /** What a probe reads from the kernel's `tcp_sock`. */
  datatype Sock = Sock(key: Key, writeSeq: u32, copiedSeq: u32)

  /** `conn_info_map` and `sock_xmit_map`. */
  datatype Maps = Maps(conns: map<Fd, Conn>, xmit: map<Key, u32>)

  /** The maps after `submit_new_conn` of a traced connection. */
  function Opened(m: Maps, fd: Fd, s: Sock): Maps {
    var x1 := if s.writeSeq != 0 then m.xmit[s.key := Wrap32(s.writeSeq - 1)] else m.xmit;
    var x2 := if s.copiedSeq != 0 then x1[Reverse(s.key) := Wrap32(s.copiedSeq - 1)] else x1;
    Maps(m.conns[fd := Conn(0, 0)], x2)
  }

  /** The maps after `create_conn_info_in_data_syscall`; the kernel has already moved
      past the `n` bytes of the call. */
  function Discovered(m: Maps, fd: Fd, s: Sock, d: Dir, n: nat): Maps {
    var send := Wrap32(s.writeSeq - (if d == Egress then n else 0) - 1);
    var rcv := Wrap32(s.copiedSeq - (if d == Ingress then n else 0) - 1);
    Maps(m.conns[fd := Conn(0, 0)], m.xmit[s.key := send][Reverse(s.key) := rcv])
  }

  /** The maps after the exit probe of a data call of `n` bytes, counted in full. */
  function Counted(m: Maps, fd: Fd, s: Sock, d: Dir, n: nat, traced: bool): Maps {
    var m1 := if fd !in m.conns && traced then Discovered(m, fd, s, d, n) else m;
    if fd in m1.conns then m1.(conns := m1.conns[fd := m1.conns[fd].Count(d, n)]) else m1
  }

  /** The sequence number reported for the first byte of a data call. */
  function SyscallSeq(c: Conn, d: Dir): u32 {
    Wrap32(c.Bytes(d) + 1)
  }

  /** The number reported for a data call; a connection that becomes known with the call has
      counted nothing yet. */
  function CallSeq(m: Maps, fd: Fd, d: Dir): u32 {
    if fd in m.conns then SyscallSeq(m.conns[fd], d) else 1
  }

  /** The sequence number reported for a TCP segment. */
  function RelativeSeq(tcpSeq: u32, initial: u32): u32 {
    Wrap32(tcpSeq - initial)
  }

  /** What `parse_skb` stores at DEV_IN for a key it does not know. */
  function FirstSeen(tcpSeq: u32, syn: bool): u32 {
    if syn then tcpSeq else Wrap32(tcpSeq - 1)
  }

  function Noted(xmit: map<Key, u32>, k: Key, tcpSeq: u32, syn: bool): map<Key, u32> {
    if k in xmit then xmit else xmit[k := FirstSeen(tcpSeq, syn)]
  }

  /** The maps after `process_syscall_close`: only the counters go. */
  function Closed(m: Maps, fd: Fd): Maps {
    m.(conns := m.conns - {fd})
  }

  /** The maps after `tcp_destroy_sock`: only the entry of the sending direction goes. */
  function Destroyed(m: Maps, local: Addr, remote: Addr): Maps {
    m.(xmit := m.xmit - {SocketKey(local, remote)})
  }

  /** The maps once user space has dropped both entries. */
  function CleanedUp(m: Maps, local: Addr, remote: Addr): Maps {
    m.(xmit := m.xmit - {SocketKey(local, remote), SocketKey(remote, local)})
  }

  class Tracer {
    var connInfo: map<Fd, Conn>
    var sockXmit: map<Key, u32>

    constructor ()
      ensures View() == Maps(map[], map[])
    {
      connInfo, sockXmit := map[], map[];
    }

    ghost function View(): Maps
      reads this
    {
      Maps(connInfo, sockXmit)
    }

    /** `submit_new_conn`; `traced` is what the filters of `create_conn_info` decide. */
    method SubmitNewConn(fd: Fd, s: Sock, traced: bool)
      modifies this
      ensures View() == if traced then Opened(old(View()), fd, s) else old(View())
    {
      if traced {
        connInfo := connInfo[fd := Conn(0, 0)];
        var key, writeSeq, copiedSeq := s.key, s.writeSeq, s.copiedSeq;
        if writeSeq != 0 {
          sockXmit := sockXmit[key := Wrap32(writeSeq - 1)];
        }
        key := Reverse(key);
        if copiedSeq != 0 {
          sockXmit := sockXmit[key := Wrap32(copiedSeq - 1)];
        }
      }
    }

    method CreateConnInfoInDataSyscall(fd: Fd, s: Sock, d: Dir, n: nat, traced: bool) returns (created: bool)
      modifies this
      ensures created == traced
      ensures View() == if traced then Discovered(old(View()), fd, s, d, n) else old(View())
    {
      if !traced {
        return false;
      }
      connInfo := connInfo[fd := Conn(0, 0)];
      var sendInitialSeq, rcvInitialSeq;
      if d == Egress {
        sendInitialSeq := Wrap32(s.writeSeq - n - 1);
        rcvInitialSeq := Wrap32(s.copiedSeq - 1);
      } else {
        sendInitialSeq := Wrap32(s.writeSeq - 1);
        rcvInitialSeq := Wrap32(s.copiedSeq - n - 1);
      }
      sockXmit := sockXmit[s.key := sendInitialSeq];
      sockXmit := sockXmit[Reverse(s.key) := rcvInitialSeq];
      return true;
    }

    /** `process_syscall_data`, and `process_syscall_sendfile` with direction Egress:
        the sequence number reported, if the connection is known, and the counting. */
    method ProcessSyscallData(fd: Fd, s: Sock, d: Dir, n: nat, traced: bool) returns (known: bool, named: u32)
      modifies this
      ensures n > 0 ==> View() == Counted(old(View()), fd, s, d, n, traced)
      ensures n == 0 ==> View() == old(View()) && !known
      ensures n > 0 ==> known == (fd in old(connInfo) || traced)
      ensures known ==> named == CallSeq(old(View()), fd, d)
    {
      known, named := false, 0;
      if n == 0 {
        return;
      }
      if fd !in connInfo {
        var _ := CreateConnInfoInDataSyscall(fd, s, d, n, traced);
      }
      if fd !in connInfo {
        return;
      }
      known, named := true, Wrap32(connInfo[fd].Bytes(d) + 1);
      connInfo := connInfo[fd := connInfo[fd].Count(d, n)];
    }

    method ProcessSyscallClose(fd: Fd)
      modifies this
      ensures View() == Closed(old(View()), fd)
    {
      connInfo := connInfo - {fd};
    }

    /** `tcp_destroy_sock` of a socket whose descriptor is closed. */
    method TcpDestroySock(local: Addr, remote: Addr)
      modifies this
      ensures View() == Destroyed(old(View()), local, remote)
    {
      sockXmit := sockXmit - {SocketKey(local, remote)};
    }

    /** User space forgets a connection: `OnClose`. */
    method OnClose(local: Addr, remote: Addr)
      modifies this
      ensures View() == CleanedUp(old(View()), local, remote)
    {
      var key, revKey := Key(local.ip, remote.ip, local.port, remote.port), Key(remote.ip, local.ip, remote.port, local.port);
      sockXmit := sockXmit - {key};
      sockXmit := sockXmit - {revKey};
    }

    /** `parse_skb`: the relative sequence number of a segment, if its key is known. */
    method ParseSkb(h: Header, tcpSeq: u32, syn: bool, devIn: bool) returns (known: bool, relative: u32)
      modifies this
      ensures connInfo == old(connInfo)
      ensures sockXmit == if devIn then Noted(old(sockXmit), HeaderKey(h), tcpSeq, syn) else old(sockXmit)
      ensures known <==> HeaderKey(h) in sockXmit
      ensures known ==> relative == RelativeSeq(tcpSeq, sockXmit[HeaderKey(h)])
    {
      var k := Key(h.src.ip, h.dst.ip, h.src.port, h.dst.port);
      if k !in sockXmit {
        if devIn {
          var initialSeq: int := tcpSeq;
          if !syn {
            initialSeq := initialSeq - 1;
          }
          sockXmit := sockXmit[k := Wrap32(initialSeq)];
        } else {
          return false, 0;
        }
      }
      return true, Wrap32(tcpSeq - sockXmit[k]);
    }
  }
}
