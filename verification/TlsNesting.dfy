/** System calls nested in an SSL call, and the kernel range reported for it
    (bpf/openssl.h, bpf/pktlatency.bpf.c, bpf/data_common.h). */
module TlsNesting {
  import opened Words
  import opened Options
  import opened Numbering
  import opened SyscallEvents

  const INVALID_FD: int := -1

  /** `nested_syscall_fd_t`: the descriptor an SSL call works on and the bytes its
      nested system calls moved. */
  datatype Nested = Nested(fd: int, mismatched: bool, syscallLen: u32)

  /** A nested system call and its return value. */
  datatype Syscall = Syscall(fd: nat, dir: Dir, ret: int)

  /** The kernel range attached to an SSL event. */
  datatype KernRange = KernRange(start: u32, len: u32)

  /** What the entry probe leaves; `shown` is the descriptor the SSL object shows, which
      counts only past the standard ones. */
  function Entered(shown: int): Nested {
    Nested(if shown > 2 then shown else INVALID_FD, false, 0)
  }

  /** `update_fd_and_syscall_len_to_uprobe`. The mismatch flag is never read. */
  function Propagated(n: Nested, c: Syscall): Nested {
    var n1 := if n.fd == INVALID_FD then n.(fd := c.fd) else if n.fd != c.fd then n.(mismatched := true) else n;
    if c.ret > 0 then n1.(syscallLen := Wrap32(n1.syscallLen + c.ret)) else n1
  }

  /** The counters of the connections, by descriptor, after a data call. A descriptor in
      `traced` becomes known with its first call. */
  function CountedCall(conns: map<Fd, Conn>, traced: set<Fd>, c: Syscall): map<Fd, Conn> {
    if c.ret <= 0 then conns
    else if c.fd in conns then conns[c.fd := conns[c.fd].Count(c.dir, c.ret)]
    else if c.fd in traced then conns[c.fd := Conn(0, 0).Count(c.dir, c.ret)]
    else conns
  }

  function AfterCalls(n: Nested, conns: map<Fd, Conn>, traced: set<Fd>, cs: seq<Syscall>): (Nested, map<Fd, Conn>)
    decreases cs
  {
    if cs == [] then (n, conns) else AfterCalls(Propagated(n, cs[0]), CountedCall(conns, traced, cs[0]), traced, cs[1..])
  }

  /** The descriptor an SSL call ends up working on: its own, or the one its first nested
      call used. */
  function WorksOn(n: Nested, cs: seq<Syscall>): int {
    if n.fd == INVALID_FD && cs != [] then cs[0].fd else n.fd
  }

  /** The bytes counted of a connection's direction so far. */
  function Counter(conns: map<Fd, Conn>, fd: Fd, d: Dir): u64 {
    if fd in conns then conns[fd].Bytes(d) else 0
  }

  /** The range computed for an SSL event of direction `d`; the length is taken as a
      signed 32-bit number there, and a negative one gives no range. */
  function RangeOf(len: u32, bytes: u64): KernRange {
    var syscallSeq := Wrap32(bytes + 1);
    if len >= TWO_31 then KernRange(0, 0) else KernRange(Wrap32(syscallSeq - len), len)
  }

  /** The probes around one SSL call of one thread. */
  class SslTracer {
    var connInfo: map<Fd, Conn>
    var nested: Option<Nested>
    const traced: set<Fd>

    constructor (conns: map<Fd, Conn>, traced: set<Fd>)
      ensures connInfo == conns && nested == None && this.traced == traced
    {
      connInfo, nested, this.traced := conns, None, traced;
    }

    /** `do_SSL_read_entry`, `do_SSL_write_entry` */
    method SslEntry(shown: int)
      modifies this`nested
      ensures nested == Some(Entered(shown))
    {
      var fd := INVALID_FD;
      if shown != INVALID_FD && shown > 2 {
        fd := shown;
      }
      nested := Some(Nested(fd, false, 0));
    }

    /** The exit probe of a nested data call. */
    method SyscallExit(c: Syscall)
      modifies this
      ensures nested == if old(nested).Some? then Some(Propagated(old(nested).value, c)) else None
      ensures connInfo == CountedCall(old(connInfo), traced, c)
    {
      if nested.Some? {
        var n := nested.value;
        if n.fd == INVALID_FD {
          n := n.(fd := c.fd);
        } else if n.fd != c.fd {
          n := n.(mismatched := true);
        }
        if c.ret > 0 {
          n := n.(syscallLen := Wrap32(n.syscallLen + c.ret));
        }
        nested := Some(n);
      }
      if c.ret <= 0 {
        return;
      }
      if c.fd !in connInfo && c.fd in traced {
        connInfo := connInfo[c.fd := Conn(0, 0)];
      }
      if c.fd in connInfo {
        connInfo := connInfo[c.fd := connInfo[c.fd].Count(c.dir, c.ret)];
      }
    }

    /** `do_SSL_read_ret`, `do_SSL_write_ret`: the range reported, if the call returned
        data on a known connection that passes the protocol and trace-state tests. */
    method SslReturn(d: Dir, bytesCount: int, reportable: bool) returns (r: Option<KernRange>)
      modifies this`nested
      ensures nested == None
      ensures r == if old(nested).Some? && bytesCount > 0 && old(nested).value.fd in connInfo && reportable
                   then Some(RangeOf(old(nested).value.syscallLen, connInfo[old(nested).value.fd].Bytes(d))) else None
    {
      r := None;
      if nested.Some? {
        var fd, len := nested.value.fd, nested.value.syscallLen;
        nested := None;
        if bytesCount > 0 && fd in connInfo && reportable {
          var syscallSeq := Wrap32(connInfo[fd].Bytes(d) + 1);
          r := Some(if len >= TWO_31 then KernRange(0, 0) else KernRange(Wrap32(syscallSeq as int - len), len));
        }
      }
    }

    /** One SSL call, from its entry through its nested system calls to its return. The
        range reported is exactly that of the bytes moved on its own connection and
        direction if and only if nothing was moved elsewhere. */
    method SslCall(shown: int, cs: seq<Syscall>, d: Dir, bytesCount: int, reportable: bool) returns (r: Option<KernRange>)
      requires BytesAll(cs) < TWO_31
      modifies this
      ensures nested == None && connInfo == AfterCalls(Entered(shown), old(connInfo), traced, cs).1
      ensures r.Some? <==> bytesCount > 0 && reportable && WorksOn(Entered(shown), cs) in connInfo
      ensures shown > 2 ==> WorksOn(Entered(shown), cs) == shown
      ensures shown <= 2 ==> WorksOn(Entered(shown), cs) == if cs == [] then -1 else cs[0].fd
      ensures r.Some? ==>
        var fd: Fd := WorksOn(Entered(shown), cs);
        (r.value == KernRange(Wrap32(Counter(old(connInfo), fd, d) + 1), Wrap32(BytesOn(cs, fd, d))) <==> AllOn(cs, fd, d))
    {
      SslEntry(shown);
      var i := 0;
      while i < |cs|
        invariant 0 <= i <= |cs| && nested.Some?
        invariant AfterCalls(nested.value, connInfo, traced, cs[i..]) == AfterCalls(Entered(shown), old(connInfo), traced, cs)
      {
        assert cs[i..][1..] == cs[i + 1..];
        SyscallExit(cs[i]);
        i := i + 1;
      }
      AfterCallsFd(Entered(shown), old(connInfo), traced, cs);
      r := SslReturn(d, bytesCount, reportable);
      if WorksOn(Entered(shown), cs) in connInfo {
        NestingExact(shown, old(connInfo), traced, cs, WorksOn(Entered(shown), cs), d);
      }
    }
  }

  // ----- what the range names -----

  /** Every nested call that moved bytes did so on one descriptor and direction. */
  ghost predicate AllOn(cs: seq<Syscall>, fd: int, d: Dir) {
    forall i :: 0 <= i < |cs| && cs[i].ret > 0 ==> cs[i].fd == fd && cs[i].dir == d
  }

  /** Bytes moved by calls on one descriptor and direction; by all calls. */
  function BytesOn(cs: seq<Syscall>, fd: nat, d: Dir): nat {
    if cs == [] then 0
    else (if cs[0].fd == fd && cs[0].dir == d && cs[0].ret > 0 then cs[0].ret else 0) + BytesOn(cs[1..], fd, d)
  }

  function BytesAll(cs: seq<Syscall>): nat {
    if cs == [] then 0 else (if cs[0].ret > 0 then cs[0].ret else 0) + BytesAll(cs[1..])
  }

  /** The ranges the nested calls on `fd` and `d` are reported under themselves. */
  function OwnRanges(cs: seq<Syscall>, fd: nat, d: Dir, bytes: nat): seq<Range> {
    if cs == [] then []
    else if cs[0].fd == fd && cs[0].dir == d && cs[0].ret > 0 then
      [Range(Wrap32(bytes + 1), cs[0].ret, None)] + OwnRanges(cs[1..], fd, d, bytes + cs[0].ret)
    else OwnRanges(cs[1..], fd, d, bytes)
  }

  lemma {:induction false} OwnRangesTile(cs: seq<Syscall>, fd: nat, d: Dir, bytes: nat)
    ensures Tiles(OwnRanges(cs, fd, d, bytes), bytes + 1, BytesOn(cs, fd, d))
    decreases cs
  {
    if cs != [] {
      if cs[0].fd == fd && cs[0].dir == d && cs[0].ret > 0 {
        OwnRangesTile(cs[1..], fd, d, bytes + cs[0].ret);
      } else {
        OwnRangesTile(cs[1..], fd, d, bytes);
      }
    }
  }

  lemma {:induction false} BytesOnBelow(cs: seq<Syscall>, fd: nat, d: Dir)
    ensures BytesOn(cs, fd, d) <= BytesAll(cs)
    ensures BytesOn(cs, fd, d) == BytesAll(cs) <==> AllOn(cs, fd, d)
  {
    if cs != [] {
      BytesOnBelow(cs[1..], fd, d);
      assert forall i :: 0 <= i < |cs[1..]| ==> cs[1..][i] == cs[i + 1];
      if !AllOn(cs, fd, d) {
        var i :| 0 <= i < |cs| && cs[i].ret > 0 && !(cs[i].fd == fd && cs[i].dir == d);
        if i > 0 { assert cs[1..][i - 1] == cs[i]; }
      }
    }
  }

  /** The descriptor the nested calls leave, and the sum of all their lengths. */
  lemma {:induction false} AfterCallsFd(n: Nested, conns: map<Fd, Conn>, traced: set<Fd>, cs: seq<Syscall>)
    ensures var r := AfterCalls(n, conns, traced, cs).0;
      r.fd == WorksOn(n, cs) && r.syscallLen == Wrap32(n.syscallLen + BytesAll(cs))
    decreases cs
  {
    if cs != [] {
      var c := cs[0];
      AfterCallsFd(Propagated(n, c), CountedCall(conns, traced, c), traced, cs[1..]);
      if c.ret > 0 { WrapAdd(n.syscallLen + c.ret, BytesAll(cs[1..])); }
    }
  }

  /** The mismatch flag is raised exactly when a nested call was on another descriptor. */
  lemma {:induction false} MismatchExact(n: Nested, conns: map<Fd, Conn>, traced: set<Fd>, cs: seq<Syscall>)
    requires !n.mismatched
    ensures AfterCalls(n, conns, traced, cs).0.mismatched <==>
      exists i :: 0 <= i < |cs| && cs[i].fd != WorksOn(n, cs)
    decreases cs
  {
    if cs != [] {
      var next, conns' := Propagated(n, cs[0]), CountedCall(conns, traced, cs[0]);
      assert forall i :: 0 <= i < |cs[1..]| ==> cs[1..][i] == cs[i + 1];
      if next.mismatched {
        StaysMismatched(next, conns', traced, cs[1..]);
      } else {
        MismatchExact(next, conns', traced, cs[1..]);
        if i :| 0 <= i < |cs| && cs[i].fd != WorksOn(n, cs) {
          assert cs[1..][i - 1].fd != WorksOn(next, cs[1..]);
        }
      }
    }
  }

  lemma {:induction false} StaysMismatched(n: Nested, conns: map<Fd, Conn>, traced: set<Fd>, cs: seq<Syscall>)
    requires n.mismatched
    ensures AfterCalls(n, conns, traced, cs).0.mismatched
    decreases cs
  {
    if cs != [] { StaysMismatched(Propagated(n, cs[0]), CountedCall(conns, traced, cs[0]), traced, cs[1..]); }
  }

  /** Nested calls of 2^31 bytes or more, but less than 2^32, leave no range. */
  lemma NestingTooLong(shown: int, conns: map<Fd, Conn>, traced: set<Fd>, cs: seq<Syscall>, bytes: u64)
    requires TWO_31 <= BytesAll(cs) < TWO_32
    ensures RangeOf(AfterCalls(Entered(shown), conns, traced, cs).0.syscallLen, bytes) == KernRange(0, 0)
  {
    AfterCallsFd(Entered(shown), conns, traced, cs);
  }

  /** A known connection's counter takes exactly the bytes moved on it in its direction. */
  lemma {:induction false} AfterCallsCount(n: Nested, conns: map<Fd, Conn>, traced: set<Fd>, cs: seq<Syscall>, fd: nat, d: Dir)
    requires fd in conns || fd in traced
    ensures var conns' := AfterCalls(n, conns, traced, cs).1;
      Counter(conns', fd, d) == (Counter(conns, fd, d) + BytesOn(cs, fd, d)) % TWO_64
    decreases cs
  {
    if cs != [] {
      var c := cs[0];
      OneCallCount(conns, traced, c, fd, d, BytesOn(cs[1..], fd, d));
      AfterCallsCount(Propagated(n, c), CountedCall(conns, traced, c), traced, cs[1..], fd, d);
    }
  }

  lemma OneCallCount(conns: map<Fd, Conn>, traced: set<Fd>, c: Syscall, fd: nat, d: Dir, more: nat)
    requires fd in conns || fd in traced
    ensures fd in CountedCall(conns, traced, c) || fd in traced
    ensures (Counter(CountedCall(conns, traced, c), fd, d) + more) % TWO_64 ==
      (Counter(conns, fd, d) + (if c.fd == fd && c.dir == d && c.ret > 0 then c.ret else 0) + more) % TWO_64
  {
    if c.fd == fd && c.dir == d && c.ret > 0 { Wrap64Add(Counter(conns, fd, d) + c.ret, more); }
  }

  lemma {:induction false} OnlyKnown(n: Nested, conns: map<Fd, Conn>, traced: set<Fd>, cs: seq<Syscall>, fd: nat)
    requires fd in AfterCalls(n, conns, traced, cs).1
    ensures fd in conns || fd in traced
    decreases cs
  {
    if cs != [] { OnlyKnown(Propagated(n, cs[0]), CountedCall(conns, traced, cs[0]), traced, cs[1..], fd); }
  }

  /** TLS nesting, exactly: for nested calls of fewer than 2^31 bytes, the reported
      range has the start and length of the bytes the SSL call moved on its own
      connection and direction if and only if none of its nested calls moved bytes on
      another descriptor or in the other direction. The descriptor may be the one the SSL
      object shows or the one the first nested call used. */
  lemma NestingExact(shown: int, conns: map<Fd, Conn>, traced: set<Fd>, cs: seq<Syscall>, fd: nat, d: Dir)
    requires fd == WorksOn(Entered(shown), cs) && BytesAll(cs) < TWO_31
    requires fd in AfterCalls(Entered(shown), conns, traced, cs).1
    ensures var r := AfterCalls(Entered(shown), conns, traced, cs);
      AllOn(cs, fd, d) <==>
        RangeOf(r.0.syscallLen, r.1[fd].Bytes(d)) == KernRange(Wrap32(Counter(conns, fd, d) + 1), Wrap32(BytesOn(cs, fd, d)))
  {
    var n := Entered(shown);
    var r := AfterCalls(n, conns, traced, cs);
    OnlyKnown(n, conns, traced, cs, fd);
    AfterCallsFd(n, conns, traced, cs);
    AfterCallsCount(n, conns, traced, cs, fd, d);
    BytesOnBelow(cs, fd, d);
    if BytesOn(cs, fd, d) == BytesAll(cs) {
      RangeStart(Counter(conns, fd, d), BytesAll(cs));
    }
  }

  lemma RangeStart(before: nat, n: nat)
    ensures Wrap32(Wrap32((before + n) % TWO_64 + 1) - n) == Wrap32(before + 1)
  {
    WrapAdd((before + n) % TWO_64 + 1, 0 - n);
    Wrap64Low(before + n);
    WrapCancel((before + n) % TWO_64, before + n, 1 - n);
  }

  /** In that case the range is the union of the nested calls' own ranges: they tile it. */
  lemma NestingUnion(shown: int, conns: map<Fd, Conn>, traced: set<Fd>, cs: seq<Syscall>, fd: nat, d: Dir)
    requires fd == WorksOn(Entered(shown), cs) && BytesAll(cs) < TWO_31 && AllOn(cs, fd, d)
    requires fd in AfterCalls(Entered(shown), conns, traced, cs).1
    ensures var r := AfterCalls(Entered(shown), conns, traced, cs);
      var range := RangeOf(r.0.syscallLen, r.1[fd].Bytes(d));
      && range.start == Wrap32(Counter(conns, fd, d) + 1)
      && Tiles(OwnRanges(cs, fd, d, Counter(conns, fd, d)), Counter(conns, fd, d) + 1, range.len)
  {
    NestingExact(shown, conns, traced, cs, fd, d);
    BytesOnBelow(cs, fd, d);
    OwnRangesTile(cs, fd, d, Counter(conns, fd, d));
  }
}
