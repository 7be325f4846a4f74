/** Request/response matching by timestamp (agent/protocol/common.go): the two-queue
    merge and what it pairs. */
module Matching {
  import opened Options

  /** A parsed message; `body` stands for everything but its timestamp. */
  datatype Message = Message(ts: nat, body: nat)

  datatype Record = Record(req: Message, resp: Message)

  /** What the merge loop computes from the two queues and the pending request: the
      records, and the requests left. */
  function Merge(reqs: seq<Message>, resps: seq<Message>, pending: Option<Message>): (seq<Record>, seq<Message>)
    decreases |reqs| + |resps|
  {
    if resps == [] then ([], reqs)
    else if reqs != [] && reqs[0].ts < resps[0].ts then Merge(reqs[1..], resps, Some(reqs[0]))
    else
      var m := Merge(reqs, resps[1..], None);
      (if pending.Some? then [Record(pending.value, resps[0])] + m.0 else m.0, m.1)
  }

  class MessageQueue {
    var msgs: seq<Message>

    constructor (msgs: seq<Message>)
      ensures this.msgs == msgs
    {
      this.msgs := msgs;
    }
  }

  /** Nothing happens when either queue is empty. */
  method MatchByTimestamp(reqStream: MessageQueue, respStream: MessageQueue) returns (records: seq<Record>)
    requires reqStream != respStream
    modifies reqStream, respStream
    ensures old(reqStream.msgs) == [] || old(respStream.msgs) == [] ==>
      records == [] && reqStream.msgs == old(reqStream.msgs) && respStream.msgs == old(respStream.msgs)
    ensures old(reqStream.msgs) != [] && old(respStream.msgs) != [] ==>
      var m := Merge(old(reqStream.msgs), old(respStream.msgs), None);
      records == m.0 && reqStream.msgs == m.1 && respStream.msgs == []
  {
    if |reqStream.msgs| == 0 || |respStream.msgs| == 0 {
      return [];
    }
    var pending: Option<Message> := None;
    records := [];
    ghost var all := Merge(reqStream.msgs, respStream.msgs, None);
    while |respStream.msgs| > 0
      invariant all.1 == Merge(reqStream.msgs, respStream.msgs, pending).1
      invariant all.0 == records + Merge(reqStream.msgs, respStream.msgs, pending).0
      decreases |reqStream.msgs| + |respStream.msgs|
    {
      var req := if |reqStream.msgs| == 0 then None else Some(reqStream.msgs[0]);
      var resp := respStream.msgs[0];
      if req.Some? && req.value.ts < resp.ts {
        pending := req;
        reqStream.msgs := reqStream.msgs[1..];
      } else {
        if pending.Some? {
          records := records + [Record(pending.value, resp)];
          pending := None;
        }
        respStream.msgs := respStream.msgs[1..];
      }
    }
  }

  // ----- what is paired, on time-sorted queues -----

  ghost predicate TimeSorted(ms: seq<Message>) {
    forall i, j :: 0 <= i < j < |ms| ==> ms[i].ts <= ms[j].ts
  }

  /** The last message with a time in [lo, hi). */
  function LastIn(ms: seq<Message>, lo: nat, hi: nat): Option<Message> {
    if ms == [] then None
    else
      var n := |ms| - 1;
      if lo <= ms[n].ts < hi then Some(ms[n]) else LastIn(ms[..n], lo, hi)
  }

  /** Each response with the last request at or after the previous response and
      strictly before it; a response without one is dropped. */
  function Pairs(reqs: seq<Message>, resps: seq<Message>, prev: nat): seq<Record>
    decreases resps
  {
    if resps == [] then []
    else
      var rest := Pairs(reqs, resps[1..], resps[0].ts);
      match LastIn(reqs, prev, resps[0].ts)
      case Some(q) => [Record(q, resps[0])] + rest
      case None => rest
  }

  /** The last request in a span of time: it is in the queue and in the span, and no later
      one of the queue is. */
  lemma {:induction false} LastInIs(ms: seq<Message>, lo: nat, hi: nat)
    ensures match LastIn(ms, lo, hi)
      case None => forall i :: 0 <= i < |ms| ==> !(lo <= ms[i].ts < hi)
      case Some(q) => exists k :: 0 <= k < |ms| && ms[k] == q && lo <= q.ts < hi && forall i :: k < i < |ms| ==> !(lo <= ms[i].ts < hi)
    decreases |ms|
  {
    if ms != [] {
      var n := |ms| - 1;
      LastInIs(ms[..n], lo, hi);
      if lo <= ms[n].ts < hi {
        assert ms[n] == LastIn(ms, lo, hi).value;
      } else if LastIn(ms, lo, hi).Some? {
        var q := LastIn(ms, lo, hi).value;
        var k :| 0 <= k < n && ms[..n][k] == q && lo <= q.ts < hi && forall i :: k < i < n ==> !(lo <= ms[..n][i].ts < hi);
        assert ms[k] == q;
        forall i | k < i < |ms| ensures !(lo <= ms[i].ts < hi) {
          if i < n { assert ms[..n][i] == ms[i]; }
        }
      }
    }
  }

  lemma LastInAppend(ms: seq<Message>, m: Message, lo: nat, hi: nat)
    ensures LastIn(ms + [m], lo, hi) == if lo <= m.ts < hi then Some(m) else LastIn(ms, lo, hi)
  {
    assert (ms + [m])[..|ms|] == ms;
  }

  lemma {:induction false} LastInNone(ms: seq<Message>, lo: nat, hi: nat)
    requires forall i :: 0 <= i < |ms| ==> ms[i].ts < lo
    ensures LastIn(ms, lo, hi) == None
    decreases |ms|
  {
    if ms != [] { LastInNone(ms[..|ms| - 1], lo, hi); }
  }

  lemma {:induction false} LastInPrefix(a: seq<Message>, b: seq<Message>, lo: nat, hi: nat)
    requires forall i :: 0 <= i < |b| ==> b[i].ts >= hi
    ensures LastIn(a + b, lo, hi) == LastIn(a, lo, hi)
    decreases |b|
  {
    if b == [] {
      assert a + b == a;
    } else {
      var n := |b| - 1;
      assert a + b == a + b[..n] + [b[n]];
      LastInAppend(a + b[..n], b[n], lo, hi);
      LastInPrefix(a, b[..n], lo, hi);
    }
  }

  /** The merge part-way: `done` is consumed, `rest` is still queued, and the pending
      request is the last consumed one since the previous response. */
  lemma {:induction false} MergeIsPairs(done: seq<Message>, rest: seq<Message>, resps: seq<Message>, prev: nat)
    requires TimeSorted(rest) && TimeSorted(resps)
    requires forall i :: 0 <= i < |rest| ==> rest[i].ts >= prev
    requires resps != [] ==> prev <= resps[0].ts && forall i :: 0 <= i < |done| ==> done[i].ts < resps[0].ts
    ensures var pending := if resps == [] then None else LastIn(done, prev, resps[0].ts);
      Merge(rest, resps, pending).0 == Pairs(done + rest, resps, prev)
    decreases |rest| + |resps|
  {
    if resps != [] {
      var hi := resps[0].ts;
      if rest != [] && rest[0].ts < hi {
        assert done + rest == (done + [rest[0]]) + rest[1..];
        LastInAppend(done, rest[0], prev, hi);
        MergeIsPairs(done + [rest[0]], rest[1..], resps, prev);
      } else {
        LastInPrefix(done, rest, prev, hi);
        if |resps| > 1 { LastInNone(done, hi, resps[1].ts); }
        MergeIsPairs(done, rest, resps[1..], hi);
      }
    }
  }

  /** Exactly the first `k` messages are earlier than `ts`. */
  ghost predicate SplitAt(ms: seq<Message>, k: int, ts: nat) {
    0 <= k <= |ms| && forall i :: 0 <= i < |ms| ==> (i < k <==> ms[i].ts < ts)
  }

  lemma SplitLater(ms: seq<Message>, k: nat, ts: nat)
    requires ms != [] && ms[0].ts < ts && SplitAt(ms[1..], k, ts)
    ensures SplitAt(ms, k + 1, ts)
  {
    forall i | 0 <= i < |ms| ensures i < k + 1 <==> ms[i].ts < ts {
      if i > 0 { assert ms[i] == ms[1..][i - 1]; }
    }
  }

  lemma {:induction false} MergeLeaves(rest: seq<Message>, resps: seq<Message>, pending: Option<Message>) returns (k: nat)
    requires TimeSorted(rest) && TimeSorted(resps)
    ensures k <= |rest| && Merge(rest, resps, pending).1 == rest[k..]
    ensures resps != [] ==> SplitAt(rest, k, resps[|resps| - 1].ts)
    ensures resps == [] ==> k == 0
    decreases |rest| + |resps|
  {
    if resps == [] {
      k := 0;
    } else if rest != [] && rest[0].ts < resps[0].ts {
      k := MergeLeaves(rest[1..], resps, Some(rest[0]));
      SplitLater(rest, k, resps[|resps| - 1].ts);
      k := k + 1;
    } else {
      k := MergeLeaves(rest, resps[1..], None);
    }
  }

  /** Matching on time-sorted queues: the records are exactly those pairs, and the
      requests left are exactly those not earlier than the last response. */
  lemma MatchingExact(reqs: seq<Message>, resps: seq<Message>)
    requires TimeSorted(reqs) && TimeSorted(resps) && resps != []
    ensures Merge(reqs, resps, None).0 == Pairs(reqs, resps, 0)
    ensures exists k :: SplitAt(reqs, k, resps[|resps| - 1].ts) && Merge(reqs, resps, None).1 == reqs[k..]
  {
    assert [] + reqs == reqs;
    MergeIsPairs([], reqs, resps, 0);
    var k := MergeLeaves(reqs, resps, None);
  }

  // ----- what holds for any queues -----

  function Reqs(rs: seq<Record>): multiset<Message> {
    if rs == [] then multiset{} else multiset{rs[0].req} + Reqs(rs[1..])
  }

  function Resps(rs: seq<Record>): multiset<Message> {
    if rs == [] then multiset{} else multiset{rs[0].resp} + Resps(rs[1..])
  }

  function Held(pending: Option<Message>): multiset<Message> {
    if pending.Some? then multiset{pending.value} else multiset{}
  }

  ghost predicate AllEarlier(rs: seq<Record>) {
    forall i :: 0 <= i < |rs| ==> rs[i].req.ts < rs[i].resp.ts
  }

  /** Even on unsorted queues every record's request is earlier than its response. */
  lemma {:induction false} MatchedEarlier(reqs: seq<Message>, resps: seq<Message>, pending: Option<Message>)
    requires resps != [] && pending.Some? ==> pending.value.ts < resps[0].ts
    ensures AllEarlier(Merge(reqs, resps, pending).0)
    decreases |reqs| + |resps|
  {
    if resps != [] {
      if reqs != [] && reqs[0].ts < resps[0].ts {
        MatchedEarlier(reqs[1..], resps, Some(reqs[0]));
        assert Merge(reqs, resps, pending).0 == Merge(reqs[1..], resps, Some(reqs[0])).0;
      } else {
        MatchedEarlier(reqs, resps[1..], None);
        if pending.Some? {
          var rs := Merge(reqs, resps, pending).0;
          assert rs[1..] == Merge(reqs, resps[1..], None).0;
          forall i | 0 <= i < |rs| ensures rs[i].req.ts < rs[i].resp.ts {
            if i > 0 { assert rs[i] == rs[1..][i - 1]; }
          }
        }
      }
    }
  }

  lemma ReqsCons(r: Record, rs: seq<Record>)
    ensures Reqs([r] + rs) == multiset{r.req} + Reqs(rs) && Resps([r] + rs) == multiset{r.resp} + Resps(rs)
  {
    assert ([r] + rs)[1..] == rs;
  }

  lemma Uncons(ms: seq<Message>)
    requires ms != []
    ensures multiset(ms) == multiset{ms[0]} + multiset(ms[1..])
  {
    assert ms == [ms[0]] + ms[1..];
  }

  /** No request is used twice, or both used and left in the queue. */
  lemma {:induction false} RequestsOnce(reqs: seq<Message>, resps: seq<Message>, pending: Option<Message>)
    ensures var m := Merge(reqs, resps, pending);
      Reqs(m.0) + multiset(m.1) <= multiset(reqs) + Held(pending)
    decreases |reqs| + |resps|
  {
    if resps != [] {
      if reqs != [] && reqs[0].ts < resps[0].ts {
        Uncons(reqs);
        RequestsOnce(reqs[1..], resps, Some(reqs[0]));
        assert Merge(reqs, resps, pending) == Merge(reqs[1..], resps, Some(reqs[0]));
      } else {
        RequestsOnce(reqs, resps[1..], None);
        var m := Merge(reqs, resps[1..], None);
        if pending.Some? {
          ReqsCons(Record(pending.value, resps[0]), m.0);
          AddBothSides(Reqs(m.0), multiset(m.1), multiset(reqs), multiset{pending.value});
        }
      }
    }
  }

  lemma AddBothSides(a: multiset<Message>, b: multiset<Message>, c: multiset<Message>, p: multiset<Message>)
    requires a + b <= c
    ensures p + a + b <= c + p
  {
  }

  /** No response is used twice. */
  lemma {:induction false} ResponsesOnce(reqs: seq<Message>, resps: seq<Message>, pending: Option<Message>)
    ensures Resps(Merge(reqs, resps, pending).0) <= multiset(resps)
    decreases |reqs| + |resps|
  {
    if resps != [] {
      if reqs != [] && reqs[0].ts < resps[0].ts {
        ResponsesOnce(reqs[1..], resps, Some(reqs[0]));
      } else {
        Uncons(resps);
        ResponsesOnce(reqs, resps[1..], None);
        if pending.Some? { ReqsCons(Record(pending.value, resps[0]), Merge(reqs, resps[1..], None).0); }
      }
    }
  }
}
