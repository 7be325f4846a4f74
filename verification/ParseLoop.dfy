/** The parse loop over a reassembly buffer (agent/conn/conntrack.go): what it consumes
    and why it stops. */
module ParseLoop {
  import opened Words
  import opened Options
  import opened Reassembly
  import opened ReassemblyRuns
  import opened TimestampIndex
  import opened StreamBuffers

  datatype MessageType = Request | Response | UnknownType

  datatype Role = Client | Server | UnknownRole

  /** A parsed message; `body` stands for its contents. */
  datatype Parsed = Parsed(isReq: bool, stream: nat, body: nat)

  datatype ParseState = Success | Invalid | NeedsMoreData | Ignore

  datatype ParseResult = ParseResult(state: ParseState, messages: seq<Parsed>, readBytes: nat)

  /** A protocol parser: `boundary` answers -1 when it finds none. */
  datatype Parser = Parser(parse: (State, MessageType) -> ParseResult, boundary: (State, MessageType, nat) -> int)

  /** What the loop needs of a parser on a non-empty buffer: it consumes at least one
      byte and at most what is stored, and finds boundaries inside what is stored. */
  ghost predicate WellBehaved(p: Parser) {
    && (forall st: State, mt: MessageType :: st.chunks != [] ==>
          var r := p.parse(st, mt);
          r.state == Success || r.state == Ignore ==> 1 <= r.readBytes <= Total(st.chunks))
    && (forall st: State, mt: MessageType, from: nat :: st.chunks != [] ==>
          p.boundary(st, mt, from) == -1 || from <= p.boundary(st, mt, from) <= Total(st.chunks))
  }

  type Queues = map<nat, seq<Parsed>>

  function Enqueue(q: Queues, ms: seq<Parsed>): Queues
    decreases ms
  {
    if ms == [] then q
    else Enqueue(q[ms[0].stream := (if ms[0].stream in q then q[ms[0].stream] else []) + [ms[0]]], ms[1..])
  }

  lemma {:induction false} EnqueueConcat(q: Queues, a: seq<Parsed>, b: seq<Parsed>)
    ensures Enqueue(q, a + b) == Enqueue(Enqueue(q, a), b)
    decreases a
  {
    if a == [] {
      assert a + b == b;
    } else {
      assert (a + b)[0] == a[0] && (a + b)[1..] == a[1..] + b;
      EnqueueConcat(q[a[0].stream := (if a[0].stream in q then q[a[0].stream] else []) + [a[0]]], a[1..], b);
    }
  }

  /** The queue of one stream; the messages of one stream, in order. */
  function QueueOf(q: Queues, stream: nat): seq<Parsed> {
    if stream in q then q[stream] else []
  }

  function OfStream(ms: seq<Parsed>, stream: nat): seq<Parsed> {
    if ms == [] then [] else (if ms[0].stream == stream then [ms[0]] else []) + OfStream(ms[1..], stream)
  }

  /** Every stream's queue grows by exactly its own messages, in order. */
  lemma {:induction false} EnqueueByStream(q: Queues, ms: seq<Parsed>, stream: nat)
    ensures QueueOf(Enqueue(q, ms), stream) == QueueOf(q, stream) + OfStream(ms, stream)
    decreases ms
  {
    if ms != [] {
      var m := ms[0];
      var next := q[m.stream := QueueOf(q, m.stream) + [m]];
      EnqueueByStream(next, ms[1..], stream);
      var rest := OfStream(ms[1..], stream);
      if m.stream == stream {
        assert QueueOf(q, stream) + [m] + rest == QueueOf(q, stream) + ([m] + rest);
      } else {
        assert [] + rest == rest;
      }
    }
  }

  /** RemoveHead makes progress exactly when the head holds a byte. */
  lemma RemoveHeadProgress(st: State)
    requires st.chunks != []
    ensures |st.chunks[0].bytes| <= Total(st.chunks)
    ensures Total(Removed(st, |st.chunks[0].bytes|).chunks) < Total(st.chunks) <==> st.chunks[0].bytes != []
    ensures st.chunks[0].bytes == [] ==> Removed(st, |st.chunks[0].bytes|) == st
  {
    RemovedDrops(st, |st.chunks[0].bytes|);
  }

  /** Removing `n` stored bytes leaves the rest of the text. */
  lemma RemovedText(st: State, n: nat, text: seq<byte>, k: nat)
    requires n <= Total(st.chunks) && k <= |text| && Flatten(st.chunks) == text[k..]
    ensures k + n <= |text| && Flatten(Removed(st, n).chunks) == text[k + n..]
    ensures Total(Removed(st, n).chunks) == Total(st.chunks) - n
  {
    RemovedDrops(st, n);
    assert text[k..][n..] == text[k + n..];
  }

  ghost predicate Disjoint(a: StreamBuffer, b: StreamBuffer)
    reads a, b
  {
    && a != b
    && (forall x :: x in a.buffers ==> x !in b.buffers)
    && (forall x :: x in b.buffers ==> x !in a.buffers)
  }

  /** Removing a prefix of one stream leaves another one alone. */
  method RemoveFrom(stream: StreamBuffer, other: StreamBuffer, n: nat)
    requires stream.Valid() && other.Valid() && Disjoint(stream, other) && n <= Total(stream.chunks)
    modifies stream, stream.buffers
    ensures stream.Valid() && other.Valid() && Disjoint(stream, other)
    ensures stream.View() == Removed(old(stream.View()), n) && other.View() == old(other.View())
    ensures other.buffers == old(other.buffers) && forall b :: b in stream.buffers ==> b in old(stream.buffers)
  {
    stream.RemovePrefix(n);
    forall i | 0 <= i < |other.buffers| ensures other.buffers[i].View() == other.chunks[i] {
      assert other.buffers[i] in other.buffers;
    }
  }

  /** The time of the head: that of the greatest indexed position not above its start. */
  ghost function HeadTime(st: State): (t: Option<nat>)
    ensures forall k :: IsFloor(st.times, Position0(st.chunks), k) ==> t == Some(st.times[k])
    ensures t.Some? ==> exists k :: IsFloor(st.times, Position0(st.chunks), k)
  {
    if exists k :: IsFloor(st.times, Position0(st.chunks), k) then
      var k :| IsFloor(st.times, Position0(st.chunks), k);
      Some(st.times[k])
    else None
  }

  /** A head of that time is older than allowed at time `now`, or has no time at all. */
  predicate Overdue(time: Option<nat>, now: int, maxStuck: int) {
    time.None? || now - time.value / 1000000 > maxStuck
  }

  /** In the index's own terms, whose times are nanoseconds: overdue at millisecond `now` is a
      head whose indexed time is more than `maxStuck` whole milliseconds ago, or unknown. */
  lemma OverdueExact(st: State, now: int, maxStuck: int)
    ensures (forall k :: k in st.times ==> k > Position0(st.chunks)) ==> Overdue(HeadTime(st), now, maxStuck)
    ensures forall k :: IsFloor(st.times, Position0(st.chunks), k) ==>
      (Overdue(HeadTime(st), now, maxStuck) <==> now > st.times[k] / 1000000 + maxStuck)
  {
  }

  /** What is skipped of a head without boundary: nothing if it is not stuck; all but the
      latest `keLen` bytes if it is longer; otherwise all of it, if it is still stuck. */
  predicate SkipsStuck(head: nat, keLen: nat, stuck: bool, still: bool, stop: bool, n: nat) {
    if !stuck then stop && n == 0
    else if head > keLen then !stop && n == head - keLen
    else stop == !still && n == if stop then 0 else head
  }

  /** What a call of the parse loop is given besides its buffers; `keLen` is the length of
      the latest event, `ingress` whether it came in. */
  datatype Job = Job(mt: MessageType, parser: Parser, keLen: nat, ingress: bool, clock: nat -> int, maxStuck: int)

  /** The messages that join the queue: all of them, or none if the first is of the other
      kind. */
  function Expected(ms: seq<Parsed>, mt: MessageType): seq<Parsed> {
    if ms != [] && ms[0].isReq != (mt == Request) then [] else ms
  }

  /** A parse that reveals the role of the connection. */
  predicate Reveals(role: Role, r: ParseResult) {
    role == UnknownRole && r.state == Success && r.messages != []
  }

  /** One turn of the loop, as it was: what was stored, the progress time and the clock
      before; the bytes removed, the messages queued, whether it was the last; and what was
      stored and the times after. */
  datatype Turn = Turn(buf: State, last: int, tick: nat, n: nat, accepted: seq<Parsed>, stop: bool,
                       after: State, lastAfter: int, tickAfter: nat)

  /** The clock of a direction starts at its first check. */
  function Started(last: int, now: int): int {
    if last == 0 then now else last
  }

  ghost predicate Stuck(t: Turn, job: Job) {
    t.last != 0 && Overdue(HeadTime(t.buf), job.clock(t.tick), job.maxStuck)
  }

  /** The head goes exactly if it is stuck; otherwise the loop stops. */
  ghost predicate HeadChecked(t: Turn, job: Job)
    requires t.buf.chunks != []
  {
    && t.stop == !Stuck(t, job) && t.n == (if t.stop then 0 else |t.buf.chunks[0].bytes|)
    && t.lastAfter == Started(t.last, job.clock(t.tick)) && t.tickAfter == t.tick + 1
  }

  /** Without a boundary, what is skipped is settled by how long the head has been there. */
  ghost predicate SkippedStuck(t: Turn, job: Job)
    requires t.buf.chunks != []
  {
    var head := |t.buf.chunks[0].bytes|;
    && SkipsStuck(head, job.keLen, Stuck(t, job), Overdue(HeadTime(t.buf), job.clock(t.tick + 1), job.maxStuck), t.stop, t.n)
    && t.lastAfter == Started(t.last, job.clock(t.tick))
    && t.tickAfter == t.tick + if Stuck(t, job) && head <= job.keLen then 2 else 1
  }

  ghost predicate SkippedInvalid(t: Turn, job: Job)
    requires t.buf.chunks != []
  {
    var pos := job.parser.boundary(t.buf, job.mt, 1);
    if pos != -1 then t.n == pos && !t.stop && t.lastAfter == t.last && t.tickAfter == t.tick
    else SkippedStuck(t, job)
  }

  /** What a turn does, by what the parser answers for what is stored. */
  ghost predicate TurnOk(t: Turn, job: Job) {
    && t.buf.chunks != [] && t.n <= Total(t.buf.chunks) && t.after == Removed(t.buf, t.n)
    && var r := job.parser.parse(t.buf, job.mt);
       match r.state
       case Success =>
         t.n == r.readBytes && t.accepted == Expected(r.messages, job.mt) && !t.stop && t.lastAfter == t.last && t.tickAfter == t.tick
       case Ignore => t.n == r.readBytes && t.accepted == [] && !t.stop && t.lastAfter == t.last && t.tickAfter == t.tick
       case NeedsMoreData => t.accepted == [] && HeadChecked(t, job)
       case Invalid => t.accepted == [] && SkippedInvalid(t, job)
  }

  ghost predicate Follows(a: Turn, b: Turn) {
    !a.stop && b.buf == a.after && b.last == a.lastAfter && b.tick == a.tickAfter
  }

  /** Turns one after the other, from the given state and times on. */
  ghost predicate Chained(turns: seq<Turn>, st: State, last: int, tick: nat, job: Job) {
    && (turns != [] ==> turns[0].buf == st && turns[0].last == last && turns[0].tick == tick)
    && (forall i :: 0 <= i < |turns| ==> TurnOk(turns[i], job))
    && (forall i :: 0 <= i < |turns| - 1 ==> Follows(turns[i], turns[i + 1]))
  }

  /** What is stored after the turns. */
  function Left(turns: seq<Turn>, st: State): State {
    if turns == [] then st else turns[|turns| - 1].after
  }

  predicate Stopped(turns: seq<Turn>) {
    turns != [] && turns[|turns| - 1].stop
  }

  /** The messages the turns queued, in order, and the bytes they removed. */
  function Accepted(turns: seq<Turn>): seq<Parsed> {
    if turns == [] then [] else Accepted(turns[..|turns| - 1]) + turns[|turns| - 1].accepted
  }

  function Consumed(turns: seq<Turn>): nat {
    if turns == [] then 0 else Consumed(turns[..|turns| - 1]) + turns[|turns| - 1].n
  }

  lemma {:induction false} OneMoreTurn(turns: seq<Turn>, t: Turn, st: State, last: int, tick: nat, job: Job)
    requires Chained(turns, st, last, tick, job) && TurnOk(t, job)
    requires if turns == [] then t.buf == st && t.last == last && t.tick == tick else Follows(turns[|turns| - 1], t)
    ensures Chained(turns + [t], st, last, tick, job)
    ensures Accepted(turns + [t]) == Accepted(turns) + t.accepted && Consumed(turns + [t]) == Consumed(turns) + t.n
  {
    var more := turns + [t];
    assert more[..|more| - 1] == turns;
    forall i | 0 <= i < |more| - 1 ensures Follows(more[i], more[i + 1]) {
      assert more[i] == turns[i];
      if i + 1 < |turns| { assert more[i + 1] == turns[i + 1]; }
    }
  }

  lemma {:induction false} FewerTurns(turns: seq<Turn>, st: State, last: int, tick: nat, job: Job)
    requires Chained(turns, st, last, tick, job) && turns != []
    ensures Chained(turns[..|turns| - 1], st, last, tick, job)
    ensures turns[|turns| - 1].buf == Left(turns[..|turns| - 1], st)
  {
    var n := |turns| - 1;
    var before := turns[..n];
    assert forall i :: 0 <= i < n ==> before[i] == turns[i];
    if n > 0 { assert Follows(turns[n - 1], turns[n]); }
  }

  lemma TurnText(t: Turn, job: Job, text: seq<byte>, k: nat)
    requires TurnOk(t, job) && k <= |text| && Flatten(t.buf.chunks) == text[k..]
    ensures k + t.n <= |text| && Flatten(t.after.chunks) == text[k + t.n..]
  {
    RemovedText(t.buf, t.n, text, k);
  }

  /** Each turn parses what the turns before it left of the text. */
  lemma {:induction false} TurnsText(turns: seq<Turn>, st: State, last: int, tick: nat, job: Job)
    requires Chained(turns, st, last, tick, job)
    ensures Consumed(turns) <= |Flatten(st.chunks)|
    ensures Flatten(Left(turns, st).chunks) == Flatten(st.chunks)[Consumed(turns)..]
    decreases |turns|
  {
    if turns != [] {
      var n := |turns| - 1;
      FewerTurns(turns, st, last, tick, job);
      TurnsText(turns[..n], st, last, tick, job);
      TurnText(turns[n], job, Flatten(st.chunks), Consumed(turns[..n]));
    }
  }

  /** A connection as one direction sees it. */
  datatype Moment = Moment(role: Role, buf: State, other: State, queue: Queues, otherQueue: Queues, last: int, tick: nat)

  /** The turn that led from one moment to the next. */
  function TurnOf(a: Moment, b: Moment, n: nat, accepted: seq<Parsed>, stop: bool): Turn {
    Turn(a.buf, a.last, a.tick, n, accepted, stop, b.buf, b.last, b.tick)
  }

  /** Nothing is stored or queued any more, and the role is what the first message shows:
      an incoming request or outgoing response makes a server. */
  predicate RoleFound(a: Moment, b: Moment, first: Parsed, job: Job) {
    b == Moment(if job.ingress == first.isReq then Server else Client, EMPTY, EMPTY, map[], map[], a.last, a.tick)
  }

  /** One turn: a parse that reveals the role forgets everything; otherwise the parser's
      answer settles what is removed and queued, and nothing else changes. */
  ghost predicate TookTurn(a: Moment, b: Moment, n: nat, accepted: seq<Parsed>, stop: bool, job: Job)
    requires a.buf.chunks != []
  {
    var r := job.parser.parse(a.buf, job.mt);
    if Reveals(a.role, r) then !stop && RoleFound(a, b, r.messages[0], job)
    else
      && TurnOk(TurnOf(a, b, n, accepted, stop), job) && (stop || n > 0)
      && b.role == a.role && b.other == a.other && b.otherQueue == a.otherQueue && b.queue == Enqueue(a.queue, accepted)
  }

  function LastOf(turns: seq<Turn>, last: int): int {
    if turns == [] then last else turns[|turns| - 1].lastAfter
  }

  function TickOf(turns: seq<Turn>, tick: nat): nat {
    if turns == [] then tick else turns[|turns| - 1].tickAfter
  }

  /** The turns follow each other from `a` on, and none of them revealed the role. */
  ghost predicate Turned(turns: seq<Turn>, a: Moment, job: Job) {
    && Chained(turns, a.buf, a.last, a.tick, job)
    && forall i :: 0 <= i < |turns| ==> !Reveals(a.role, job.parser.parse(turns[i].buf, job.mt))
  }

  /** Where turns without a role discovery lead: what they left is stored, their messages
      are queued in order, the other direction and the role are as they were. */
  predicate Reached(turns: seq<Turn>, a: Moment, b: Moment) {
    b == Moment(a.role, Left(turns, a.buf), a.other, Enqueue(a.queue, Accepted(turns)), a.otherQueue,
                LastOf(turns, a.last), TickOf(turns, a.tick))
  }

  /** The turns led to a state that reveals the role. */
  ghost predicate FoundRole(turns: seq<Turn>, a: Moment, b: Moment, job: Job) {
    var end := Left(turns, a.buf);
    && !Stopped(turns) && end.chunks != []
    && var r := job.parser.parse(end, job.mt);
       Reveals(a.role, r) && RoleFound(a.(last := LastOf(turns, a.last), tick := TickOf(turns, a.tick)), b, r.messages[0], job)
  }

  /** What the whole loop does: its turns lead to a role discovery, or to a turn that
      stops, or to an empty buffer. */
  ghost predicate Looped(turns: seq<Turn>, a: Moment, b: Moment, job: Job) {
    && Turned(turns, a, job)
    && (FoundRole(turns, a, b, job) || (Reached(turns, a, b) && (Stopped(turns) || b.buf.chunks == [])))
  }

  lemma NextTurn(turns: seq<Turn>, a: Moment, m: Moment, b: Moment, n: nat, ms: seq<Parsed>, stop: bool, job: Job)
    requires Turned(turns, a, job) && Reached(turns, a, m) && !Stopped(turns) && m.buf.chunks != []
    requires TookTurn(m, b, n, ms, stop, job)
    ensures Reveals(a.role, job.parser.parse(m.buf, job.mt)) ==> FoundRole(turns, a, b, job)
    ensures !Reveals(a.role, job.parser.parse(m.buf, job.mt)) ==>
      var more := turns + [TurnOf(m, b, n, ms, stop)];
      Turned(more, a, job) && Reached(more, a, b) && Stopped(more) == stop
  {
    if !Reveals(a.role, job.parser.parse(m.buf, job.mt)) {
      OneMoreTurn(turns, TurnOf(m, b, n, ms, stop), a.buf, a.last, a.tick, job);
      EnqueueConcat(a.queue, Accepted(turns), ms);
    }
  }

  lemma Shrinks(a: Moment, b: Moment, n: nat, ms: seq<Parsed>, stop: bool, job: Job)
    requires a.buf.chunks != [] && NonEmpty(a.buf.chunks) && TookTurn(a, b, n, ms, stop, job)
    ensures stop || Total(b.buf.chunks) < Total(a.buf.chunks)
    ensures Total(b.buf.chunks) <= Total(a.buf.chunks)
  {
    HeadCounts(a.buf);
    if !Reveals(a.role, job.parser.parse(a.buf, job.mt)) { RemovedText(a.buf, n, Flatten(a.buf.chunks), 0); }
  }

  /** The bytes before the first boundary, if there is one. */
  function BoundarySkip(st: State, job: Job): nat {
    var pos := job.parser.boundary(st, job.mt, 0);
    if pos > 0 then pos else 0
  }

  /** What `parseStreamBuffer` does: the loop, from the first boundary on; then the time of
      the last progress is set if the buffer is empty or starts elsewhere. */
  ghost predicate ParsedFrom(turns: seq<Turn>, a: Moment, b: Moment, job: Job)
    requires BoundarySkip(a.buf, job) <= Total(a.buf.chunks)
  {
    var start := a.(buf := Removed(a.buf, BoundarySkip(a.buf, job)));
    var last, tick := LastOf(turns, a.last), TickOf(turns, a.tick);
    && Looped(turns, start, b.(last := last, tick := tick), job)
    && if b.buf.chunks == [] || Position0(b.buf.chunks) != Position0(start.buf.chunks)
       then b.last == job.clock(tick) && b.tick == tick + 1
       else b.last == last && b.tick == tick
  }

  class Connection {
    var role: Role
    const req: StreamBuffer
    const resp: StreamBuffer
    var reqQueue: Queues
    var respQueue: Queues
    var lastReqProgress: int
    var lastRespProgress: int
    var ticks: nat // how often the clock was read
    ghost var repr: set<Buffer>

    constructor (capacity: int)
      ensures Valid() && role == UnknownRole && Buf(true) == EMPTY && Buf(false) == EMPTY
    {
      req := new StreamBuffer(capacity);
      resp := new StreamBuffer(capacity);
      role, reqQueue, respQueue, lastReqProgress, lastRespProgress, ticks := UnknownRole, map[], map[], 0, 0, 0;
      repr := {};
    }

    /** The two stream buffers share nothing, their buffers lie in `repr`, and no stored
        chunk is empty: callers only ever add data. */
    ghost predicate Valid()
      reads this, req, resp, repr
    {
      && (forall b :: b in req.buffers ==> b in repr) && (forall b :: b in resp.buffers ==> b in repr)
      && req.Valid() && resp.Valid() && Disjoint(req, resp)
      && NonEmpty(req.chunks) && NonEmpty(resp.chunks)
    }

    function Stream(isReq: bool): StreamBuffer {
      if isReq then req else resp
    }

    ghost function Buf(isReq: bool): State
      reads Stream(isReq)
    {
      Stream(isReq).View()
    }

    ghost function Now(isReq: bool): Moment
      reads this, req, resp
    {
      Moment(role, Buf(isReq), Buf(!isReq), Queue(isReq), Queue(!isReq), LastProgress(isReq), ticks)
    }

    /** Nothing is stored or queued. */
    ghost predicate Forgotten()
      reads this, req, resp
    {
      Buf(true) == EMPTY && Buf(false) == EMPTY && reqQueue == map[] && respQueue == map[]
    }

    function Queue(isReq: bool): Queues
      reads this
    {
      if isReq then reqQueue else respQueue
    }

    function LastProgress(isReq: bool): int
      reads this
    {
      if isReq then lastReqProgress else lastRespProgress
    }

    method ReadClock(clock: nat -> int) returns (t: int)
      modifies this`ticks
      ensures t == clock(old(ticks)) && ticks == old(ticks) + 1
    {
      t := clock(ticks);
      ticks := ticks + 1;
    }

    method UpdateProgressTime(isReq: bool, clock: nat -> int)
      modifies this`ticks, this`lastReqProgress, this`lastRespProgress
      ensures LastProgress(isReq) == clock(old(ticks)) && LastProgress(!isReq) == old(LastProgress(!isReq))
      ensures ticks == old(ticks) + 1
    {
      var t := ReadClock(clock);
      if isReq { lastReqProgress := t; } else { lastRespProgress := t; }
    }

    method RemovePrefix(isReq: bool, n: nat)
      requires Valid() && n <= Total(Buf(isReq).chunks)
      modifies req, resp, repr
      ensures Valid()
      ensures Buf(isReq) == Removed(old(Buf(isReq)), n) && Buf(!isReq) == old(Buf(!isReq))
    {
      RemovedKeeps(Buf(isReq), n);
      if isReq { RemoveFrom(req, resp, n); } else { RemoveFrom(resp, req, n); }
    }

    /** Whether the head is older than allowed, or has no timestamp at all. */
    method HeadTooOld(isReq: bool, clock: nat -> int, maxStuck: int) returns (old': bool)
      requires Valid()
      modifies this`ticks
      ensures ticks == old(ticks) + 1 && old' == Overdue(HeadTime(Buf(isReq)), clock(old(ticks)), maxStuck)
    {
      var headTime, ok := Stream(isReq).FindTimestampBySeq(Stream(isReq).Pos0());
      var now := ReadClock(clock);
      old' := !ok || now - headTime / 1000000 > maxStuck;
    }

    /** The first call only starts the clock of its direction. */
    method ProgressIsStucked(isReq: bool, clock: nat -> int, maxStuck: int) returns (stuck: bool)
      requires Valid()
      modifies this`ticks, this`lastReqProgress, this`lastRespProgress
      ensures ticks == old(ticks) + 1 && LastProgress(!isReq) == old(LastProgress(!isReq))
      ensures LastProgress(isReq) == Started(old(LastProgress(isReq)), clock(old(ticks)))
      ensures stuck == (old(LastProgress(isReq)) != 0 && Overdue(HeadTime(Buf(isReq)), clock(old(ticks)), maxStuck))
    {
      if LastProgress(isReq) == 0 {
        UpdateProgressTime(isReq, clock);
        return false;
      }
      stuck := HeadTooOld(isReq, clock, maxStuck);
    }

    /** Drops the head chunk exactly if it is overdue and the clock had been started. */
    method CheckProgress(isReq: bool, clock: nat -> int, maxStuck: int) returns (removed: bool)
      requires Valid() && Buf(isReq).chunks != []
      modifies this`ticks, this`lastReqProgress, this`lastRespProgress, req, resp, repr
      ensures Valid() && Buf(!isReq) == old(Buf(!isReq))
      ensures removed == (old(LastProgress(isReq)) != 0 && Overdue(HeadTime(old(Buf(isReq))), clock(old(ticks)), maxStuck))
      ensures LastProgress(isReq) == Started(old(LastProgress(isReq)), clock(old(ticks))) && ticks == old(ticks) + 1
      ensures Buf(isReq) ==
        if removed then Removed(old(Buf(isReq)), |old(Buf(isReq)).chunks[0].bytes|) else old(Buf(isReq))
      ensures |old(Buf(isReq)).chunks[0].bytes| <= Total(old(Buf(isReq)).chunks)
    {
      RemoveHeadProgress(Buf(isReq));
      if LastProgress(isReq) == 0 {
        UpdateProgressTime(isReq, clock);
        return false;
      }
      var tooOld := HeadTooOld(isReq, clock, maxStuck);
      if tooOld {
        RemovePrefix(isReq, |Stream(isReq).buffers[0].buf|);
        return true;
      }
      return false;
    }

    method ResetParseProgress()
      requires Valid()
      modifies req, resp, repr, this`reqQueue, this`respQueue
      ensures Valid() && Forgotten()
    {
      req.Clear();
      resp.Clear();
      reqQueue, respQueue := map[], map[];
    }

    method QueueMessages(isReq: bool, ms: seq<Parsed>)
      modifies this`reqQueue, this`respQueue
      ensures Queue(isReq) == Enqueue(old(Queue(isReq)), ms) && Queue(!isReq) == old(Queue(!isReq))
    {
      if isReq { reqQueue := Enqueue(reqQueue, ms); } else { respQueue := Enqueue(respQueue, ms); }
    }

    /** A first message while the role is unknown: it reveals the role, and everything
        stored and queued is forgotten. */
    method DiscoverRole(first: Parsed, ingress: bool)
      requires Valid()
      modifies this`role, req, resp, repr, this`reqQueue, this`respQueue
      ensures Valid() && Forgotten()
      ensures role == if ingress == first.isReq then Server else Client
    {
      if (ingress && first.isReq) || (!ingress && !first.isReq) {
        role := Server;
      } else {
        role := Client;
      }
      ResetParseProgress();
    }

    /** Messages of the expected kind join the queue; the bytes read go either way. */
    method TakeMessages(isReq: bool, mt: MessageType, r: ParseResult) returns (ghost accepted: seq<Parsed>)
      requires Valid() && r.readBytes <= Total(Buf(isReq).chunks)
      modifies req, resp, repr, this`reqQueue, this`respQueue
      ensures Valid()
      ensures Buf(isReq) == Removed(old(Buf(isReq)), r.readBytes) && Buf(!isReq) == old(Buf(!isReq))
      ensures accepted == Expected(r.messages, mt)
      ensures Queue(isReq) == Enqueue(old(Queue(isReq)), accepted) && Queue(!isReq) == old(Queue(!isReq))
    {
      accepted := [];
      if !(|r.messages| > 0 && r.messages[0].isReq != (mt == Request)) {
        accepted := r.messages;
        QueueMessages(isReq, r.messages);
      }
      RemovePrefix(isReq, r.readBytes);
    }

    /** A parse result of state Success; `accepted` is what joins the queue. */
    method OnSuccess(isReq: bool, job: Job, r: ParseResult) returns (ghost accepted: seq<Parsed>)
      requires Valid() && Buf(isReq).chunks != [] && r == job.parser.parse(Buf(isReq), job.mt) && r.state == Success
      requires 1 <= r.readBytes <= Total(Buf(isReq).chunks)
      modifies this`role, req, resp, repr, this`reqQueue, this`respQueue
      ensures Valid()
      ensures TookTurn(old(Now(isReq)), Now(isReq), r.readBytes, accepted, false, job)
    {
      accepted := [];
      if role == UnknownRole && |r.messages| > 0 {
        DiscoverRole(r.messages[0], job.ingress);
      } else {
        accepted := TakeMessages(isReq, job.mt, r);
      }
    }

    /** The parser looks for a message boundary in what is stored. */
    method FindBoundary(isReq: bool, mt: MessageType, parser: Parser, from: nat) returns (pos: int)
      requires Valid() && WellBehaved(parser) && Buf(isReq).chunks != []
      ensures pos == parser.boundary(Buf(isReq), mt, from) && (pos == -1 || from <= pos <= Total(Buf(isReq).chunks))
    {
      var buf := Stream(isReq).Snapshot();
      pos := parser.boundary(buf, mt, from);
    }

    /** The parser reads what is stored. */
    method Parse(isReq: bool, mt: MessageType, parser: Parser) returns (r: ParseResult)
      requires Valid() && WellBehaved(parser) && Buf(isReq).chunks != []
      ensures r == parser.parse(Buf(isReq), mt)
      ensures r.state == Success || r.state == Ignore ==> 1 <= r.readBytes <= Total(Buf(isReq).chunks)
    {
      var buf := Stream(isReq).Snapshot();
      r := parser.parse(buf, mt);
    }

    method HeadLength(isReq: bool) returns (n: nat)
      requires Valid() && Buf(isReq).chunks != []
      ensures n == |Buf(isReq).chunks[0].bytes| && 0 < n <= Total(Buf(isReq).chunks)
    {
      RemoveHeadProgress(Buf(isReq));
      n := |Stream(isReq).buffers[0].buf|;
    }

    /** A parse result of state NeedsMoreData: the head goes if it is stuck. */
    method OnNeedsMoreData(isReq: bool, job: Job) returns (stop: bool, ghost n: nat)
      requires Valid() && Buf(isReq).chunks != []
      modifies this`ticks, this`lastReqProgress, this`lastRespProgress, req, resp, repr
      ensures Valid() && n <= Total(old(Buf(isReq)).chunks) && (stop || n > 0)
      ensures Buf(isReq) == Removed(old(Buf(isReq)), n) && Buf(!isReq) == old(Buf(!isReq))
      ensures HeadChecked(TurnOf(old(Now(isReq)), Now(isReq), n, [], stop), job)
    {
      n := 0;
      ghost var head := |Buf(isReq).chunks[0].bytes|;
      var removed := CheckProgress(isReq, job.clock, job.maxStuck);
      stop := !removed;
      if removed { n := head; }
    }

    /** Past the old part of a stuck head. */
    method SkipOldPart(isReq: bool, job: Job) returns (stop: bool, ghost n: nat)
      requires Valid() && Buf(isReq).chunks != [] && LastProgress(isReq) != 0
      modifies this`ticks, this`lastReqProgress, this`lastRespProgress, req, resp, repr
      ensures Valid() && n <= Total(old(Buf(isReq)).chunks) && (stop || n > 0)
      ensures Buf(isReq) == Removed(old(Buf(isReq)), n) && Buf(!isReq) == old(Buf(!isReq))
      ensures SkipsStuck(|old(Buf(isReq)).chunks[0].bytes|, job.keLen, true,
                         Overdue(HeadTime(old(Buf(isReq))), job.clock(old(ticks)), job.maxStuck), stop, n)
      ensures LastProgress(isReq) == old(LastProgress(isReq))
      ensures ticks == old(ticks) + if |old(Buf(isReq)).chunks[0].bytes| <= job.keLen then 1 else 0
    {
      var head := HeadLength(isReq);
      if head > job.keLen {
        RemovePrefix(isReq, head - job.keLen);
        stop, n := false, head - job.keLen;
      } else {
        stop, n := OnNeedsMoreData(isReq, job);
      }
    }

    /** Past the old part of the head, if it is stuck. */
    method SkipStuck(isReq: bool, job: Job) returns (stop: bool, ghost n: nat)
      requires Valid() && Buf(isReq).chunks != []
      modifies this`ticks, this`lastReqProgress, this`lastRespProgress, req, resp, repr
      ensures Valid() && n <= Total(old(Buf(isReq)).chunks) && (stop || n > 0)
      ensures Buf(isReq) == Removed(old(Buf(isReq)), n) && Buf(!isReq) == old(Buf(!isReq))
      ensures SkippedStuck(TurnOf(old(Now(isReq)), Now(isReq), n, [], stop), job)
    {
      stop, n := true, 0;
      var stuck := ProgressIsStucked(isReq, job.clock, job.maxStuck);
      if stuck {
        stop, n := SkipOldPart(isReq, job);
      }
    }

    /** A parse result of state Invalid: skip to the next boundary, or past stuck data,
        or give up for now. */
    method OnInvalid(isReq: bool, job: Job) returns (stop: bool, ghost n: nat)
      requires Valid() && WellBehaved(job.parser) && Buf(isReq).chunks != []
      modifies this`ticks, this`lastReqProgress, this`lastRespProgress, req, resp, repr
      ensures Valid() && n <= Total(old(Buf(isReq)).chunks) && (stop || n > 0)
      ensures Buf(isReq) == Removed(old(Buf(isReq)), n) && Buf(!isReq) == old(Buf(!isReq))
      ensures SkippedInvalid(TurnOf(old(Now(isReq)), Now(isReq), n, [], stop), job)
    {
      var pos := FindBoundary(isReq, job.mt, job.parser, 1);
      if pos != -1 {
        RemovePrefix(isReq, pos);
        stop, n := false, pos;
      } else {
        stop, n := SkipStuck(isReq, job);
      }
    }

    /** The parse results other than Success: they touch no queue and no role. */
    method OnOther(isReq: bool, job: Job, r: ParseResult) returns (stop: bool, ghost n: nat)
      requires Valid() && WellBehaved(job.parser) && Buf(isReq).chunks != []
      requires r == job.parser.parse(Buf(isReq), job.mt) && r.state != Success
      requires r.state == Ignore ==> 1 <= r.readBytes <= Total(Buf(isReq).chunks)
      modifies this`ticks, this`lastReqProgress, this`lastRespProgress, req, resp, repr
      ensures Valid() && (stop || n > 0)
      ensures Buf(!isReq) == old(Buf(!isReq))
      ensures TurnOk(TurnOf(old(Now(isReq)), Now(isReq), n, [], stop), job)
    {
      stop, n := false, 0;
      match r.state
      case Invalid =>
        stop, n := OnInvalid(isReq, job);
      case NeedsMoreData =>
        stop, n := OnNeedsMoreData(isReq, job);
      case Ignore =>
        RemovePrefix(isReq, r.readBytes);
        n := r.readBytes;
    }

    /** One turn of the loop: a parse that reveals the role forgets everything; otherwise
        what happens is settled by the parser's answer, and the loop stops or at least one
        byte goes. */
    method ParseOnce(isReq: bool, job: Job) returns (stop: bool, ghost n: nat, ghost accepted: seq<Parsed>)
      requires Valid() && WellBehaved(job.parser) && Buf(isReq).chunks != []
      modifies this`role, this`reqQueue, this`respQueue, this`ticks, this`lastReqProgress, this`lastRespProgress, req, resp, repr
      ensures Valid()
      ensures TookTurn(old(Now(isReq)), Now(isReq), n, accepted, stop, job)
    {
      stop, n, accepted := false, 0, [];
      var r := Parse(isReq, job.mt, job.parser);
      if r.state == Success {
        accepted := OnSuccess(isReq, job, r);
        n := r.readBytes;
      } else {
        stop, n := OnOther(isReq, job, r);
      }
    }

    /** Drops what precedes the first boundary. */
    method SkipToBoundary(isReq: bool, job: Job) returns (ghost n: nat)
      requires Valid() && WellBehaved(job.parser) && Buf(isReq).chunks != []
      modifies req, resp, repr
      ensures Valid() && n <= Total(old(Buf(isReq)).chunks)
      ensures Buf(isReq) == Removed(old(Buf(isReq)), n) && Buf(!isReq) == old(Buf(!isReq))
      ensures n == BoundarySkip(old(Buf(isReq)), job)
    {
      n := 0;
      var startPos := FindBoundary(isReq, job.mt, job.parser, 0);
      if startPos == -1 {
        startPos := 0;
      }
      if startPos > 0 {
        RemovePrefix(isReq, startPos);
        n := startPos;
      }
    }

    /** The loop of `parseStreamBuffer`; it terminates for every clock. */
    method ParseAll(isReq: bool, job: Job) returns (ghost turns: seq<Turn>)
      requires Valid() && WellBehaved(job.parser)
      modifies this`role, this`reqQueue, this`respQueue, this`ticks, this`lastReqProgress, this`lastRespProgress, req, resp, repr
      ensures Valid() && Looped(turns, old(Now(isReq)), Now(isReq), job)
    {
      turns := [];
      ghost var a, found := Now(isReq), false;
      var stop := false;
      while !stop && !Stream(isReq).IsEmpty()
        invariant Valid() && Turned(turns, a, job)
        invariant found ==> FoundRole(turns, a, Now(isReq), job) && Buf(isReq).chunks == []
        invariant !found ==> Reached(turns, a, Now(isReq)) && Stopped(turns) == stop
        decreases Total(Buf(isReq).chunks), !stop
      {
        ghost var m, n, ms := Now(isReq), 0, [];
        stop, n, ms := ParseOnce(isReq, job);
        Shrinks(m, Now(isReq), n, ms, stop, job);
        NextTurn(turns, a, m, Now(isReq), n, ms, stop, job);
        found := Reveals(a.role, job.parser.parse(m.buf, job.mt));
        if !found { turns := turns + [TurnOf(m, Now(isReq), n, ms, stop)]; }
      }
    }

    method ParseFromBoundary(isReq: bool, job: Job) returns (originPos: nat, ghost turns: seq<Turn>)
      requires Valid() && WellBehaved(job.parser) && Buf(isReq).chunks != []
      modifies this`role, this`reqQueue, this`respQueue, this`ticks, this`lastReqProgress, this`lastRespProgress, req, resp, repr
      ensures Valid()
      ensures BoundarySkip(old(Buf(isReq)), job) <= Total(old(Buf(isReq)).chunks)
      ensures var start := Removed(old(Buf(isReq)), BoundarySkip(old(Buf(isReq)), job));
        originPos == Position0(start.chunks) && Looped(turns, old(Now(isReq)).(buf := start), Now(isReq), job)
    {
      ghost var n := SkipToBoundary(isReq, job);
      originPos := Stream(isReq).Pos0();
      turns := ParseAll(isReq, job);
    }

    /** `parseStreamBuffer` of what a direction has stored, for every clock: what precedes
        the first boundary goes, and then the turns of the loop take it from there. Only the
        time of the last progress may change after them. */
    method ParseStreamBuffer(isReq: bool, job: Job) returns (ghost turns: seq<Turn>)
      requires Valid() && WellBehaved(job.parser)
      modifies this`role, this`reqQueue, this`respQueue, this`ticks, this`lastReqProgress, this`lastRespProgress, req, resp, repr
      ensures Valid()
      ensures old(Buf(isReq)).chunks == [] ==> Now(isReq) == old(Now(isReq))
      ensures old(Buf(isReq)).chunks != [] ==>
        BoundarySkip(old(Buf(isReq)), job) <= Total(old(Buf(isReq)).chunks)
        && ParsedFrom(turns, old(Now(isReq)), Now(isReq), job)
    {
      turns := [];
      if Stream(isReq).IsEmpty() {
        return;
      }
      var originPos;
      originPos, turns := ParseFromBoundary(isReq, job);
      NoteProgress(isReq, originPos, job.clock);
    }

    method NoteProgress(isReq: bool, originPos: nat, clock: nat -> int)
      requires Valid()
      modifies this`ticks, this`lastReqProgress, this`lastRespProgress
      ensures Valid() && LastProgress(!isReq) == old(LastProgress(!isReq))
      ensures LastProgress(isReq) == if Buf(isReq).chunks == [] || Position0(Buf(isReq).chunks) != originPos
                                     then clock(old(ticks)) else old(LastProgress(isReq))
      ensures ticks == old(ticks) + if Buf(isReq).chunks == [] || Position0(Buf(isReq).chunks) != originPos then 1 else 0
    {
      if Stream(isReq).IsEmpty() || Stream(isReq).Pos0() != originPos {
        UpdateProgressTime(isReq, clock);
      }
    }
  }

  lemma HeadCounts(st: State)
    requires st.chunks != [] && NonEmpty(st.chunks)
    ensures Total(st.chunks) > 0
  {
    assert st.chunks[0].bytes != [];
  }
}
