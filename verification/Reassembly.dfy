/** The reassembly buffer of agent/buffer/stream_buffer.go as a value: an ordered
    list of chunks and a timestamp index, with the exact step each operation takes. */
module Reassembly {
  import opened Words
  import opened Options

  /** One `Buffer`: the bytes held from position `left` on. */
  datatype Chunk = Chunk(left: nat, bytes: seq<byte>) {
    function Right(): nat { left + |bytes| }

    predicate Has(p: int) { left <= p < Right() }
  }

  const MAX_BYTES_GAP: nat := 1024 * 1024
  const OVERFLOW_GAP: nat := (TWO_32 - 1) / 2
  const MAX_TIMESTAMP_ENTRIES: nat := 100000

  predicate CanFuseAsLeft(b: Chunk, s: Chunk) {
    b.Right() >= s.left && b.left <= s.left && s.Right() >= b.Right()
  }

  predicate CanFuseAsRight(b: Chunk, s: Chunk) {
    b.left <= s.Right() && b.Right() >= s.Right() && b.left >= s.left
  }

  /** `b` extended on its right by the part of `s` it does not hold yet. */
  function FuseLeft(b: Chunk, s: Chunk): Chunk
    requires CanFuseAsLeft(b, s)
  {
    Chunk(b.left, b.bytes + s.bytes[b.Right() - s.left..])
  }

  /** `b` extended on its left by the part of `s` it does not hold yet. */
  function FuseRight(b: Chunk, s: Chunk): Chunk
    requires CanFuseAsRight(b, s)
  {
    Chunk(s.left, s.bytes[..b.left - s.left] + b.bytes)
  }

  /** The first index whose chunk starts after `p`. */
  function Upto(cs: seq<Chunk>, p: nat): (i: nat)
    ensures i <= |cs|
    ensures forall j :: 0 <= j < i ==> cs[j].left <= p
    ensures i < |cs| ==> cs[i].left > p
  {
    if cs == [] || cs[0].left > p then 0 else 1 + Upto(cs[1..], p)
  }

  /** The chunk `s` becomes once fused with the neighbours that can take it; `i` is
      the index of the chunk on its right. */
  function Fused(cs: seq<Chunk>, i: nat, s: Chunk): Chunk
    requires i <= |cs|
  {
    var f := if FusesLeft(cs, i, s) then FuseLeft(cs[i - 1], s) else s;
    if FusesRight(cs, i, s) then FuseRight(cs[i], f) else f
  }

  predicate FusesLeft(cs: seq<Chunk>, i: nat, s: Chunk)
    requires i <= |cs|
  {
    i > 0 && CanFuseAsLeft(cs[i - 1], s)
  }

  predicate FusesRight(cs: seq<Chunk>, i: nat, s: Chunk)
    requires i <= |cs|
  {
    i < |cs| && CanFuseAsRight(cs[i], s)
  }

  /** The chunks kept before and after the fused one. */
  function Before(cs: seq<Chunk>, i: nat, s: Chunk): seq<Chunk>
    requires i <= |cs|
  {
    if FusesLeft(cs, i, s) then cs[..i - 1] else cs[..i]
  }

  function After(cs: seq<Chunk>, i: nat, s: Chunk): seq<Chunk>
    requires i <= |cs|
  {
    if FusesRight(cs, i, s) then cs[i + 1..] else cs[i..]
  }

  /** Where `s` goes among the chunks: fused to the chunk on its left, to the one
      on its right, to both, or put between them. */
  function Merge(cs: seq<Chunk>, s: Chunk): seq<Chunk> {
    var i := Upto(cs, s.left);
    Before(cs, i, s) + [Fused(cs, i, s)] + After(cs, i, s)
  }

  function Position0(cs: seq<Chunk>): nat {
    if cs == [] then 0 else cs[0].left
  }

  function PositionN(cs: seq<Chunk>): nat {
    if cs == [] then 0 else cs[|cs| - 1].Right()
  }

  /** How many front chunks eviction drops to bring the span down to `cap`. */
  function Evicted(cs: seq<Chunk>, cap: nat): (k: nat)
    ensures k <= |cs|
  {
    if cs != [] && Sub64(PositionN(cs), Position0(cs)) > cap then 1 + Evicted(cs[1..], cap) else 0
  }

  /** The index without the entries strictly below `target`. */
  function CleanBelow(times: map<nat, nat>, target: nat): map<nat, nat> {
    map k | k in times && k >= target :: times[k]
  }

  lemma MinExists(s: set<nat>, n: nat)
    requires exists k :: k in s && k <= n
    ensures exists m :: m in s && forall k :: k in s ==> m <= k
  {
    if k :| k in s && k < n {
      MinExists(s, k);
    }
  }

  ghost function Min(s: set<nat>): (m: nat)
    requires s != {}
    ensures m in s && forall k :: k in s ==> m <= k
  {
    var x :| x in s;
    MinExists(s, x);
    var m :| m in s && forall k :: k in s ==> m <= k;
    m
  }

  /** The first `n` keys an ascending iterator visits. */
  ghost function Smallest(s: set<nat>, n: nat): (r: set<nat>)
    requires n <= |s|
    ensures r <= s && |r| == n
    ensures forall a, b :: a in r && b in s && b !in r ==> a < b
  {
    if n == 0 then {}
    else
      var m := Min(s);
      var rest := Smallest(s - {m}, n - 1);
      {m} + rest
  }

  /** `cleanOldTimestamps`: past the limit, forget the lower half of the index. */
  ghost function CleanOld(times: map<nat, nat>): map<nat, nat> {
    if |times| <= MAX_TIMESTAMP_ENTRIES then times
    else times - Smallest(times.Keys, |times| / 2)
  }

  datatype State = State(chunks: seq<Chunk>, times: map<nat, nat>)

  const EMPTY := State([], map[])

  /** Which branch of `Add` a segment takes. */
  datatype Route = Duplicate | First | Wrapped | TooOld | Gap | MergePath

  function RouteOf(st: State, s: Chunk): Route {
    if s.left in st.times then Duplicate
    else if st.chunks == [] then First
    else if Int64(Sub64(PositionN(st.chunks), s.left)) >= OVERFLOW_GAP then Wrapped
    else if Int64(Sub64(Position0(st.chunks), s.left)) >= MAX_BYTES_GAP then TooOld
    else if Int64(Sub64(s.left, PositionN(st.chunks))) >= MAX_BYTES_GAP then Gap
    else MergePath
  }

  /** The index once the first `k` of `cs` have been evicted. */
  function TimesAfterEviction(times: map<nat, nat>, cs: seq<Chunk>, k: nat): map<nat, nat>
    requires k <= |cs|
  {
    if k == 0 then times else CleanBelow(times, cs[k - 1].left)
  }

  ghost function MergeStep(st: State, cap: nat, s: Chunk, ts: nat): State {
    var merged := Merge(st.chunks, s);
    var k := Evicted(merged, cap);
    State(merged[k..], CleanOld(TimesAfterEviction(st.times[s.left := ts], merged, k)))
  }

  /** The state `Add` leaves. */
  ghost function Added(st: State, cap: nat, s: Chunk, ts: nat): State {
    match RouteOf(st, s)
    case Duplicate => st
    case First => State([s], st.times[s.left := ts])
    case Wrapped => State([s], map[s.left := ts])
    case TooOld => st
    case Gap => State([s], map[s.left := ts])
    case MergePath => MergeStep(st, cap, s, ts)
  }

  /** Every byte stored, in list order. */
  function Flatten(cs: seq<Chunk>): seq<byte> {
    if cs == [] then [] else cs[0].bytes + Flatten(cs[1..])
  }

  function Total(cs: seq<Chunk>): (n: nat)
    ensures n == |Flatten(cs)|
  {
    if cs == [] then 0 else |cs[0].bytes| + Total(cs[1..])
  }

  /** The state `RemovePrefix(n)` leaves; asking a non-empty buffer for more than it
      stores is a nil dereference in the source. */
  function Removed(st: State, n: nat): State
    requires st.chunks == [] || n <= Total(st.chunks)
    decreases |st.chunks|
  {
    if n == 0 || st.chunks == [] then st
    else
      var head := st.chunks[0];
      if |head.bytes| > n then
        st.(chunks := [Chunk(head.left + n, head.bytes[n..])] + st.chunks[1..])
      else
        Removed(State(st.chunks[1..], CleanBelow(st.times, head.left)), n - |head.bytes|)
  }

  // ----- invariants -----

  /** No position reaches 2^63, so no `uint64` sum or difference of positions wraps. */
  ghost predicate InRange(cs: seq<Chunk>) {
    forall i :: 0 <= i < |cs| ==> cs[i].Right() < TWO_63
  }

  ghost predicate Sorted(cs: seq<Chunk>) {
    forall i, j :: 0 <= i < j < |cs| ==> cs[i].left <= cs[j].left
  }

  ghost predicate NonEmpty(cs: seq<Chunk>) {
    forall i :: 0 <= i < |cs| ==> cs[i].bytes != []
  }

  /** Non-empty chunks in order with a gap between any two. */
  ghost predicate Separated(cs: seq<Chunk>) {
    && NonEmpty(cs)
    && forall i, j :: 0 <= i < j < |cs| ==> cs[i].Right() < cs[j].left
  }

  /** The byte a chunk holds at a position. */
  function ByteAt(c: Chunk, p: nat): Option<byte> {
    if c.Has(p) then Some(c.bytes[p - c.left]) else None
  }

  /** The byte a list holds at a position; where chunks overlap the earlier one counts. */
  function At(cs: seq<Chunk>, p: nat): Option<byte> {
    if cs == [] then None else ByteAt(cs[0], p).Or(At(cs[1..], p))
  }
}
