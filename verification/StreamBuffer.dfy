/** The `StreamBuffer` and `Buffer` objects of agent/buffer/stream_buffer.go, each
    method proved to take the step the value model states. */
module StreamBuffers {
  import opened Words
  import opened Options
  import opened Reassembly
  import opened ReassemblyMerge
  import opened ReassemblyRuns
  import opened ReassemblyAdd
  import opened TimestampIndex

  class Buffer {
    var buf: seq<byte>
    var left: nat

    ghost function View(): Chunk
      reads this
    {
      Chunk(left, buf)
    }

    constructor (left: nat, buf: seq<byte>)
      ensures View() == Chunk(left, buf)
    {
      this.left, this.buf := left, buf;
    }

    function RightBoundary(): nat
      reads this
    {
      left + |buf|
    }

    predicate CanFuseLeft(start: nat, len: nat)
      reads this
      ensures forall data: seq<byte> :: |data| == len ==>
        (CanFuseLeft(start, len) <==> CanFuseAsLeft(View(), Chunk(start, data)))
    {
      var r := start + len;
      RightBoundary() >= start && left <= start && r >= RightBoundary()
    }

    predicate CanFuseRight(start: nat, len: nat)
      reads this
      ensures forall data: seq<byte> :: |data| == len ==>
        (CanFuseRight(start, len) <==> CanFuseAsRight(View(), Chunk(start, data)))
    {
      var r := start + len;
      left <= r && RightBoundary() >= r && left >= start
    }

    method FuseAsLeft(start: nat, data: seq<byte>)
      requires CanFuseAsLeft(View(), Chunk(start, data))
      modifies this
      ensures View() == FuseLeft(old(View()), Chunk(start, data))
    {
      if start == RightBoundary() {
        buf := buf + data;
      } else if start < RightBoundary() && start >= left {
        var overlapSize := RightBoundary() - start;
        buf := buf + data[overlapSize..];
      } else {
        assert false; // the source panics here
      }
    }

    method FuseAsRight(start: nat, data: seq<byte>)
      requires CanFuseAsRight(View(), Chunk(start, data))
      modifies this
      ensures View() == FuseRight(old(View()), Chunk(start, data))
    {
      var r := start + |data|;
      if r == left {
        buf := data + buf;
        left := start;
      } else if r > left && r <= RightBoundary() {
        var overlapSize := r - left;
        buf := data[..|data| - overlapSize] + buf;
        left := start;
      } else {
        assert false; // the source panics here
      }
    }

    /** Asking for more than is held panics; asking for all of it does nothing. */
    method RemovePrefix(len: nat)
      requires len <= |buf|
      modifies this
      ensures View() == if len < old(|buf|) then Chunk(old(left) + len, old(buf)[len..]) else old(View())
    {
      if |buf| > len {
        buf, left := buf[len..], left + len;
      }
    }
  }

  /** The merged list, written as the list updates the source performs. */
  lemma MergeCases(cs: seq<Chunk>, s: Chunk)
    ensures var i, m := Upto(cs, s.left), Merge(cs, s);
      var l, r := FusesLeft(cs, i, s), FusesRight(cs, i, s);
      && (l && !r ==> m == cs[i - 1 := FuseLeft(cs[i - 1], s)])
      && (!l && r ==> m == cs[i := FuseRight(cs[i], s)])
      && (!l && !r ==> m == cs[..i] + [s] + cs[i..])
      && (l && r ==>
           m == cs[..i - 1] + [FuseRight(cs[i], FuseLeft(cs[i - 1], s))] + cs[i + 1..])
  {
  }

  lemma OnMergePath(st: State, cap: nat, s: Chunk, ts: nat)
    requires RouteOf(st, s) == MergePath
    ensures Added(st, cap, s, ts) == MergeStep(st, cap, s, ts)
  {
  }

  lemma EvictOne(cs: seq<Chunk>, n: nat, cap: nat)
    requires n < |cs| && Sub64(PositionN(cs[n..]), Position0(cs[n..])) > cap
    ensures Evicted(cs[n..], cap) == 1 + Evicted(cs[n + 1..], cap)
  {
    assert cs[n..][1..] == cs[n + 1..];
  }

  lemma EvictNone(cs: seq<Chunk>, n: nat, cap: nat)
    requires n <= |cs| && (n == |cs| || Sub64(PositionN(cs[n..]), Position0(cs[n..])) <= cap)
    ensures Evicted(cs[n..], cap) == 0
  {
  }

  class StreamBuffer {
    var buffers: seq<Buffer>
    const capacity: int
    var timestamps: map<nat, nat>
    ghost var chunks: seq<Chunk> // what the buffers hold

    constructor (capacity: int)
      ensures Valid() && View() == EMPTY && this.capacity == capacity && buffers == []
    {
      buffers, timestamps, chunks := [], map[], [];
      this.capacity := capacity;
    }

    ghost function View(): State
      reads this
    {
      State(chunks, timestamps)
    }

    /** The buffers are distinct objects, hold `chunks`, and stay below 2^63. */
    ghost predicate Valid()
      reads this, buffers
    {
      && |buffers| == |chunks|
      && (forall i :: 0 <= i < |buffers| ==> buffers[i].View() == chunks[i])
      && (forall i, j :: 0 <= i < j < |buffers| ==> buffers[i] != buffers[j])
      && InRange(chunks)
    }

    /** `uint64(sb.capacity)` */
    function Capacity64(): (c: nat)
      ensures 0 <= capacity < TWO_63 ==> c == capacity
      ensures 0 - TWO_63 <= capacity < 0 ==> c >= TWO_63
    {
      capacity % TWO_64
    }

    predicate IsEmpty()
      reads this
    {
      |buffers| == 0
    }

    function Pos0(): (p: nat)
      requires Valid()
      reads this, buffers
      ensures p == Position0(chunks)
    {
      if IsEmpty() then 0 else buffers[0].left
    }

    function PosN(): (p: nat)
      requires Valid()
      reads this, buffers
      ensures p == PositionN(chunks)
    {
      if IsEmpty() then 0 else buffers[|buffers| - 1].RightBoundary()
    }

    /** What a reader of the buffer sees. */
    method Snapshot() returns (st: State)
      requires Valid()
      ensures st == View()
    {
      var cs: seq<Chunk> := [];
      var i := 0;
      while i < |buffers|
        invariant 0 <= i <= |buffers| && cs == chunks[..i]
      {
        cs := cs + [Chunk(buffers[i].left, buffers[i].buf)];
        i := i + 1;
      }
      st := State(cs, timestamps);
    }

    method Clear()
      modifies this
      ensures View() == EMPTY && Valid() && buffers == []
    {
      buffers, timestamps, chunks := [], map[], [];
    }

    /** The timestamp of the greatest indexed position not above `target`. */
    method FindTimestampBySeq(target: nat) returns (ts: nat, ok: bool)
      ensures !ok ==> ts == 0 && forall k :: k in timestamps ==> k > target
      ensures ok ==> exists k :: IsFloor(timestamps, target, k) && ts == timestamps[k]
    {
      var key := Floor(timestamps, target);
      if key == None {
        return 0, false;
      }
      return timestamps[key.value], true;
    }

    method CleanTimestampMapBySeqNoMoreThan(targetSeq: nat)
      modifies this`timestamps
      ensures timestamps == CleanBelow(old(timestamps), targetSeq)
    {
      var needsDelete := KeysBelow(timestamps, targetSeq);
      timestamps := timestamps - needsDelete;
    }

    method CleanOldTimestamps()
      modifies this`timestamps
      ensures timestamps == CleanOld(old(timestamps))
    {
      if |timestamps| <= MAX_TIMESTAMP_ENTRIES {
        return;
      }
      var needsDelete := FirstKeys(timestamps, |timestamps| / 2);
      timestamps := timestamps - needsDelete;
    }

    /** `sb.buffers = sb.buffers[1:]` */
    method DropFront()
      requires Valid() && !IsEmpty()
      modifies this`buffers, this`chunks
      ensures Valid() && buffers == old(buffers)[1..] && chunks == old(chunks)[1..]
    {
      buffers, chunks := buffers[1..], chunks[1..];
    }

    /** Drops the head buffer and the index entries below it; nothing to do if empty. */
    method ShrinkHeadBuffer()
      requires Valid()
      modifies this
      ensures Valid()
      ensures old(IsEmpty()) ==> View() == old(View()) && buffers == old(buffers)
      ensures !old(IsEmpty()) ==>
        && buffers == old(buffers)[1..]
        && View() == State(old(chunks)[1..], CleanBelow(old(timestamps), old(chunks)[0].left))
    {
      if IsEmpty() {
        return;
      }
      var head := buffers[0];
      DropFront();
      CleanTimestampMapBySeqNoMoreThan(head.left);
    }

    method CutHead(n: nat)
      requires Valid() && !IsEmpty() && n < |chunks[0].bytes|
      modifies this`chunks, buffers[0]
      ensures Valid() && chunks == old(chunks)[0 := Chunk(old(chunks)[0].left + n, old(chunks)[0].bytes[n..])]
    {
      buffers[0].RemovePrefix(n);
      chunks := chunks[0 := buffers[0].View()];
    }

    /** Drops exactly `length` bytes from the front. */
    method RemovePrefix(length: nat)
      requires Valid()
      requires IsEmpty() || length <= Total(chunks)
      modifies this, buffers
      ensures Valid() && (forall b :: b in buffers ==> b in old(buffers))
      ensures View() == Removed(old(View()), length)
    {
      if IsEmpty() {
        return;
      }
      var left: nat := length;
      while left != 0
        invariant Valid() && left <= Total(chunks)
        invariant forall b :: b in buffers ==> b in old(buffers)
        invariant Removed(View(), left) == Removed(old(View()), length)
        decreases |buffers|
      {
        assert chunks != [];
        var head := buffers[0];
        assert head in buffers && head.View() == chunks[0];
        if |head.buf| > left {
          ghost var before := chunks;
          CutHead(left);
          assert chunks == [chunks[0]] + before[1..];
          return;
        } else {
          ShrinkHeadBuffer();
          left := left - |head.buf|;
        }
      }
    }

    method RemoveHead()
      requires Valid() && !IsEmpty()
      modifies this, buffers
      ensures Valid() && (forall b :: b in buffers ==> b in old(buffers))
      ensures View() == Removed(old(View()), |old(chunks)[0].bytes|)
    {
      RemovePrefix(|buffers[0].buf|);
    }

    /** The loop of `shrinkBufferUntilSizeBelowCapacity`. */
    method DropUntilFits() returns (lastDelete: Buffer?)
      requires Valid()
      modifies this`buffers, this`chunks
      ensures Valid()
      ensures var k := Evicted(old(chunks), Capacity64());
        && buffers == old(buffers)[k..]
        && chunks == old(chunks)[k..]
        && lastDelete == if k == 0 then null else old(buffers)[k - 1]
    {
      ghost var n := 0;
      lastDelete := null;
      while !IsEmpty() && Sub64(PosN(), Pos0()) > Capacity64()
        invariant n <= |old(chunks)| && buffers == old(buffers)[n..] && chunks == old(chunks)[n..]
        invariant Valid()
        invariant lastDelete == if n == 0 then null else old(buffers)[n - 1]
        invariant Evicted(old(chunks), Capacity64()) == n + Evicted(chunks, Capacity64())
        decreases |buffers|
      {
        EvictOne(old(chunks), n, Capacity64());
        lastDelete := buffers[0];
        DropFront();
        n := n + 1;
      }
      EvictNone(old(chunks), n, Capacity64());
    }

    method ShrinkBufferUntilSizeBelowCapacity()
      requires Valid()
      modifies this
      ensures Valid() && (forall b :: b in buffers ==> b in old(buffers))
      ensures var k := Evicted(old(chunks), Capacity64());
        View() == State(old(chunks)[k..], TimesAfterEviction(old(timestamps), old(chunks), k))
    {
      var lastDelete := DropUntilFits();
      if lastDelete != null {
        CleanTimestampMapBySeqNoMoreThan(lastDelete.left);
      }
    }

    method FindLeftBufferBySeq(pos: nat) returns (index: int, b: Buffer?)
      requires Valid()
      ensures index == Upto(chunks, pos) - 1
      ensures b == if index >= 0 then buffers[index] else null
    {
      var prev: Buffer? := null;
      var i := 0;
      while i < |buffers|
        invariant 0 <= i <= |buffers|
        invariant forall j :: 0 <= j < i ==> chunks[j].left <= pos
        invariant prev == if i > 0 then buffers[i - 1] else null
      {
        if buffers[i].left > pos {
          assert chunks[i].left > pos;
          return i - 1, prev;
        }
        assert chunks[i].left <= pos;
        prev := buffers[i];
        i := i + 1;
      }
      return |buffers| - 1, prev;
    }

    method FindRightBufferBySeq(pos: nat) returns (index: int, b: Buffer?)
      requires Valid()
      ensures var i := Upto(chunks, pos);
        if i < |buffers| then index == i && b == buffers[i] else index == |buffers| - 1 && b == null
    {
      var i := 0;
      while i < |buffers|
        invariant 0 <= i <= |buffers|
        invariant forall j :: 0 <= j < i ==> chunks[j].left <= pos
      {
        if buffers[i].left > pos {
          assert chunks[i].left > pos;
          return i, buffers[i];
        }
        assert chunks[i].left <= pos;
        i := i + 1;
      }
      return |buffers| - 1, null;
    }

    // The four things the case split of Add does to the list.

    method FuseLeftAt(i: nat, start: nat, data: seq<byte>)
      requires Valid() && i < |buffers| && start + |data| < TWO_63
      requires CanFuseAsLeft(chunks[i], Chunk(start, data))
      modifies buffers[i], this`chunks
      ensures Valid() && chunks == old(chunks)[i := FuseLeft(old(chunks)[i], Chunk(start, data))]
    {
      buffers[i].FuseAsLeft(start, data);
      chunks := chunks[i := buffers[i].View()];
    }

    method FuseRightAt(i: nat, start: nat, data: seq<byte>)
      requires Valid() && i < |buffers|
      requires CanFuseAsRight(chunks[i], Chunk(start, data))
      modifies buffers[i], this`chunks
      ensures Valid() && chunks == old(chunks)[i := FuseRight(old(chunks)[i], Chunk(start, data))]
    {
      buffers[i].FuseAsRight(start, data);
      chunks := chunks[i := buffers[i].View()];
    }

    method InsertAt(i: nat, b: Buffer)
      requires Valid() && i <= |buffers| && b !in buffers && b.View().Right() < TWO_63
      modifies this`buffers, this`chunks
      ensures Valid() && buffers == old(buffers)[..i] + [b] + old(buffers)[i..]
      ensures chunks == old(chunks)[..i] + [b.View()] + old(chunks)[i..]
    {
      buffers := buffers[..i] + [b] + buffers[i..];
      chunks := chunks[..i] + [b.View()] + chunks[i..];
    }

    method DeleteAt(i: nat)
      requires Valid() && i < |buffers|
      modifies this`buffers, this`chunks
      ensures Valid() && buffers == old(buffers)[..i] + old(buffers)[i + 1..]
      ensures chunks == old(chunks)[..i] + old(chunks)[i + 1..]
    {
      buffers := buffers[..i] + buffers[i + 1..];
      chunks := chunks[..i] + chunks[i + 1..];
    }

    /** Fuses the segment to the buffer at `i`, and the result to the next buffer. */
    method FuseBothAt(i: nat, start: nat, data: seq<byte>)
      requires Valid() && i + 1 < |buffers| && start + |data| < TWO_63
      requires CanFuseAsLeft(chunks[i], Chunk(start, data))
      requires CanFuseAsRight(chunks[i + 1], Chunk(start, data)) && chunks[i].left <= chunks[i + 1].left
      modifies this`buffers, this`chunks, buffers[i], buffers[i + 1]
      ensures Valid() && buffers == old(buffers)[..i] + old(buffers)[i + 1..]
      ensures var f := FuseLeft(old(chunks)[i], Chunk(start, data));
        chunks == old(chunks)[..i] + [FuseRight(old(chunks)[i + 1], f)] + old(chunks)[i + 2..]
    {
      FuseLeftAt(i, start, data);
      FuseRightAt(i + 1, buffers[i].left, buffers[i].buf);
      DeleteAt(i);
    }

    /** The case split of `Add` when the segment has a neighbour on both sides. */
    method MergeBetween(start: nat, data: seq<byte>, newBuffer: Buffer, leftIndex: nat)
      requires Valid() && start + |data| < TWO_63
      requires newBuffer.View() == Chunk(start, data) && newBuffer !in buffers
      requires leftIndex + 1 < |buffers| && leftIndex + 1 == Upto(chunks, start)
      modifies this`buffers, this`chunks, buffers[leftIndex], buffers[leftIndex + 1]
      ensures Valid() && chunks == Merge(old(chunks), Chunk(start, data))
      ensures || buffers == old(buffers)
              || buffers == old(buffers)[..leftIndex] + old(buffers)[leftIndex + 1..]
              || buffers == old(buffers)[..leftIndex + 1] + [newBuffer] + old(buffers)[leftIndex + 1..]
    {
      MergeCases(chunks, Chunk(start, data));
      var leftBuffer, rightBuffer := buffers[leftIndex], buffers[leftIndex + 1];
      var l, r := leftBuffer.CanFuseLeft(start, |data|), rightBuffer.CanFuseRight(start, |data|);
      if l && r {
        FuseBothAt(leftIndex, start, data);
      } else if l && !r {
        FuseLeftAt(leftIndex, start, data);
      } else if !l && r {
        FuseRightAt(leftIndex + 1, start, data);
      } else {
        InsertAt(leftIndex + 1, newBuffer);
      }
    }

    /** The case split when every buffer starts after the segment. */
    method MergeAtFront(start: nat, data: seq<byte>, newBuffer: Buffer)
      requires Valid() && !IsEmpty() && start + |data| < TWO_63
      requires newBuffer.View() == Chunk(start, data) && newBuffer !in buffers
      requires Upto(chunks, start) == 0
      modifies this`buffers, this`chunks, buffers[0]
      ensures Valid() && chunks == Merge(old(chunks), Chunk(start, data))
      ensures buffers == old(buffers) || buffers == [newBuffer] + old(buffers)
    {
      MergeCases(chunks, Chunk(start, data));
      var rightBuffer := buffers[0];
      if rightBuffer.CanFuseRight(start, |data|) {
        FuseRightAt(0, start, data);
      } else {
        InsertAt(0, newBuffer);
      }
    }

    /** The case split when no buffer starts after the segment. */
    method MergeAtEnd(start: nat, data: seq<byte>, newBuffer: Buffer)
      requires Valid() && !IsEmpty() && start + |data| < TWO_63
      requires newBuffer.View() == Chunk(start, data) && newBuffer !in buffers
      requires Upto(chunks, start) == |chunks|
      modifies this`buffers, this`chunks, buffers[|buffers| - 1]
      ensures Valid() && chunks == Merge(old(chunks), Chunk(start, data))
      ensures buffers == old(buffers) || buffers == old(buffers) + [newBuffer]
    {
      MergeCases(chunks, Chunk(start, data));
      var leftBuffer := buffers[|buffers| - 1];
      if leftBuffer.CanFuseLeft(start, |data|) {
        FuseLeftAt(|buffers| - 1, start, data);
      } else {
        InsertAt(|buffers|, newBuffer);
      }
    }

    /** The case split of `Add` over the two neighbours. */
    method MergeIn(start: nat, data: seq<byte>, newBuffer: Buffer)
      requires Valid() && !IsEmpty()
      requires start + |data| < TWO_63
      requires newBuffer.View() == Chunk(start, data) && newBuffer !in buffers
      modifies this`buffers, this`chunks, buffers
      ensures Valid() && chunks == Merge(old(chunks), Chunk(start, data))
      ensures forall b :: b in buffers ==> b in old(buffers) || b == newBuffer
    {
      var leftIndex, leftBuffer := FindLeftBufferBySeq(start);
      var rightIndex, rightBuffer := FindRightBufferBySeq(start);
      if leftBuffer == null && rightBuffer == null {
        assert false; // unreachable on a non-empty list
      } else if leftBuffer == null && rightBuffer != null {
        MergeAtFront(start, data, newBuffer);
      } else if leftBuffer != null && rightBuffer == null {
        MergeAtEnd(start, data, newBuffer);
      } else {
        MergeBetween(start, data, newBuffer, leftIndex);
      }
    }

    /** Adds a segment: the whole new state, and whether it was accepted. */
    method Add(start: nat, data: seq<byte>, timestamp: nat) returns (ok: bool)
      requires Valid() && start + |data| < TWO_63
      modifies this, buffers
      ensures Valid() && (forall b :: b in buffers ==> b in old(buffers) || fresh(b))
      ensures View() == Added(old(View()), Capacity64(), Chunk(start, data), timestamp)
      ensures ok <==> start !in old(timestamps)
      ensures Restarts(old(View()), Chunk(start, data)) ==> OnlyHolds(View(), Chunk(start, data), timestamp)
    {
      if Restarts(View(), Chunk(start, data)) { AddRestarts(View(), Capacity64(), Chunk(start, data), timestamp); }
      ghost var s := Chunk(start, data);
      if start in timestamps {
        return false;
      }
      var newBuffer := new Buffer(start, data);
      if IsEmpty() {
        timestamps := timestamps[start := timestamp];
        buffers, chunks := buffers + [newBuffer], [s];
        return true;
      }
      if Int64(Sub64(PosN(), start)) >= OVERFLOW_GAP {
        Restart(newBuffer, timestamp);
        return true;
      }
      if Int64(Sub64(Pos0(), start)) >= MAX_BYTES_GAP {
        return true;
      }
      if Int64(Sub64(start, PosN())) >= MAX_BYTES_GAP {
        Restart(newBuffer, timestamp);
        return true;
      }
      OnMergePath(View(), Capacity64(), s, timestamp);
      AddOnMergePath(start, data, newBuffer, timestamp);
      return true;
    }

    /** Forgets everything and starts again from one buffer. */
    method Restart(newBuffer: Buffer, timestamp: nat)
      requires newBuffer.View().Right() < TWO_63
      modifies this
      ensures Valid() && buffers == [newBuffer]
      ensures View() == State([newBuffer.View()], map[newBuffer.left := timestamp])
    {
      Clear();
      buffers, chunks := buffers + [newBuffer], [newBuffer.View()];
      timestamps := timestamps[newBuffer.left := timestamp];
    }

    method AddOnMergePath(start: nat, data: seq<byte>, newBuffer: Buffer, timestamp: nat)
      requires Valid() && !IsEmpty() && start + |data| < TWO_63
      requires newBuffer.View() == Chunk(start, data) && newBuffer !in buffers
      modifies this, buffers
      ensures Valid() && (forall b :: b in buffers ==> b in old(buffers) || b == newBuffer)
      ensures View() == MergeStep(old(View()), Capacity64(), Chunk(start, data), timestamp)
    {
      MergeIn(start, data, newBuffer);
      timestamps := timestamps[start := timestamp];
      ShrinkBufferUntilSizeBelowCapacity();
      CleanOldTimestamps();
    }
  }
}
