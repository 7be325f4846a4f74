/** The circular array of common/ringbuffer.go, proved to be a bounded sequence. */
module RingBuffers {
  import opened Options

  datatype RingError = NoError | Full | Empty | OutOfRange

  /** The cell `i` places after `start` in a circle of `size` cells. */
  function Slot(start: nat, i: nat, size: nat): (r: nat)
    requires start < size && i <= size
    ensures r < size
  {
    if start + i < size then start + i else start + i - size
  }

  /** The source computes cells with `%`. */
  lemma SlotIsMod(start: nat, i: nat, size: nat)
    requires start < size && i <= size
    ensures (start + i) % size == Slot(start, i, size)
  {
    var x := start + i;
    Quotient(x, size, if x < size then 0 else 1);
  }

  /** A quotient that brackets `x` is the quotient, and fixes the remainder. */
  lemma Quotient(x: nat, size: nat, q: nat)
    requires 0 < size && q <= 1 && size * q <= x < size * q + size
    ensures x % size == x - size * q
  {
    var d, m := x / size, x % size;
    assert x == size * d + m && 0 <= m < size;
    Multiple(size, d - q);
    assert size * (d - q) == size * d - size * q;
  }

  lemma Multiple(size: int, k: int)
    requires 0 < size && 0 - size < size * k < size
    ensures k == 0
  {
  }

  /** The position of `target` relative to `a` never moves back along the sequence. */
  ghost predicate Ordered<T(!new)>(contents: seq<T>, target: T, compare: (T, T) -> int) {
    forall i, j :: 0 <= i < j < |contents| ==>
      && (compare(contents[j], target) <= 0 ==> compare(contents[i], target) < 0)
      && (compare(contents[i], target) >= 0 ==> compare(contents[j], target) > 0)
  }

  class RingBuffer<T(!new)> {
    var data: array<Option<T>>
    const size: nat
    var start: nat
    var end: nat
    var isFull: bool
    ghost var cells: seq<Option<T>> // the cells in order from `start` on
    ghost var contents: seq<T>

    /** A ring without cells cannot be written to: the source would divide by zero. */
    constructor (size: nat)
      requires size > 0
      ensures Valid() && contents == [] && this.size == size && fresh(data)
    {
      this.size := size;
      data := new Option<T>[size](_ => None);
      start, end, isFull := 0, 0, false;
      cells, contents := seq(size, _ => None), [];
    }

    ghost predicate Tied()
      reads this, data
    {
      && data.Length == size == |cells| && start < size
      && forall i {:trigger Slot(start, i, size)} :: 0 <= i < size ==> data[Slot(start, i, size)] == cells[i]
    }

    /** The first cells hold the contents in order; all others are nil. */
    ghost predicate Holds()
      reads this
    {
      && |contents| <= size == |cells|
      && (forall i :: 0 <= i < |contents| ==> cells[i] == Some(contents[i]))
      && (forall i :: |contents| <= i < size ==> cells[i] == None)
    }

    ghost predicate Valid()
      reads this, data
    {
      Tied() && Holds() && end == Slot(start, |contents|, size) && (isFull <==> |contents| == size)
    }

    predicate IsEmpty()
      requires Valid()
      reads this, data
      ensures IsEmpty() <==> contents == []
    {
      !isFull && start == end
    }

    function Size(): (n: nat)
      requires Valid()
      reads this, data
      ensures n == |contents|
    {
      if isFull then size else if end >= start then end - start else size - start + end
    }

    // Single moves of the array; all cell arithmetic is here.

    /** Puts `value` in place `i`. */
    method Put(i: nat, value: T)
      requires Tied() && i < size
      modifies data, this`cells
      ensures Tied() && cells == old(cells)[i := Some(value)]
    {
      SlotIsMod(start, i, size);
      data[(start + i) % size] := Some(value);
      cells := cells[i := Some(value)];
    }

    /** Moves the element in place `i - 1` to place `i`. */
    method MoveOn(i: nat)
      requires Tied() && 0 < i < size
      modifies data, this`cells
      ensures Tied() && cells == old(cells)[i := old(cells)[i - 1]]
    {
      SlotIsMod(start, i, size);
      SlotIsMod(start, i - 1, size);
      data[(start + i) % size] := data[(start + i - 1) % size];
      cells := cells[i := cells[i - 1]];
    }

    /** `data[start] = nil; start = (start + 1) % size` */
    method Rotate()
      requires Tied()
      modifies this`start, this`cells, data
      ensures Tied() && start == Slot(old(start), 1, size)
      ensures cells == old(cells)[1..] + [None]
    {
      assert data[Slot(start, 0, size)] == cells[0];
      data[start] := None;
      SlotIsMod(start, 1, size);
      start := (start + 1) % size;
      cells := cells[1..] + [None];
      forall i | 0 <= i < size ensures data[Slot(start, i, size)] == cells[i] {
        if i < size - 1 { assert Slot(start, i, size) == Slot(old(start), i + 1, size); }
      }
    }

    /** `data[(start + i) % size]` */
    method CellAt(i: nat) returns (value: Option<T>)
      requires Tied() && i < size
      ensures value == cells[i]
    {
      SlotIsMod(start, i, size);
      value := data[(start + i) % size];
    }

    /** Counts the cell just filled at the end. */
    method MoveEnd()
      requires start < size && 0 < |contents| <= size
      requires end == Slot(start, |contents| - 1, size) && !isFull
      modifies this`end, this`isFull
      ensures end == Slot(start, |contents|, size) && (isFull <==> |contents| == size)
    {
      SlotIsMod(end, 1, size);
      end := (end + 1) % size;
      if end == start {
        isFull := true;
      }
    }

    // The public operations.

    method Write(value: T) returns (err: RingError)
      requires Valid()
      modifies this, data
      ensures Valid() && data == old(data)
      ensures err == if |old(contents)| == size then Full else NoError
      ensures contents == if err == NoError then old(contents) + [value] else old(contents)
    {
      if isFull {
        return Full;
      }
      data[end] := Some(value);
      cells := cells[|contents| := Some(value)];
      contents := contents + [value];
      MoveEnd();
      return NoError;
    }

    /** Clears the first cell and moves `start` past it. */
    method DropFirst()
      requires Valid() && contents != []
      modifies this`start, this`isFull, this`contents, this`cells, data
      ensures Valid() && start == Slot(old(start), 1, size)
      ensures contents == old(contents)[1..]
    {
      Rotate();
      isFull := false;
      contents := contents[1..];
    }

    method Read() returns (value: Option<T>, err: RingError)
      requires Valid()
      modifies this, data
      ensures Valid() && data == old(data)
      ensures old(contents) == [] ==> contents == [] && err == Empty && value == None
      ensures old(contents) != [] ==>
        contents == old(contents)[1..] && err == NoError && value == Some(old(contents)[0])
    {
      if IsEmpty() {
        return None, Empty;
      }
      value := CellAt(0);
      DropFirst();
      return value, NoError;
    }

    method Peek() returns (value: Option<T>, err: RingError)
      requires Valid()
      ensures if contents == [] then value == None && err == Empty else value == Some(contents[0]) && err == NoError
    {
      if IsEmpty() {
        return None, Empty;
      }
      value := CellAt(0);
      return value, NoError;
    }

    /** Overwrites the element at `index`; stands for a write through a reference
        that the stored element holds. */
    method Replace(index: nat, value: T)
      requires Valid() && index < |contents|
      modifies this`cells, this`contents, data
      ensures Valid() && contents == old(contents)[index := value]
    {
      Put(index, value);
      contents := contents[index := value];
    }

    method ReadIndex(index: int) returns (value: Option<T>, err: RingError)
      requires Valid()
      ensures if 0 <= index < |contents| then value == Some(contents[index]) && err == NoError
              else value == None && err == OutOfRange
    {
      if index < 0 || index >= Size() {
        return None, OutOfRange;
      }
      value := CellAt(index);
      return value, NoError;
    }

    /** Opens a hole at `index` by moving the later elements one place on. */
    method ShiftRight(index: nat)
      requires Valid() && index <= |contents| < size
      modifies data, this`cells
      ensures Tied()
      ensures forall k :: 0 <= k <= index || |contents| < k < size ==> cells[k] == old(cells)[k]
      ensures forall k :: index < k <= |contents| ==> cells[k] == old(cells)[k - 1]
    {
      var i := Size();
      while i > index
        invariant Tied() && index <= i <= |contents|
        invariant forall k :: 0 <= k <= i || |contents| < k < size ==> cells[k] == old(cells)[k]
        invariant forall k :: i < k <= |contents| ==> cells[k] == old(cells)[k - 1]
      {
        MoveOn(i);
        i := i - 1;
      }
    }

    method Insert(index: int, value: T) returns (err: RingError)
      requires Valid()
      modifies this, data
      ensures Valid() && data == old(data)
      ensures err == if index < 0 || index > |old(contents)| then OutOfRange
                     else if |old(contents)| == size then Full else NoError
      ensures contents == if err == NoError then old(contents)[..index] + [value] + old(contents)[index..]
                          else old(contents)
    {
      if index < 0 || index > Size() {
        return OutOfRange;
      }
      if isFull {
        return Full;
      }
      ShiftRight(index);
      Put(index, value);
      contents := contents[..index] + [value] + contents[index..];
      MoveEnd();
      return NoError;
    }

    /** On ordered contents: the index of the match, or the one place to insert at. */
    method BinarySearch(target: T, compare: (T, T) -> int) returns (index: nat, found: bool)
      requires Valid() && Ordered(contents, target, compare)
      ensures index <= |contents|
      ensures found ==> index < |contents| && compare(contents[index], target) == 0
      ensures forall i :: 0 <= i < index ==> compare(contents[i], target) < 0
      ensures !found ==> forall i :: index <= i < |contents| ==> compare(contents[i], target) > 0
    {
      if IsEmpty() {
        return 0, false;
      }
      var low, high := 0, Size() - 1;
      while low <= high
        invariant 0 <= low <= high + 1 <= |contents|
        invariant forall i :: 0 <= i < low ==> compare(contents[i], target) < 0
        invariant forall i :: high < i < |contents| ==> compare(contents[i], target) > 0
        decreases high - low
      {
        var mid := (low + high) / 2;
        var cell := CellAt(mid);
        var comp := compare(cell.value, target);
        if comp == 0 {
          return mid, true;
        } else if comp < 0 {
          low := mid + 1;
        } else {
          high := mid - 1;
        }
      }
      return low, false;
    }

    method Clear()
      requires Valid()
      modifies this
      ensures Valid() && contents == [] && fresh(data)
    {
      data := new Option<T>[size](_ => None);
      start, end, isFull := 0, 0, false;
      cells, contents := seq(size, _ => None), [];
    }

    /** Drops everything before `index`; an index at or past the size is refused. */
    method DiscardBeforeIndex(index: int) returns (err: RingError)
      requires Valid()
      modifies this, data
      ensures Valid() && data == old(data)
      ensures err == if 0 <= index < |old(contents)| then NoError else OutOfRange
      ensures contents == if err == NoError then old(contents)[index..] else old(contents)
    {
      if index < 0 || index >= Size() {
        return OutOfRange;
      }
      SlotIsMod(start, index, size);
      var actualIndex := (start + index) % size;
      ghost var n := 0;
      while start != actualIndex
        invariant Valid() && data == old(data)
        invariant 0 <= n <= index && contents == old(contents)[n..]
        invariant actualIndex == Slot(start, index - n, size)
        decreases index - n
      {
        DropFirst();
        n := n + 1;
      }
      return NoError;
    }
  }
}
