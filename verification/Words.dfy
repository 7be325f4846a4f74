/** Machine words used by the modelled code: bytes, and the unsigned and signed
    integers whose wrap-around the source relies on or must avoid. */
module Words {
  type byte = b: int | 0 <= b < 256

  const TWO_31: nat := 0x8000_0000
  const TWO_32: nat := 0x1_0000_0000
  const TWO_63: nat := 0x8000_0000_0000_0000
  const TWO_64: nat := 0x1_0000_0000_0000_0000

  type u32 = x: int | 0 <= x < TWO_32
  type u64 = x: int | 0 <= x < TWO_64

  /** The value of a `uint32` computation. */
  function Wrap32(x: int): (r: u32)
    ensures 0 <= x < TWO_32 ==> r == x
  {
    x % TWO_32
  }

  /** `a - b` on `uint64` operands. */
  function Sub64(a: nat, b: nat): nat {
    (a - b) % TWO_64
  }

  /** The conversion `int64(x)` of a `uint64`. */
  function Int64(x: nat): int {
    if x < TWO_63 then x else x - TWO_64
  }

  /** The source compares positions through `int64(a - b)`; on positions below
      2^63 this is the true difference, whichever operand is larger. */
  lemma SignedDistance(a: nat, b: nat)
    requires a < TWO_63 && b < TWO_63
    ensures Int64(Sub64(a, b)) == a - b
  {
    if a < b {
      assert (a - b) % TWO_64 == a - b + TWO_64;
    }
  }

  /** Congruent words are equal. */
  lemma Wrap32Shift(a: int, b: int, k: int)
    requires a == b + k * TWO_32
    ensures Wrap32(a) == Wrap32(b)
  {
  }

  /** Words may be reduced at any point of a sum or difference. */
  lemma WrapAdd(a: int, c: int)
    ensures Wrap32(Wrap32(a) + c) == Wrap32(a + c)
  {
    var k := a / TWO_32;
    assert Wrap32(a) == a - k * TWO_32;
    Wrap32Shift(Wrap32(a) + c, a + c, -k);
  }

  lemma WrapSub(c: int, a: int)
    ensures Wrap32(c - Wrap32(a)) == Wrap32(c - a)
  {
    var k := a / TWO_32;
    assert Wrap32(a) == a - k * TWO_32;
    Wrap32Shift(c - Wrap32(a), c - a, k);
  }

  /** Shifting both sides neither makes nor breaks a congruence. */
  lemma WrapCancel(a: int, b: int, c: int)
    ensures Wrap32(c + a) == Wrap32(c + b) <==> Wrap32(a) == Wrap32(b)
  {
    WrapAdd(a, c);
    WrapAdd(b, c);
    WrapAdd(c + a, -c);
    WrapAdd(c + b, -c);
  }

  /** A 64-bit counter keeps its low word. */
  lemma Wrap64Low(x: int)
    ensures Wrap32(x % TWO_64) == Wrap32(x)
  {
    var k := x / TWO_64;
    assert x % TWO_64 == x - k * TWO_64;
    assert TWO_64 == TWO_32 * TWO_32;
    Wrap32Shift(x % TWO_64, x, -k * TWO_32);
  }

  lemma Wrap64Add(x: nat, n: nat)
    ensures (x % TWO_64 + n) % TWO_64 == (x + n) % TWO_64
  {
  }

  function Max(a: int, b: int): (r: int)
    ensures r >= a && r >= b && (r == a || r == b)
  {
    if a >= b then a else b
  }
}

/** An optional value. */
module Options {
  datatype Option<T> = None | Some(value: T) {
    /** This value if present, otherwise the other one. */
    function Or(other: Option<T>): Option<T> {
      if Some? then this else other
    }
  }
}
