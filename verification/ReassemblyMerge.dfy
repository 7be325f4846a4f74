/** What one merge does: which positions it covers, which byte each position keeps,
    and exactly when the chunks stay separated. */
module ReassemblyMerge {
  import opened Words
  import opened Options
  import opened Reassembly

  lemma {:induction false} AtConcat(a: seq<Chunk>, b: seq<Chunk>, p: nat)
    ensures At(a + b, p) == At(a, p).Or(At(b, p))
  {
    if a == [] {
      assert a + b == b;
    } else {
      assert (a + b)[1..] == a[1..] + b;
      AtConcat(a[1..], b, p);
    }
  }

  /** The byte at a position, read around one chunk of the list. */
  lemma AtMiddle(a: seq<Chunk>, c: Chunk, b: seq<Chunk>, p: nat)
    ensures At(a + [c] + b, p) == At(a, p).Or(ByteAt(c, p)).Or(At(b, p))
  {
    AtConcat(a + [c], b, p);
    AtConcat(a, [c], p);
    assert At([c], p) == ByteAt(c, p);
  }

  lemma AtSplit(cs: seq<Chunk>, i: nat, p: nat)
    requires i <= |cs|
    ensures At(cs, p) == At(cs[..i], p).Or(At(cs[i..], p))
    ensures i < |cs| ==> At(cs[i..], p) == ByteAt(cs[i], p).Or(At(cs[i + 1..], p))
  {
    assert cs == cs[..i] + cs[i..];
    AtConcat(cs[..i], cs[i..], p);
    if i < |cs| { assert cs[i..][1..] == cs[i + 1..]; }
  }

  lemma AtPrefix(cs: seq<Chunk>, i: nat, p: nat)
    requires 0 < i <= |cs|
    ensures At(cs[..i], p) == At(cs[..i - 1], p).Or(ByteAt(cs[i - 1], p))
  {
    assert cs[..i] == cs[..i - 1] + [cs[i - 1]] + [];
    AtMiddle(cs[..i - 1], cs[i - 1], [], p);
  }

  /** A position is covered exactly when some chunk has it. */
  lemma {:induction false} Covered(cs: seq<Chunk>, p: nat)
    ensures At(cs, p).Some? <==> exists i :: 0 <= i < |cs| && cs[i].Has(p)
  {
    if cs != [] {
      Covered(cs[1..], p);
      if i :| 0 <= i < |cs| && cs[i].Has(p) {
        if i > 0 { assert cs[1..][i - 1].Has(p); }
      }
      if At(cs[1..], p).Some? {
        var j :| 0 <= j < |cs[1..]| && cs[1..][j].Has(p);
        assert cs[j + 1].Has(p);
      }
    }
  }

  lemma FusedExtent(cs: seq<Chunk>, i: nat, s: Chunk)
    requires i <= |cs|
    ensures Fused(cs, i, s).left == if FusesLeft(cs, i, s) then cs[i - 1].left else s.left
    ensures Fused(cs, i, s).Right() == if FusesRight(cs, i, s) then cs[i].Right() else s.Right()
  {
  }

  /** The extent of the fused chunk, and the byte it holds at each position. */
  lemma FusedByte(cs: seq<Chunk>, i: nat, s: Chunk, p: nat)
    requires i <= |cs|
    ensures var f, l, r := Fused(cs, i, s), FusesLeft(cs, i, s), FusesRight(cs, i, s);
      && f.left == (if l then cs[i - 1].left else s.left)
      && f.Right() == (if r then cs[i].Right() else s.Right())
      && ByteAt(f, p) ==
         (if r && cs[i].Has(p) then ByteAt(cs[i], p)
          else if l && cs[i - 1].Has(p) then ByteAt(cs[i - 1], p) else ByteAt(s, p))
  {
  }

  /** Coverage, for any list and any segment, overlapping or not: the merge covers
      what was covered plus the segment, nothing more and nothing less. */
  lemma MergeCovers(cs: seq<Chunk>, s: Chunk, p: nat)
    ensures At(Merge(cs, s), p).Some? <==> At(cs, p).Some? || s.Has(p)
  {
    var i := Upto(cs, s.left);
    AtMiddle(Before(cs, i, s), Fused(cs, i, s), After(cs, i, s), p);
    FusedByte(cs, i, s, p);
    AtSplit(cs, i, p);
    if i > 0 { AtPrefix(cs, i, p); }
  }

  /** Each element of the merged list is an old one or the fused chunk, in place. */
  lemma MergeElement(cs: seq<Chunk>, s: Chunk, k: nat)
    requires k < |Merge(cs, s)|
    ensures var i := Upto(cs, s.left);
      var n := |Before(cs, i, s)|;
      var m := Merge(cs, s)[k];
      && |Merge(cs, s)| == n + 1 + |After(cs, i, s)|
      && (k < n ==> k < |cs| && m == cs[k])
      && (k == n ==> m == Fused(cs, i, s))
      && (k > n ==> k - n - 1 < |After(cs, i, s)| && m == After(cs, i, s)[k - n - 1])
  {
  }

  lemma MergeOrdered(cs: seq<Chunk>, s: Chunk, j: nat, k: nat)
    requires Sorted(cs) && j < k < |Merge(cs, s)|
    ensures Merge(cs, s)[j].left <= Merge(cs, s)[k].left
  {
    FusedExtent(cs, Upto(cs, s.left), s);
    MergeElement(cs, s, j);
    MergeElement(cs, s, k);
  }

  lemma MergeSorted(cs: seq<Chunk>, s: Chunk)
    requires Sorted(cs)
    ensures Sorted(Merge(cs, s)) && Merge(cs, s) != []
  {
    forall j, k | 0 <= j < k < |Merge(cs, s)| ensures Merge(cs, s)[j].left <= Merge(cs, s)[k].left {
      MergeOrdered(cs, s, j, k);
    }
  }

  lemma MergeInRange(cs: seq<Chunk>, s: Chunk)
    requires InRange(cs) && s.Right() < TWO_63
    ensures InRange(Merge(cs, s))
  {
    FusedExtent(cs, Upto(cs, s.left), s);
    forall k | 0 <= k < |Merge(cs, s)| ensures Merge(cs, s)[k].Right() < TWO_63 {
      MergeElement(cs, s, k);
    }
  }

  lemma MergeNonEmpty(cs: seq<Chunk>, s: Chunk)
    requires NonEmpty(cs) && s.bytes != []
    ensures NonEmpty(Merge(cs, s))
  {
    FusedExtent(cs, Upto(cs, s.left), s);
    forall k | 0 <= k < |Merge(cs, s)| ensures Merge(cs, s)[k].bytes != [] {
      MergeElement(cs, s, k);
    }
  }

  /** A segment the merge handles without leaving overlapping chunks: it does not
      end inside the chunk on its left nor past the end of the chunk on its right. */
  predicate Admissible(cs: seq<Chunk>, s: Chunk) {
    var i := Upto(cs, s.left);
    && (i > 0 ==> s.Right() >= cs[i - 1].Right())
    && (i < |cs| ==> s.Right() <= cs[i].Right())
  }

  lemma SeparatedSlice(cs: seq<Chunk>, i: nat, j: nat)
    requires i <= j <= |cs| && Separated(cs)
    ensures Separated(cs[i..j])
  {
  }

  /** Chunks kept on the left end before the fused one starts. */
  lemma BeforeFused(cs: seq<Chunk>, s: Chunk, j: nat)
    requires Separated(cs) && Admissible(cs, s) && j < |Before(cs, Upto(cs, s.left), s)|
    ensures var i := Upto(cs, s.left); Before(cs, i, s)[j].Right() < Fused(cs, i, s).left
  {
    var i := Upto(cs, s.left);
    FusedExtent(cs, i, s);
    assert Before(cs, i, s)[j] == cs[j];
    if FusesLeft(cs, i, s) {
      assert cs[j].Right() < cs[i - 1].left;
    } else if j < i - 1 {
      assert cs[j].Right() < cs[i - 1].left <= s.left;
    }
  }

  /** Chunks kept on the right start after the fused one ends. */
  lemma AfterFused(cs: seq<Chunk>, s: Chunk, j: nat)
    requires Separated(cs) && Admissible(cs, s) && j < |After(cs, Upto(cs, s.left), s)|
    ensures var i := Upto(cs, s.left); Fused(cs, i, s).Right() < After(cs, i, s)[j].left
  {
    var i := Upto(cs, s.left);
    FusedExtent(cs, i, s);
    if FusesRight(cs, i, s) {
      assert After(cs, i, s)[j] == cs[i + 1 + j];
    } else {
      assert After(cs, i, s)[j] == cs[i + j];
    }
  }

  lemma KeptSeparated(cs: seq<Chunk>, i: nat, s: Chunk)
    requires Separated(cs) && i <= |cs| && s.bytes != []
    ensures Separated(Before(cs, i, s)) && Separated(After(cs, i, s)) && Fused(cs, i, s).bytes != []
  {
    SeparatedSlice(cs, 0, |Before(cs, i, s)|);
    SeparatedSlice(cs, |cs| - |After(cs, i, s)|, |cs|);
    FusedExtent(cs, i, s);
  }

  lemma AdmissibleSeparates(cs: seq<Chunk>, s: Chunk)
    requires Separated(cs) && s.bytes != [] && Admissible(cs, s)
    ensures Separated(Merge(cs, s))
  {
    var i := Upto(cs, s.left);
    var before, after := Before(cs, i, s), After(cs, i, s);
    KeptSeparated(cs, i, s);
    forall j | 0 <= j < |before| ensures before[j].Right() < Fused(cs, i, s).left { BeforeFused(cs, s, j); }
    forall j | 0 <= j < |after| ensures Fused(cs, i, s).Right() < after[j].left { AfterFused(cs, s, j); }
    Joined(before, Fused(cs, i, s), after);
  }

  lemma Joined(a: seq<Chunk>, c: Chunk, b: seq<Chunk>)
    requires Separated(a) && Separated(b) && c.bytes != []
    requires forall j :: 0 <= j < |a| ==> a[j].Right() < c.left
    requires forall j :: 0 <= j < |b| ==> c.Right() < b[j].left
    ensures Separated(a + [c] + b)
  {
    var m := a + [c] + b;
    forall j, k | 0 <= j < k < |m| ensures m[j].Right() < m[k].left {
      assert j < |a| ==> m[j] == a[j];
      assert k > |a| ==> m[k] == b[k - |a| - 1];
    }
  }

  lemma InadmissibleOverlaps(cs: seq<Chunk>, s: Chunk)
    requires Separated(cs) && s.bytes != [] && !Admissible(cs, s)
    ensures !Separated(Merge(cs, s))
  {
    var i := Upto(cs, s.left);
    var m := Merge(cs, s);
    var n := |Before(cs, i, s)|;
    FusedExtent(cs, i, s);
    MergeElement(cs, s, n);
    if i > 0 && s.Right() < cs[i - 1].Right() {
      MergeElement(cs, s, n - 1);
      assert m[n - 1].Right() >= m[n].left;
    } else {
      MergeElement(cs, s, n + 1);
      assert m[n].Right() >= m[n + 1].left;
    }
  }

  /** Separation survives a merge exactly when the segment is admissible. */
  lemma MergeSeparated(cs: seq<Chunk>, s: Chunk)
    requires Separated(cs) && s.bytes != []
    ensures Separated(Merge(cs, s)) <==> Admissible(cs, s)
  {
    if Admissible(cs, s) {
      AdmissibleSeparates(cs, s);
    } else {
      InadmissibleOverlaps(cs, s);
    }
  }

  lemma OutAbove(cs: seq<Chunk>, p: nat)
    requires forall i :: 0 <= i < |cs| ==> cs[i].Right() <= p
    ensures At(cs, p).None?
  {
    Covered(cs, p);
  }

  lemma OutBelow(cs: seq<Chunk>, p: nat)
    requires forall i :: 0 <= i < |cs| ==> p < cs[i].left
    ensures At(cs, p).None?
  {
    Covered(cs, p);
  }

  /** The byte at a position of a separated list, read from the chunks before `i`. */
  lemma AtBefore(cs: seq<Chunk>, i: nat, p: nat)
    requires Separated(cs) && 0 < i <= |cs|
    ensures At(cs[..i], p) == At(cs[..i - 1], p).Or(ByteAt(cs[i - 1], p))
    ensures p >= cs[i - 1].left ==> At(cs[..i - 1], p).None?
  {
    AtPrefix(cs, i, p);
    if p >= cs[i - 1].left { OutAbove(cs[..i - 1], p); }
  }

  /** The byte at a position of a separated list, read from the chunks from `i` on. */
  lemma AtAfter(cs: seq<Chunk>, i: nat, p: nat)
    requires Separated(cs) && i < |cs|
    ensures At(cs[i..], p) == ByteAt(cs[i], p).Or(At(cs[i + 1..], p))
    ensures p < cs[i].Right() ==> At(cs[i + 1..], p).None?
    ensures p < cs[i].left ==> At(cs[i..], p).None?
  {
    AtSplit(cs, i, p);
    if p < cs[i].left { OutBelow(cs[i..], p); }
    if p < cs[i].Right() { OutBelow(cs[i + 1..], p); }
  }

  /** First write wins: an admissible merge gives each position the byte it already
      had, and the segment's byte where it had none. */
  lemma MergeByte(cs: seq<Chunk>, s: Chunk, p: nat)
    requires Separated(cs) && Admissible(cs, s)
    ensures At(Merge(cs, s), p) == At(cs, p).Or(ByteAt(s, p))
  {
    var i := Upto(cs, s.left);
    AtMiddle(Before(cs, i, s), Fused(cs, i, s), After(cs, i, s), p);
    FusedByte(cs, i, s, p);
    AtSplit(cs, i, p);
    if i > 0 { AtBefore(cs, i, p); }
    if i < |cs| { AtAfter(cs, i, p); }
  }

  /** A separated list is the only separated list with its position-to-byte view:
      it is the list of maximal contiguous runs of that view. */
  lemma {:induction false} SeparatedUnique(a: seq<Chunk>, b: seq<Chunk>)
    requires Separated(a) && Separated(b)
    requires forall p: nat :: At(a, p) == At(b, p)
    ensures a == b
  {
    if a == [] || b == [] {
      if a != [] { assert a[0].Has(a[0].left); Covered(a, a[0].left); }
      if b != [] { assert b[0].Has(b[0].left); Covered(b, b[0].left); }
    } else {
      FirstRun(a, b);
      FirstRun(b, a);
      forall p: nat ensures ByteAt(a[0], p).Or(At(a[1..], p)) == ByteAt(b[0], p).Or(At(b[1..], p)) {
        assert At(a, p) == At(b, p);
      }
      SameChunk(a[0], b[0], a[1..], b[1..]);
      forall p: nat ensures At(a[1..], p) == At(b[1..], p) {
        assert At(a, p) == At(b, p);
        if a[0].Has(p) { OutBelow(a[1..], p); OutBelow(b[1..], p); }
      }
      SeparatedUnique(a[1..], b[1..]);
      assert a == [a[0]] + a[1..] && b == [b[0]] + b[1..];
    }
  }

  /** The first chunk starts no later than the other list's and ends no later. */
  lemma FirstRun(a: seq<Chunk>, b: seq<Chunk>)
    requires a != [] && b != [] && Separated(a) && Separated(b)
    requires forall p: nat :: At(a, p) == At(b, p)
    ensures a[0].left <= b[0].left
    ensures b[0].left <= a[0].left ==> a[0].Right() <= b[0].Right()
  {
    assert b[0].Has(b[0].left);
    Covered(b, b[0].left);
    Covered(a, b[0].left);
    if b[0].left <= a[0].left && b[0].Right() < a[0].Right() {
      assert a[0].Has(b[0].Right());
      Covered(a, b[0].Right());
      Covered(b, b[0].Right());
    }
  }

  lemma SameChunk(c: Chunk, d: Chunk, a: seq<Chunk>, b: seq<Chunk>)
    requires c.left == d.left && c.Right() == d.Right()
    requires forall p: nat :: ByteAt(c, p).Or(At(a, p)) == ByteAt(d, p).Or(At(b, p))
    ensures c == d
  {
    forall i | 0 <= i < |c.bytes| ensures c.bytes[i] == d.bytes[i] {
      assert ByteAt(c, c.left + i).Or(At(a, c.left + i)) == ByteAt(d, c.left + i).Or(At(b, c.left + i));
    }
  }
}
