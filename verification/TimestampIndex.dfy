/** The ordered map behind `StreamBuffer.timestamps`: floor lookup and the ascending
    scans of the two clean-up methods of agent/buffer/stream_buffer.go. */
module TimestampIndex {
  import opened Options
  import opened Reassembly

  /** `k` is the greatest key of `m` not above `target`. */
  ghost predicate IsFloor(m: map<nat, nat>, target: nat, k: nat) {
    k in m && k <= target && forall j :: j in m && j <= target ==> j <= k
  }

  method Floor(m: map<nat, nat>, target: nat) returns (key: Option<nat>)
    ensures key.None? ==> forall k :: k in m ==> k > target
    ensures key.Some? ==> IsFloor(m, target, key.value)
  {
    key := None;
    var todo := m.Keys;
    while todo != {}
      invariant todo <= m.Keys
      invariant key.None? ==> forall k :: k in m && k !in todo ==> k > target
      invariant key.Some? ==> key.value in m && key.value <= target
      invariant key.Some? ==> forall k :: k in m && k !in todo && k <= target ==> k <= key.value
      decreases |todo|
    {
      var k :| k in todo;
      if k <= target && (key.None? || k > key.value) {
        key := Some(k);
      }
      todo := todo - {k};
    }
  }

  method LeastKey(s: set<nat>) returns (key: nat)
    requires s != {}
    ensures key in s && forall k :: k in s ==> key <= k
  {
    ghost var x :| x in s;
    MinExists(s, x);
    key :| key in s && forall k :: k in s ==> key <= k;
  }

  /** The keys an ascending scan meets before the first one at or above `target`. */
  method KeysBelow(m: map<nat, nat>, target: nat) returns (gone: set<nat>)
    ensures m - gone == CleanBelow(m, target)
  {
    gone := {};
    var rest := m.Keys;
    var stop := false;
    while !stop && rest != {}
      invariant forall k :: k in m <==> k in gone || k in rest
      invariant forall k :: k in gone ==> k < target
      invariant stop ==> forall k :: k in rest ==> k >= target
      decreases rest, !stop
    {
      var key := LeastKey(rest);
      if key < target {
        gone := gone + {key};
        rest := rest - {key};
      } else {
        stop := true;
      }
    }
  }

  /** The first `n` keys of an ascending scan. */
  method FirstKeys(m: map<nat, nat>, n: nat) returns (gone: set<nat>)
    requires n <= |m|
    ensures gone == Smallest(m.Keys, n)
  {
    gone := {};
    var rest := m.Keys;
    while |gone| < n
      invariant gone <= m.Keys && rest == m.Keys - gone && |gone| <= n
      invariant forall a, b :: a in gone && b in m.Keys && b !in gone ==> a < b
      decreases n - |gone|
    {
      NotAll(m.Keys, gone);
      assert forall b :: b in m.Keys && b !in gone ==> b in rest;
      var key := LeastKey(rest);
      gone := gone + {key};
      rest := rest - {key};
    }
    LowerSetUnique(m.Keys, gone, Smallest(m.Keys, n));
  }

  lemma NotAll(s: set<nat>, part: set<nat>)
    requires |part| < |s|
    ensures s - part != {}
  {
    if s - part == {} {
      assert forall x :: x in s && x !in part ==> x in s - part;
      Subset(s, part);
    }
  }

  lemma Subset(a: set<nat>, b: set<nat>)
    requires a <= b
    ensures |a| <= |b|
    ensures |a| == |b| ==> a == b
  {
    assert b == a + (b - a);
  }

  /** Two sets of equal size that each lie below their complement are equal. */
  lemma LowerSetUnique(s: set<nat>, q: set<nat>, r: set<nat>)
    requires q <= s && r <= s && |q| == |r|
    requires forall a, b :: a in q && b in s && b !in q ==> a < b
    requires forall a, b :: a in r && b in s && b !in r ==> a < b
    ensures q == r
  {
    if q <= r {
      Subset(q, r);
    } else if r <= q {
      Subset(r, q);
    }
  }
}
