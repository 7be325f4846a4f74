/** Several rings in one map: no two share an object, so a change of one leaves the
    contents of the others alone. */
module RingTables {
  import opened RingBuffers

  type Table<T(!new)> = map<nat, RingBuffer<T>>

  /** Which key each ring and each array belongs to. */
  type Owner = map<object, nat>

  ghost predicate Owned<T(!new)>(ring: RingBuffer<T>, k: nat, owner: Owner, size: nat)
    reads ring, ring.data
  {
    && ring in owner && owner[ring] == k && ring.data in owner && owner[ring.data] == k
    && ring.Valid() && ring.size == size
  }

  /** The rings are valid, and no two of them share an object. */
  ghost predicate TableOk<T(!new)>(rings: Table<T>, owner: Owner, size: nat)
    reads owner.Keys, set k | k in rings :: rings[k]
  {
    forall k :: k in rings ==> rings[k] in owner && rings[k].data in owner && Owned(rings[k], k, owner, size)
  }

  /** The rings hold the given sequences. */
  ghost predicate Holds<T(!new)>(rings: Table<T>, m: map<nat, seq<T>>)
    reads set k | k in rings :: rings[k]
  {
    rings.Keys == m.Keys && forall k :: k in rings ==> rings[k].contents == m[k]
  }

  function At<T>(m: map<nat, seq<T>>, k: nat): seq<T> {
    if k in m then m[k] else []
  }

  lemma SetTwice<T>(m: map<nat, seq<T>>, k: nat, a: seq<T>, b: seq<T>)
    ensures m[k := a][k := b] == m[k := b]
  {
  }

  /** Sees to it that there is a ring under `k`. */
  method EnsureRing<T(!new)>(rings: Table<T>, size: nat, ghost owner: Owner, ghost m: map<nat, seq<T>>, k: nat)
    returns (next: Table<T>, ghost owner': Owner)
    requires TableOk(rings, owner, size) && Holds(rings, m) && size > 0
    ensures k in next && TableOk(next, owner', size) && Holds(next, m[k := At(m, k)])
    ensures fresh(owner'.Keys - owner.Keys)
  {
    next, owner' := rings, owner;
    if k !in rings {
      var ring := new RingBuffer<T>(size);
      next := rings[k := ring];
      owner' := owner[ring := k][ring.data := k];
      forall j | j in rings ensures Owned(rings[j], j, owner', size) {
        assert Owned(rings[j], j, owner, size);
      }
    }
  }
}
