/**
 * The circular singly-linked list of `struct thread_info` blocks, seen as
 * values: `next` maps each live block to the block its `next` field points
 * at, and `ring` lists the live blocks in `next` order, starting from the
 * anchor (the address of MainThread).
 */
module Ring {
  import opened Types

  /** No block occurs twice in the ring order. */
  ghost predicate Distinct(ring: seq<Addr>)
  {
    forall i, j :: 0 <= i < j < |ring| ==> ring[i] != ring[j]
  }

  /**
   * `next` links exactly the blocks of `ring`, each one to its successor
   * in `ring`, and the last one back to the first: the list is circular.
   */
  ghost predicate Linked(next: map<Addr, Addr>, ring: seq<Addr>)
  {
    && |ring| > 0
    && Distinct(ring)
    && next.Keys == Elems(ring)
    && (forall k {:trigger next[ring[k]]} :: 0 <= k < |ring| - 1 ==> ring[k] in next && next[ring[k]] == ring[k + 1])
    && ring[|ring| - 1] in next && next[ring[|ring| - 1]] == ring[0]
  }

  /** The blocks of `ring`, as a set. */
  function Elems(ring: seq<Addr>): set<Addr>
    decreases |ring|
  {
    if |ring| == 0 then {} else {ring[0]} + Elems(ring[1..])
  }

  /** `Elems` holds exactly the blocks that occur in the sequence. */
  lemma {:induction false} ElemsContains(ring: seq<Addr>, a: Addr)
    ensures a in Elems(ring) <==> a in ring
    decreases |ring|
  {
    if |ring| > 0 {
      ElemsContains(ring[1..], a);
      assert ring == [ring[0]] + ring[1..];
    }
  }

  /** Every block at a position of the ring is linked. */
  lemma Member(next: map<Addr, Addr>, ring: seq<Addr>, k: nat)
    requires next.Keys == Elems(ring) && k < |ring|
    ensures ring[k] in next
  {
    ElemsContains(ring, ring[k]);
  }

  /** The blocks of a concatenation are those of its two parts. */
  lemma {:induction false} ElemsAppend(a: seq<Addr>, b: seq<Addr>)
    ensures Elems(a + b) == Elems(a) + Elems(b)
    decreases |a|
  {
    if |a| > 0 {
      ElemsAppend(a[1..], b);
      assert (a + b)[1..] == a[1..] + b;
    } else {
      assert a + b == b;
    }
  }

  /** A position of `a` in `ring`, the only one when `ring` is distinct. */
  function IndexOf(ring: seq<Addr>, a: Addr): (k: nat)
    requires a in Elems(ring)
    decreases |ring|
    ensures k < |ring| && ring[k] == a
  {
    if ring[0] == a then 0 else 1 + IndexOf(ring[1..], a)
  }

  /** `ring` with `t` placed immediately after position `i`. */
  function InsertAfter(ring: seq<Addr>, i: nat, t: Addr): (r: seq<Addr>)
    requires i < |ring|
    ensures |r| == |ring| + 1
    ensures forall k :: 0 <= k < |r| ==>
      r[k] == if k <= i then ring[k] else if k == i + 1 then t else ring[k - 1]
  {
    ring[..i + 1] + [t] + ring[i + 1..]
  }

  /** `ring` without the element at position `m`, the others in their old order. */
  function RemoveAt(ring: seq<Addr>, m: nat): (r: seq<Addr>)
    requires m < |ring|
    ensures |r| == |ring| - 1
    ensures forall k :: 0 <= k < |r| ==> r[k] == if k < m then ring[k] else ring[k + 1]
  {
    ring[..m] + ring[m + 1..]
  }

  /** The block reached from `a` by following `next` `k` times. */
  function Walk(next: map<Addr, Addr>, a: Addr, k: nat): Addr
    decreases k
  {
    if k == 0 || a !in next then a else Walk(next, next[a], k - 1)
  }

  /**
   * Splicing a block `t` that is not yet linked in right after the block at
   * position `i` (the two pointer writes `t.next := cur.next; cur.next := t`)
   * gives again a circular list, whose order is the old one with `t`
   * inserted after position `i`.
   */
  lemma SpliceKeepsLinked(next: map<Addr, Addr>, ring: seq<Addr>, i: nat, t: Addr)
    requires Linked(next, ring) && i < |ring| && ring[i] in next && t !in next
    ensures Linked(next[t := next[ring[i]]][ring[i] := t], InsertAfter(ring, i, t))
    ensures InsertAfter(ring, i, t)[0] == ring[0]
  {
    Member(next, ring, i);
    ElemsContains(ring, t);
    InsertKeepsDistinct(ring, i, t);
    SpliceKeepsKeys(ring, i, t);
    SpliceLinks(next, ring, i, t);
    SpliceLink(next, ring, i, t, |ring|);
  }

  /** Inserting a block that is not in the ring keeps the ring free of repetitions. */
  lemma InsertKeepsDistinct(ring: seq<Addr>, i: nat, t: Addr)
    requires Distinct(ring) && i < |ring| && t !in ring
    ensures Distinct(InsertAfter(ring, i, t))
  {
    var ring' := InsertAfter(ring, i, t);
    forall p, q | 0 <= p < q < |ring'| ensures ring'[p] != ring'[q] {
      if p == i + 1 {
        assert ring'[q] == ring[q - 1];
      } else if q == i + 1 {
        assert ring'[p] == ring[p];
      } else {
        assert ring'[p] == ring[if p <= i then p else p - 1];
        assert ring'[q] == ring[if q <= i then q else q - 1];
      }
    }
  }

  /** After the splice the linked blocks are those of the longer ring. */
  lemma SpliceKeepsKeys(ring: seq<Addr>, i: nat, t: Addr)
    requires i < |ring|
    ensures Elems(InsertAfter(ring, i, t)) == Elems(ring) + {t}
  {
    assert ring == ring[..i + 1] + ring[i + 1..];
    ElemsAppend(ring[..i + 1], ring[i + 1..]);
    ElemsAppend(ring[..i + 1], [t]);
    ElemsAppend(ring[..i + 1] + [t], ring[i + 1..]);
    assert Elems([t]) == {t} + Elems([]);
  }

  /** Every link of the longer ring but the last one points at the next position. */
  lemma SpliceLinks(next: map<Addr, Addr>, ring: seq<Addr>, i: nat, t: Addr)
    requires Linked(next, ring) && i < |ring| && ring[i] in next && t !in next
    ensures forall k {:trigger (next[t := next[ring[i]]][ring[i] := t])[InsertAfter(ring, i, t)[k]]} ::
      0 <= k < |ring| ==>
      && InsertAfter(ring, i, t)[k] in next[t := next[ring[i]]][ring[i] := t]
      && (next[t := next[ring[i]]][ring[i] := t])[InsertAfter(ring, i, t)[k]] == InsertAfter(ring, i, t)[k + 1]
  {
    forall k | 0 <= k < |ring|
      ensures InsertAfter(ring, i, t)[k] in next[t := next[ring[i]]][ring[i] := t]
      ensures (next[t := next[ring[i]]][ring[i] := t])[InsertAfter(ring, i, t)[k]] == InsertAfter(ring, i, t)[k + 1]
    {
      SpliceLink(next, ring, i, t, k);
    }
  }

  /** The link out of position `k` of the longer ring, the last one wrapping to the anchor. */
  lemma SpliceLink(next: map<Addr, Addr>, ring: seq<Addr>, i: nat, t: Addr, k: nat)
    requires Linked(next, ring) && i < |ring| && ring[i] in next && t !in next && k <= |ring|
    ensures InsertAfter(ring, i, t)[k] in next[t := next[ring[i]]][ring[i] := t]
    ensures (next[t := next[ring[i]]][ring[i] := t])[InsertAfter(ring, i, t)[k]]
         == if k < |ring| then InsertAfter(ring, i, t)[k + 1] else ring[0]
  {
    var ring' := InsertAfter(ring, i, t);
    Member(next, ring, i);
    ElemsContains(ring, t);
    if k < i {
      Member(next, ring, k);
      assert ring'[k] == ring[k] && ring[k] != ring[i];
    } else if k == i + 1 {
      assert ring'[k] == t;
      if i + 1 < |ring| {
        assert ring'[k + 1] == ring[i + 1];
      }
    } else if k > i + 1 {
      Member(next, ring, k - 1);
      assert ring'[k] == ring[k - 1] && ring[k - 1] != ring[i];
    }
  }

  /**
   * Unlinking the block at position `m > 0` by redirecting its predecessor
   * (`pos.next := old.next`) and forgetting the block gives again a circular
   * list, whose order is the old one without that block.
   */
  lemma UnlinkKeepsLinked(next: map<Addr, Addr>, ring: seq<Addr>, m: nat)
    requires Linked(next, ring) && 0 < m < |ring| && ring[m] in next
    ensures Linked(next[ring[m - 1] := next[ring[m]]] - {ring[m]}, RemoveAt(ring, m))
    ensures RemoveAt(ring, m)[0] == ring[0]
  {
    Member(next, ring, m);
    Member(next, ring, m - 1);
    RemoveKeepsDistinct(ring, m);
    UnlinkKeepsKeys(ring, m);
    UnlinkLinks(next, ring, m);
    UnlinkLink(next, ring, m, |ring| - 2);
  }

  /** Removing a block keeps the ring free of repetitions. */
  lemma RemoveKeepsDistinct(ring: seq<Addr>, m: nat)
    requires Distinct(ring) && m < |ring|
    ensures Distinct(RemoveAt(ring, m))
  {
    var ring' := RemoveAt(ring, m);
    forall p, q | 0 <= p < q < |ring'| ensures ring'[p] != ring'[q] {
      assert ring'[p] == ring[if p < m then p else p + 1];
      assert ring'[q] == ring[if q < m then q else q + 1];
    }
  }

  /** After the unlink the linked blocks are those of the shorter ring. */
  lemma UnlinkKeepsKeys(ring: seq<Addr>, m: nat)
    requires Distinct(ring) && m < |ring|
    ensures Elems(RemoveAt(ring, m)) == Elems(ring) - {ring[m]}
  {
    assert ring == ring[..m] + ([ring[m]] + ring[m + 1..]);
    ElemsAppend(ring[..m], [ring[m]] + ring[m + 1..]);
    ElemsAppend([ring[m]], ring[m + 1..]);
    ElemsAppend(ring[..m], ring[m + 1..]);
    assert Elems([ring[m]]) == {ring[m]} + Elems([]);
    ElemsContains(ring[..m], ring[m]);
    ElemsContains(ring[m + 1..], ring[m]);
  }

  /** Every link of the shorter ring but the last one points at the next position. */
  lemma UnlinkLinks(next: map<Addr, Addr>, ring: seq<Addr>, m: nat)
    requires Linked(next, ring) && 0 < m < |ring| && ring[m] in next
    ensures forall k {:trigger (next[ring[m - 1] := next[ring[m]]] - {ring[m]})[RemoveAt(ring, m)[k]]} ::
      0 <= k < |ring| - 2 ==>
      && RemoveAt(ring, m)[k] in next[ring[m - 1] := next[ring[m]]] - {ring[m]}
      && (next[ring[m - 1] := next[ring[m]]] - {ring[m]})[RemoveAt(ring, m)[k]] == RemoveAt(ring, m)[k + 1]
  {
    forall k | 0 <= k < |ring| - 2
      ensures RemoveAt(ring, m)[k] in next[ring[m - 1] := next[ring[m]]] - {ring[m]}
      ensures (next[ring[m - 1] := next[ring[m]]] - {ring[m]})[RemoveAt(ring, m)[k]] == RemoveAt(ring, m)[k + 1]
    {
      UnlinkLink(next, ring, m, k);
    }
  }

  /** The link out of position `k` of the shorter ring, the last one wrapping to the anchor. */
  lemma UnlinkLink(next: map<Addr, Addr>, ring: seq<Addr>, m: nat, k: nat)
    requires Linked(next, ring) && 0 < m < |ring| && ring[m] in next && k < |ring| - 1
    ensures RemoveAt(ring, m)[k] in next[ring[m - 1] := next[ring[m]]] - {ring[m]}
    ensures (next[ring[m - 1] := next[ring[m]]] - {ring[m]})[RemoveAt(ring, m)[k]]
         == if k < |ring| - 2 then RemoveAt(ring, m)[k + 1] else ring[0]
  {
    var ring' := RemoveAt(ring, m);
    Member(next, ring, m);
    if k < m - 1 {
      Member(next, ring, k);
      assert ring'[k] == ring[k] && ring[k] != ring[m - 1] && ring[k] != ring[m];
    } else if k == m - 1 {
      Member(next, ring, m - 1);
      assert ring'[k] == ring[m - 1] && ring[m - 1] != ring[m];
    } else {
      Member(next, ring, k + 1);
      assert ring'[k] == ring[k + 1] && ring[k + 1] != ring[m - 1] && ring[k + 1] != ring[m];
    }
  }

  /**
   * Following `next` from position `j` visits the ring in order: after `k`
   * steps it is at position `j + k`, and after reaching the end it is back
   * at the anchor.
   */
  lemma {:induction false} WalkFollowsRing(next: map<Addr, Addr>, ring: seq<Addr>, j: nat, k: nat)
    requires Linked(next, ring) && j < |ring| && j + k <= |ring|
    ensures Walk(next, ring[j], k) == if j + k < |ring| then ring[j + k] else ring[0]
    decreases k
  {
    if k > 0 {
      Member(next, ring, j);
      if j + 1 < |ring| {
        WalkFollowsRing(next, ring, j + 1, k - 1);
      }
    }
  }

  /**
   * Round-robin order: the first `|ring|` steps from the anchor visit every
   * block exactly once, and step `|ring|` comes back to the anchor.
   */
  lemma RoundRobin(next: map<Addr, Addr>, ring: seq<Addr>)
    requires Linked(next, ring)
    ensures forall k :: 0 <= k < |ring| ==> Walk(next, ring[0], k) == ring[k]
    ensures forall p, q :: 0 <= p < q < |ring| ==> Walk(next, ring[0], p) != Walk(next, ring[0], q)
    ensures Walk(next, ring[0], |ring|) == ring[0]
  {
    forall k | 0 <= k <= |ring| ensures Walk(next, ring[0], k) == if k < |ring| then ring[k] else ring[0] {
      WalkFollowsRing(next, ring, 0, k);
    }
  }

  /** The successor of a linked block is the block after it in ring order, itself linked. */
  lemma SuccessorLinked(next: map<Addr, Addr>, ring: seq<Addr>, a: Addr)
    requires Linked(next, ring) && a in next
    ensures next[a] in next
    ensures next[a] == if IndexOf(ring, a) < |ring| - 1 then ring[IndexOf(ring, a) + 1] else ring[0]
  {
    var k := IndexOf(ring, a);
    if k < |ring| - 1 {
      assert next[ring[k]] == ring[k + 1];
      Member(next, ring, k + 1);
    } else {
      Member(next, ring, 0);
    }
  }

  /** A ring of one block is that block linked to itself, and nothing else. */
  lemma LoneRing(next: map<Addr, Addr>, ring: seq<Addr>)
    requires Linked(next, ring) && ring == [ring[0]]
    ensures next == map[ring[0] := ring[0]]
  {
    assert Elems(ring) == {ring[0]} + Elems([]);
  }

  /** The anchor points at itself exactly when it is the only block in the ring. */
  lemma AloneIffSelfLoop(next: map<Addr, Addr>, ring: seq<Addr>)
    requires Linked(next, ring)
    ensures next[ring[0]] == ring[0] <==> ring == [ring[0]]
  {
    if |ring| > 1 {
      assert next[ring[0]] == ring[1] != ring[0];
    }
  }
}
