/** The kernel's circular doubly linked lists: nodes in memory, keyed by address. A list is a ring of nodes whose
    first is the list head; the primitives are proved to do to the ring what Seqs does to a sequence. */
module RtList {
  import opened Seqs

  /** The nodes of ring, in order, each linked to the one after it and the last to the first. */
  ghost predicate Ring(next: map<nat, nat>, prev: map<nat, nat>, ring: seq<nat>) {
    && ring != [] && NoDup(ring)
    && (forall i | 0 <= i < |ring| :: ring[i] in next && ring[i] in prev)
    && (forall i, j | 0 <= i < j < |ring| && j <= i + 1 :: next[ring[i]] == ring[j] && prev[ring[j]] == ring[i])
    && next[ring[|ring| - 1]] == ring[0] && prev[ring[0]] == ring[|ring| - 1]
  }

  function Succ(ring: seq<nat>, i: nat): nat
    requires i < |ring|
  {
    if i == |ring| - 1 then ring[0] else ring[i + 1]
  }

  function Pred(ring: seq<nat>, i: nat): nat
    requires i < |ring|
  {
    if i == 0 then ring[|ring| - 1] else ring[i - 1]
  }

  lemma Neighbours(next: map<nat, nat>, prev: map<nat, nat>, ring: seq<nat>, i: nat)
    requires Ring(next, prev, ring) && i < |ring|
    ensures ring[i] in next && next[ring[i]] == Succ(ring, i)
    ensures ring[i] in prev && prev[ring[i]] == Pred(ring, i)
    ensures Succ(ring, i) in prev && Pred(ring, i) in next
  {
    if i < |ring| - 1 {
      assert next[ring[i]] == ring[i + 1];
    }
    if i > 0 {
      assert prev[ring[i]] == ring[i - 1];
    }
  }

  /** Linking n in between node p - 1 and the one after it. */
  lemma InsertKeepsRing(next: map<nat, nat>, prev: map<nat, nat>, ring: seq<nat>, p: nat, n: nat)
    requires Ring(next, prev, ring) && 0 < p <= |ring| && n !in ring
    ensures var a, b := ring[p - 1], Succ(ring, p - 1);
            Ring(next[a := n][n := b], prev[n := a][b := n], InsertAt(ring, p, n))
  {
    var a, b := ring[p - 1], Succ(ring, p - 1);
    var next', prev' := next[a := n][n := b], prev[n := a][b := n];
    var r := InsertAt(ring, p, n);
    InsertKeepsDistinct(ring, p, n);
    forall i, j | 0 <= i < j < |r| && j <= i + 1
      ensures next'[r[i]] == r[j] && prev'[r[j]] == r[i]
    {
      if j < p {
        assert next[ring[i]] == ring[j] && ring[j] != b && ring[i] != a;
      } else if i > p {
        assert next[ring[i - 1]] == ring[j - 1] && ring[j - 1] != b && ring[i - 1] != a;
      }
    }
    forall i | 0 <= i < |r|
      ensures r[i] in next' && r[i] in prev'
    {
      assert i != p ==> r[i] == ring[if i < p then i else i - 1];
    }
    assert r[|r| - 1] == if p == |ring| then n else ring[|ring| - 1];
  }

  /** Unlinking node i of a ring of more than one. */
  lemma RemoveKeepsRing(next: map<nat, nat>, prev: map<nat, nat>, ring: seq<nat>, i: nat)
    requires Ring(next, prev, ring) && i < |ring| && |ring| > 1
    ensures Ring(next[Pred(ring, i) := Succ(ring, i)], prev[Succ(ring, i) := Pred(ring, i)], ring[..i] + ring[i + 1..])
    ensures ring[i] !in ring[..i] + ring[i + 1..]
  {
    var a, b := Pred(ring, i), Succ(ring, i);
    var next', prev' := next[a := b], prev[b := a];
    var r := ring[..i] + ring[i + 1..];
    forall k | 0 <= k < |r|
      ensures r[k] == ring[if k < i then k else k + 1]
    {
    }
    forall j, k | 0 <= j < k < |r|
      ensures r[j] != r[k] && (k <= j + 1 ==> next'[r[j]] == r[k] && prev'[r[k]] == r[j])
    {
      var j', k' := if j < i then j else j + 1, if k < i then k else k + 1;
      assert r[j] == ring[j'] && r[k] == ring[k'];
      if k <= j + 1 && k' <= j' + 1 {
        assert next[ring[j']] == ring[k'] && prev[ring[k']] == ring[j'];
      }
    }
  }

  // ---------- linking a node that is linked already ----------

  /** The pointers after rt_list_insert_after(l, n), whatever n was before. */
  function NextAfter(next: map<nat, nat>, l: nat, n: nat): map<nat, nat>
    requires l in next
  {
    next[n := next[l]][l := n]
  }

  function PrevAfter(next: map<nat, nat>, prev: map<nat, nat>, l: nat, n: nat): map<nat, nat>
    requires l in next
  {
    prev[next[l] := n][n := l]
  }

  /** A node of a ring, its neighbours and their pointers back. */
  lemma Member(next: map<nat, nat>, prev: map<nat, nat>, r: seq<nat>, x: nat)
    requires Ring(next, prev, r) && x in r
    ensures x in next && x in prev && next[x] in r && prev[x] in r
    ensures next[x] in prev && prev[next[x]] == x && prev[x] in next && next[prev[x]] == x
  {
    var i :| 0 <= i < |r| && r[i] == x;
    Neighbours(next, prev, r, i);
    Neighbours(next, prev, r, if i == |r| - 1 then 0 else i + 1);
    Neighbours(next, prev, r, if i == 0 then |r| - 1 else i - 1);
  }

  lemma {:induction false} WalkForward(next: map<nat, nat>, prev: map<nat, nat>, r: seq<nat>, ring: seq<nat>, k: nat)
    requires Ring(next, prev, r) && k < |ring| && ring[0] in r
    requires forall m | 0 <= m < k :: ring[m] in next && next[ring[m]] == Succ(ring, m)
    ensures ring[k] in r
    decreases k
  {
    if k > 0 {
      WalkForward(next, prev, r, ring, k - 1);
      Member(next, prev, r, ring[k - 1]);
    }
  }

  /** From the first node backwards, around the end. */
  lemma {:induction false} WalkBackward(next: map<nat, nat>, prev: map<nat, nat>, r: seq<nat>, ring: seq<nat>, j: nat)
    requires Ring(next, prev, r) && j < |ring| && ring[0] in r
    requires forall m | j < m < |ring| :: ring[m] in prev && prev[ring[m]] == Pred(ring, m)
    requires j + 1 < |ring| ==> prev[ring[0]] == Pred(ring, 0)
    ensures Succ(ring, j) in r
    decreases |ring| - j
  {
    if j + 1 < |ring| {
      Member(next, prev, r, ring[0]);
      WalkBackward(next, prev, r, ring, j + 1);
      Member(next, prev, r, Succ(ring, j + 1));
    }
  }

  /** Linking node j of the ring again, behind node i at or after it. */
  lemma RelinkBehind(next: map<nat, nat>, prev: map<nat, nat>, ring: seq<nat>, i: nat, j: nat, r: seq<nat>)
    requires Ring(next, prev, ring) && 0 < j <= i < |ring| && ring[0] in r
    ensures ring[i] in next && !Ring(NextAfter(next, ring[i], ring[j]), PrevAfter(next, prev, ring[i], ring[j]), r)
  {
    var next', prev' := NextAfter(next, ring[i], ring[j]), PrevAfter(next, prev, ring[i], ring[j]);
    assert prev'[ring[j]] == ring[i] && ring[j - 1] != ring[i];
    if Ring(next', prev', r) {
      forall m | 0 <= m < j
        ensures ring[m] in next' && next'[ring[m]] == Succ(ring, m)
      {
        Neighbours(next, prev, ring, m);
      }
      WalkForward(next', prev', r, ring, j - 1);
      Member(next', prev', r, ring[j - 1]);
    }
  }

  /** Linking node j of the ring again, behind node i before it. */
  lemma RelinkBefore(next: map<nat, nat>, prev: map<nat, nat>, ring: seq<nat>, i: nat, j: nat, r: seq<nat>)
    requires Ring(next, prev, ring) && i < j < |ring| && ring[0] in r
    ensures ring[i] in next && !Ring(NextAfter(next, ring[i], ring[j]), PrevAfter(next, prev, ring[i], ring[j]), r)
  {
    var next', prev' := NextAfter(next, ring[i], ring[j]), PrevAfter(next, prev, ring[i], ring[j]);
    Neighbours(next, prev, ring, i);
    assert next'[ring[j]] == ring[i + 1] && ring[i + 1] != Succ(ring, j);
    if Ring(next', prev', r) {
      forall m | 0 <= m < |ring| && (j < m || m == 0)
        ensures ring[m] in prev' && prev'[ring[m]] == Pred(ring, m)
      {
        Neighbours(next, prev, ring, m);
        assert ring[m] != ring[j] && ring[m] != ring[i + 1];
      }
      WalkBackward(next', prev', r, ring, j);
      Member(next', prev', r, Succ(ring, j));
    }
  }

  /** rt_list_insert_after leaves a list around the same head if and only if the node was not on the list: linked a
      second time it leaves pointers that form a ring of no nodes at all. */
  lemma InsertIsSafeIff(next: map<nat, nat>, prev: map<nat, nat>, ring: seq<nat>, i: nat, n: nat)
    requires Ring(next, prev, ring) && i < |ring| && n != ring[0]
    ensures ring[i] in next
    ensures (exists r: seq<nat> :: ring[0] in r && Ring(NextAfter(next, ring[i], n), PrevAfter(next, prev, ring[i], n), r)) <==> n !in ring
  {
    Neighbours(next, prev, ring, i);
    if n in ring {
      var j :| 0 <= j < |ring| && ring[j] == n;
      forall r: seq<nat> | ring[0] in r
        ensures !Ring(NextAfter(next, ring[i], n), PrevAfter(next, prev, ring[i], n), r)
      {
        if j <= i {
          RelinkBehind(next, prev, ring, i, j, r);
        } else {
          RelinkBefore(next, prev, ring, i, j, r);
        }
      }
    } else {
      InsertKeepsRing(next, prev, ring, i + 1, n);
      var b := Succ(ring, i);
      assert NextAfter(next, ring[i], n) == next[ring[i] := n][n := b];
      assert PrevAfter(next, prev, ring[i], n) == prev[n := ring[i]][b := n];
      var r := InsertAt(ring, i + 1, n);
      assert r[0] == ring[0];
      assert ring[0] in r && Ring(NextAfter(next, ring[i], n), PrevAfter(next, prev, ring[i], n), r);
    }
  }

  /** The pointers after rt_list_remove(n). */
  function NextWithout(next: map<nat, nat>, prev: map<nat, nat>, n: nat): map<nat, nat>
    requires n in prev && n in next
  {
    next[prev[n] := next[n]][n := n]
  }

  /** The first node of a list, linked again behind itself: it is its own successor, and removing it leaves it the first
      node, so a loop that empties the list from the front does not end. */
  lemma RelinkedFirstStaysFirst(next: map<nat, nat>, prev: map<nat, nat>, ring: seq<nat>)
    requires Ring(next, prev, ring) && |ring| > 1
    ensures var l, n := ring[0], ring[1];
            && n in next && l in next
            && var next', prev' := NextAfter(next, n, n), PrevAfter(next, prev, n, n);
            && n in next' && n in prev' && next'[n] == n && next'[l] == n
            && NextWithout(next', prev', n) == next'
  {
    Neighbours(next, prev, ring, 0);
    Neighbours(next, prev, ring, 1);
  }

  /** What a node keeps while others are linked and unlinked. */
  ghost predicate SameOutside(next: map<nat, nat>, prev: map<nat, nat>, next': map<nat, nat>, prev': map<nat, nat>, nodes: set<nat>) {
    && (forall x | x !in nodes :: x in next <==> x in next')
    && (forall x | x !in nodes :: x in prev <==> x in prev')
    && (forall x <- next | x !in nodes :: next'[x] == next[x])
    && (forall x <- prev | x !in nodes :: prev'[x] == prev[x])
  }

  /** Memory as seen by the list primitives. */
  class Links {
    var next: map<nat, nat>
    var prev: map<nat, nat>

    constructor ()
      ensures next == map[] && prev == map[]
    {
      next, prev := map[], map[];
    }

    ghost predicate IsRing(ring: seq<nat>)
      reads this
    {
      Ring(next, prev, ring)
    }

    /** rt_list_init. */
    method Init(l: nat)
      modifies this
      ensures IsRing([l]) && SameOutside(old(next), old(prev), next, prev, {l})
    {
      next, prev := next[l := l], prev[l := l];
    }

    /** rt_list_insert_after: n becomes the second node of the ring that starts at l. */
    method InsertAfter(l: nat, n: nat, ghost ring: seq<nat>, ghost i: nat)
      requires IsRing(ring) && i < |ring| && ring[i] == l && n !in ring
      modifies this
      ensures IsRing(InsertAt(ring, i + 1, n))
      ensures next == old(next)[l := n][n := Succ(ring, i)] && prev == old(prev)[n := l][Succ(ring, i) := n]
    {
      Neighbours(next, prev, ring, i);
      InsertKeepsRing(next, prev, ring, i + 1, n);
      prev := prev[next[l] := n];
      next := next[n := next[l]];
      next := next[l := n];
      prev := prev[n := l];
      assert next == old(next)[l := n][n := Succ(ring, i)];
      assert prev == old(prev)[n := l][Succ(ring, i) := n];
    }

    /** rt_list_insert_before: n becomes the last node of the ring that starts at l. */
    method InsertBefore(l: nat, n: nat, ghost ring: seq<nat>, ghost i: nat)
      requires IsRing(ring) && i < |ring| && ring[i] == l && n !in ring
      modifies this
      ensures IsRing(InsertAt(ring, if i == 0 then |ring| else i, n))
      ensures next == old(next)[Pred(ring, i) := n][n := l] && prev == old(prev)[n := Pred(ring, i)][l := n]
    {
      Neighbours(next, prev, ring, i);
      InsertKeepsRing(next, prev, ring, if i == 0 then |ring| else i, n);
      next := next[prev[l] := n];
      prev := prev[n := prev[l]];
      prev := prev[l := n];
      next := next[n := l];
    }

    /** The first two assignments of rt_list_remove. */
    method Unlink(n: nat, ghost ring: seq<nat>, ghost i: nat)
      requires IsRing(ring) && i < |ring| && ring[i] == n && |ring| > 1
      modifies this
      ensures IsRing(Without(ring, n)) && n !in Without(ring, n) && n in next && n in prev
      ensures next == old(next)[Pred(ring, i) := Succ(ring, i)] && prev == old(prev)[Succ(ring, i) := Pred(ring, i)]
    {
      Neighbours(next, prev, ring, i);
      RemoveKeepsRing(next, prev, ring, i);
      WithoutAt(ring, i);
      prev := prev[next[n] := prev[n]];
      next := next[prev[n] := next[n]];
    }

    /** rt_list_remove: n leaves its ring and forms one of its own. */
    method Remove(n: nat, ghost ring: seq<nat>, ghost i: nat)
      requires IsRing(ring) && i < |ring| && ring[i] == n
      modifies this
      ensures IsRing([n]) && (|ring| > 1 ==> IsRing(Without(ring, n)) && n !in Without(ring, n))
      ensures SameOutside(old(next), old(prev), next, prev, {n, Pred(ring, i), Succ(ring, i)})
    {
      if |ring| > 1 {
        RemoveKeepsRing(next, prev, ring, i);
        WithoutAt(ring, i);
      }
      Neighbours(next, prev, ring, i);
      prev := prev[next[n] := prev[n]];
      next := next[prev[n] := next[n]];
      next, prev := next[n := n], prev[n := n];
    }

    /** rt_list_isempty. */
    method IsEmpty(l: nat, ghost q: seq<nat>) returns (empty: bool)
      requires IsRing([l] + q)
      ensures empty <==> q == []
    {
      Neighbours(next, prev, [l] + q, 0);
      empty := next[l] == l;
      if q != [] {
        assert ([l] + q)[0] != ([l] + q)[1];
      }
    }

    /** rt_list_len. */
    method Len(l: nat, ghost q: seq<nat>) returns (len: nat)
      requires IsRing([l] + q)
      ensures len == |q|
    {
      len := 0;
      var p := l;
      ghost var ring := [l] + q;
      Neighbours(next, prev, ring, 0);
      while next[p] != l
        invariant len <= |q| && p == ring[len] && p in next
        decreases |q| - len
      {
        Neighbours(next, prev, ring, len);
        p := next[p];
        len := len + 1;
        assert p == ring[len];
      }
      Neighbours(next, prev, ring, len);
    }
  }

  // ---------- a list is a head and its entries ----------

  /** Inserting before the head appends. */
  lemma BeforeHeadAppends(l: nat, q: seq<nat>, n: nat)
    ensures InsertAt([l] + q, |[l] + q|, n) == [l] + (q + [n])
  {
    var ring := [l] + q;
    assert ring[..|ring|] == ring && ring[|ring|..] == [];
  }

  /** Inserting before entry i, or after the one before it, inserts at its place; after the head, in front. */
  lemma BeforeEntryInserts(l: nat, q: seq<nat>, n: nat, i: nat)
    requires i <= |q|
    ensures InsertAt([l] + q, i + 1, n) == [l] + InsertAt(q, i, n)
  {
    var ring := [l] + q;
    assert ring[..i + 1] == [l] + q[..i];
    assert ring[i + 1..] == q[i..];
    assert [l] + q[..i] + [n] + q[i..] == [l] + (q[..i] + [n] + q[i..]);
  }

  /** Removing an entry takes it out of the list. */
  lemma RemovingEntry(l: nat, q: seq<nat>, i: nat)
    requires NoDup([l] + q) && i < |q|
    ensures Without([l] + q, q[i]) == [l] + Without(q, q[i])
  {
    assert ([l] + q)[0] != ([l] + q)[i + 1];
    assert ([l] + q)[1..] == q;
  }
}
