/** The sequences that stand for the kernel's intrusive lists. RtList proves that the pointer
    primitives do to a ring what these do to its sequence of nodes. */
module Seqs {

  function Without(q: seq<nat>, t: nat): (r: seq<nat>)
    ensures forall x :: x in r <==> x in q && x != t
    ensures t !in q ==> r == q
    ensures |r| <= |q|
  {
    if q == [] then []
    else if q[0] == t then Without(q[1..], t)
    else [q[0]] + Without(q[1..], t)
  }

  function InsertAt(q: seq<nat>, p: nat, t: nat): (r: seq<nat>)
    requires p <= |q|
    ensures |r| == |q| + 1
    ensures forall x :: x in r <==> x == t || x in q
  {
    q[..p] + [t] + q[p..]
  }

  function IndexOf(q: seq<nat>, t: nat): (i: nat)
    requires t in q
    ensures i < |q| && q[i] == t
  {
    if q[0] == t then 0 else 1 + IndexOf(q[1..], t)
  }

  ghost predicate NoDup(q: seq<nat>) {
    forall i, j | 0 <= i < j < |q| :: q[i] != q[j]
  }

  lemma {:induction false} WithoutKeepsDistinct(q: seq<nat>, t: nat)
    requires NoDup(q)
    ensures NoDup(Without(q, t))
  {
    if q != [] {
      WithoutKeepsDistinct(q[1..], t);
      var rest := Without(q[1..], t);
      if q[0] != t {
        assert forall x <- rest :: x in q[1..];
        assert forall j | 0 <= j < |rest| :: rest[j] in rest;
      }
    }
  }

  lemma {:induction false} WithoutIsShorter(q: seq<nat>, t: nat)
    ensures t in q ==> |Without(q, t)| < |q|
  {
    if q != [] && q[0] != t {
      WithoutIsShorter(q[1..], t);
    }
  }

  /** Of a list without repetition one place goes, and the order of the others stays. */
  lemma {:induction false} WithoutAt(q: seq<nat>, j: nat)
    requires NoDup(q) && j < |q|
    ensures Without(q, q[j]) == q[..j] + q[j + 1..]
  {
    if j == 0 {
      HeadWithout(q);
    } else {
      WithoutAt(q[1..], j - 1);
      assert q[0] != q[j];
      assert q[..j] + q[j + 1..] == [q[0]] + (q[1..][..j - 1] + q[1..][j..]);
    }
  }

  lemma InsertKeepsDistinct(q: seq<nat>, p: nat, t: nat)
    requires NoDup(q) && p <= |q| && t !in q
    ensures NoDup(InsertAt(q, p, t))
  {
    var r := InsertAt(q, p, t);
    forall i, j | 0 <= i < j < |r|
      ensures r[i] != r[j]
    {
      var i', j' := if i < p then i else i - 1, if j < p then j else j - 1;
      if i != p && j != p {
        assert r[i] == q[i'] && r[j] == q[j'];
      }
    }
  }

  lemma {:induction false} HeadWithout(q: seq<nat>)
    requires q != [] && NoDup(q)
    ensures Without(q, q[0]) == q[1..]
  {
    assert q[0] !in q[1..];
  }

  /** A list without repetition is no longer than a set that holds its members. */
  lemma {:induction false} AtMost(q: seq<nat>, s: set<nat>)
    requires NoDup(q) && forall x <- q :: x in s
    ensures |q| <= |s|
  {
    if q != [] {
      assert q[0] !in q[1..];
      AtMost(q[1..], s - {q[0]});
    }
  }

  function UpTo(n: nat): (s: set<nat>)
    ensures forall x: nat :: x in s <==> x < n
    ensures |s| == n
  {
    if n == 0 then {} else UpTo(n - 1) + {n - 1}
  }
}
