/**
 Counting and ordering facts about traces of collaborator calls.
 */
module Traces {
  import opened Collaborators

  /** Some call in `t` is of kind `k`. */
  predicate Occurs(t: seq<Call>, k: Kind) {
    exists i :: 0 <= i < |t| && t[i].Kind() == k
  }

  /** The number of calls of kind `k` in `t`. */
  function Count(t: seq<Call>, k: Kind): (n: nat)
    ensures n <= |t|
    ensures n == 0 <==> !Occurs(t, k)
  {
    if |t| == 0 then 0
    else
      assert forall i :: 0 < i < |t| ==> t[i] == t[1..][i - 1];
      (if t[0].Kind() == k then 1 else 0) + Count(t[1..], k)
  }

  lemma {:induction false} CountAppend(a: seq<Call>, b: seq<Call>, k: Kind)
    ensures Count(a + b, k) == Count(a, k) + Count(b, k)
    decreases |a|
  {
    if |a| == 0 {
      assert a + b == b;
    } else {
      assert (a + b)[1..] == a[1..] + b;
      CountAppend(a[1..], b, k);
    }
  }

  /** A single call counts once for its own kind and for no other. */
  lemma CountSingle(c: Call, k: Kind)
    ensures Count([c], k) == if c.Kind() == k then 1 else 0
  {
    assert [c][1..] == [];
  }

  /** The calls of `t` follow the protocol order strictly: no step is made twice or out of turn. */
  predicate Ordered(t: seq<Call>) {
    forall i, j :: 0 <= i < j < |t| ==> Rank(t[i].Kind()) < Rank(t[j].Kind())
  }

  /** Two ordered traces, all of whose steps come before all of the other's, make one ordered trace. */
  lemma OrderedConcat(a: seq<Call>, b: seq<Call>, boundary: nat)
    requires Ordered(a) && Ordered(b)
    requires forall i :: 0 <= i < |a| ==> Rank(a[i].Kind()) < boundary
    requires forall j :: 0 <= j < |b| ==> boundary <= Rank(b[j].Kind())
    ensures Ordered(a + b)
  {
    forall i, j | 0 <= i < j < |a + b| ensures Rank((a + b)[i].Kind()) < Rank((a + b)[j].Kind()) {
      if j < |a| {
        assert (a + b)[i] == a[i] && (a + b)[j] == a[j];
      } else if i < |a| {
        assert (a + b)[i] == a[i] && (a + b)[j] == b[j - |a|];
      } else {
        assert (a + b)[i] == b[i - |a|] && (a + b)[j] == b[j - |a|];
      }
    }
  }

  /** The i-th call of `t` is the i-th step of the protocol. */
  predicate Stepwise(t: seq<Call>) {
    forall i :: 0 <= i < |t| ==> Rank(t[i].Kind()) == i
  }

  /** In a stepwise trace a kind of call is made once if it sits at its own step, and never otherwise. */
  lemma StepwiseCount(t: seq<Call>, k: Kind)
    requires Stepwise(t)
    ensures Count(t, k) == if Rank(k) < |t| && t[Rank(k)].Kind() == k then 1 else 0
  {
    assert Ordered(t);
    OrderedCount(t, k);
  }

  /** In a trace that keeps the protocol order, every kind of call is made at most once. */
  lemma {:induction false} OrderedAtMostOnce(t: seq<Call>, k: Kind)
    requires Ordered(t)
    ensures Count(t, k) <= 1
    decreases |t|
  {
    if |t| > 0 {
      assert Ordered(t[1..]) by {
        forall i, j | 0 <= i < j < |t| - 1
          ensures Rank(t[1..][i].Kind()) < Rank(t[1..][j].Kind())
        {
          assert t[1..][i] == t[i + 1] && t[1..][j] == t[j + 1];
        }
      }
      OrderedAtMostOnce(t[1..], k);
      if t[0].Kind() == k {
        assert !Occurs(t[1..], k) by {
          forall i | 0 <= i < |t| - 1 ensures t[1..][i].Kind() != k {
            assert t[1..][i] == t[i + 1];
          }
        }
      }
    }
  }

  /** In an ordered trace, `Count` is exactly the indicator of occurrence. */
  lemma OrderedCount(t: seq<Call>, k: Kind)
    requires Ordered(t)
    ensures Count(t, k) == if Occurs(t, k) then 1 else 0
  {
    OrderedAtMostOnce(t, k);
  }

  /** In an ordered trace, every call of kind `a` precedes every call of a later kind `b`. */
  lemma OrderedPrecedes(t: seq<Call>, a: Kind, b: Kind, i: int, j: int)
    requires Ordered(t) && Rank(a) < Rank(b)
    requires 0 <= i < |t| && t[i].Kind() == a
    requires 0 <= j < |t| && t[j].Kind() == b
    ensures i < j
  {
  }
}
