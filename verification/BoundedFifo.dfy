/** What a bounded first-in first-out queue does, its ring of slots, and the references its messages hold. */
module BoundedFifo {
  import Indices

  /** A message refers to a track list, whatever a list is. */
  datatype Msg<L> = Msg(sensorId: int, list: L, timestamp: real)

  /** How often a list occurs among the messages. */
  ghost function Occurs<L>(q: seq<Msg<L>>, l: L): nat {
    if q == [] then 0 else (if q[0].list == l then 1 else 0) + Occurs(q[1..], l)
  }

  lemma OccursFirst<L>(q: seq<Msg<L>>, l: L)
    requires q != []
    ensures Occurs(q, l) == (if q[0].list == l then 1 else 0) + Occurs(q[1..], l)
  {
  }

  lemma OccursNone<L>(l: L)
    ensures Occurs([], l) == 0
  {
  }

  lemma OccursOne<L>(m: Msg<L>, l: L)
    ensures Occurs([m], l) == if m.list == l then 1 else 0
  {
    assert [m][1..] == [];
  }

  lemma {:induction false} OccursConcat<L>(a: seq<Msg<L>>, b: seq<Msg<L>>, l: L)
    ensures Occurs(a + b, l) == Occurs(a, l) + Occurs(b, l)
  {
    if a == [] {
      assert a + b == b;
    } else {
      assert (a + b)[1..] == a[1..] + b;
      OccursConcat(a[1..], b, l);
    }
  }

  lemma OccursPrefix<L>(q: seq<Msg<L>>, i: nat, l: L)
    requires i < |q|
    ensures Occurs(q[..i + 1], l) == Occurs(q[..i], l) + (if q[i].list == l then 1 else 0)
    ensures Occurs(q[..i + 1], l) <= Occurs(q, l)
  {
    hide Occurs;
    assert q[..i + 1] == q[..i] + [q[i]] && q == q[..i + 1] + q[i + 1..];
    OccursConcat(q[..i], [q[i]], l);
    OccursOne(q[i], l);
    OccursConcat(q[..i + 1], q[i + 1..], l);
  }

  lemma {:induction false} OccursMember<L>(q: seq<Msg<L>>, m: Msg<L>)
    requires m in q
    ensures Occurs(q, m.list) > 0
  {
    if q[0] == m {
    } else {
      OccursMember(q[1..], m);
    }
  }

  function Offer<M>(q: seq<M>, capacity: nat, m: M): (seq<M>, bool) {
    if |q| >= capacity then (q, false) else (q + [m], true)
  }

  function Take<M>(q: seq<M>): (M, seq<M>)
    requires q != []
  {
    (q[0], q[1..])
  }

  /** Position x of a ring of n slots, for x within two turns. */
  function Wrap(x: int, n: int): int { if x < n then x else x - n }

  lemma ModWrap(x: nat, n: nat)
    requires x < 2 * n
    ensures x % n == Wrap(x, n)
  {
    var w := if x < n then 0 else 1;
    assert x == w * n + Wrap(x, n);
    Indices.DivModUnique(x / n, x % n, w, Wrap(x, n), n);
  }

  /** The n messages in the slots from head on. */
  function Ring<M>(b: seq<M>, head: nat, n: nat): (q: seq<M>)
    requires head < |b| && n <= |b|
    ensures |q| == n && forall i | 0 <= i < n :: q[i] == b[Wrap(head + i, |b|)]
  {
    seq(n, i requires 0 <= i < n => b[Wrap(head + i, |b|)])
  }

  lemma RingAppend<M>(b: seq<M>, head: nat, n: nat, m: M)
    requires head < |b| && n < |b|
    ensures Ring(b[Wrap(head + n, |b|) := m], head, n + 1) == Ring(b, head, n) + [m]
  {
  }

  lemma RingRemove<M>(b: seq<M>, head: nat, n: nat, m: M)
    requires head < |b| && 0 < n <= |b|
    ensures b[head] == Ring(b, head, n)[0]
    ensures Ring(b[head := m], Wrap(head + 1, |b|), n - 1) == Ring(b, head, n)[1..]
  {
  }
}
