/**
 The two coordinate axes of the filter. A decoupled 6x6 covariance is one 3x3 block repeated on the
 even (x, vx, ax) and the odd (y, vy, ay) indices, and the embedding of blocks is a homomorphism.
 */
module AxisModel {
  import opened Sums
  import opened Matrices
  import opened MatrixArrays
  import opened FilterModel

  /** The 6x6 matrix with block c on the even and on the odd indices, and zero across. */
  function Embed(c: Matrix): (p: Matrix)
    ensures p.Is(6, 6)
    ensures forall i, j | 0 <= i < 6 && 0 <= j < 6 ::
              p.At(i, j) == if i % 2 == j % 2 then c.At(i / 2, j / 2) else 0.0
  {
    Make(6, 6, (i, j) => if i % 2 == j % 2 then c.At(i / 2, j / 2) else 0.0)
  }

  /** The 6x1 state with u on the even and w on the odd indices. */
  function Interleave(u: Matrix, w: Matrix): (x: Matrix)
    ensures x.Is(6, 1)
    ensures forall i | 0 <= i < 6 :: x.At(i, 0) == if i % 2 == 0 then u.At(i / 2, 0) else w.At(i / 2, 0)
  {
    Make(6, 1, (i, j) => if i % 2 == 0 then u.At(i / 2, 0) else w.At(i / 2, 0))
  }

  /** The block on the even indices. */
  function BlockOf(p: Matrix): (c: Matrix)
    ensures c.Is(3, 3)
    ensures forall i, j | 0 <= i < 3 && 0 <= j < 3 :: c.At(i, j) == p.At(2 * i, 2 * j)
  {
    Make(3, 3, (i, j) => p.At(2 * i, 2 * j))
  }

  lemma Unroll3(f: int -> real)
    ensures Sum(f, 3) == f(0) + f(1) + f(2)
  {
    Unroll2(f);
  }

  lemma Unroll6(f: int -> real)
    ensures Sum(f, 6) == f(0) + f(1) + f(2) + f(3) + f(4) + f(5)
  {
    Unroll3(f);
    SumStep(f, 3);
    SumStep(f, 4);
    SumStep(f, 5);
  }

  /** A sum over six indices that is supported on one parity. */
  lemma SumParity(f: int -> real, g: int -> real, r: int)
    requires r == 0 || r == 1
    requires forall l | 0 <= l < 6 :: f(l) == if l % 2 == r then g(l / 2) else 0.0
    ensures Sum(f, 6) == Sum(g, 3)
  {
    hide Sum;
    Unroll6(f);
    Unroll3(g);
  }

  lemma MulEmbed(a: Matrix, b: Matrix)
    requires a.Is(3, 3) && b.Is(3, 3)
    ensures Mul(Embed(a), Embed(b)) == Embed(Mul(a, b))
  {
    hide Embed, Times;
    var l, r := Mul(Embed(a), Embed(b)), Embed(Mul(a, b));
    forall i, j | 0 <= i < 6 && 0 <= j < 6 ensures l.At(i, j) == r.At(i, j) {
      ZeroTimes();
      if i % 2 == j % 2 {
        SumParity(Terms(Embed(a), Embed(b), i, j), Terms(a, b, i / 2, j / 2), i % 2);
      } else {
        SumZero(Terms(Embed(a), Embed(b), i, j), 6);
      }
    }
    Ext(l, r);
  }

  lemma MulInterleave(a: Matrix, u: Matrix, w: Matrix)
    requires a.Is(3, 3) && u.Is(3, 1) && w.Is(3, 1)
    ensures Mul(Embed(a), Interleave(u, w)) == Interleave(Mul(a, u), Mul(a, w))
  {
    hide Embed, Interleave, Times;
    var x := Interleave(u, w);
    var l, r := Mul(Embed(a), x), Interleave(Mul(a, u), Mul(a, w));
    forall i | 0 <= i < 6 ensures l.At(i, 0) == r.At(i, 0) {
      ZeroTimes();
      SumParity(Terms(Embed(a), x, i, 0), Terms(a, if i % 2 == 0 then u else w, i / 2, 0), i % 2);
    }
    Ext(l, r);
  }

  lemma EmbedTranspose(a: Matrix)
    requires a.Is(3, 3)
    ensures Transpose(Embed(a)) == Embed(Transpose(a))
  {
    hide Embed;
    Ext(Transpose(Embed(a)), Embed(Transpose(a)));
  }

  lemma EmbedAdd(a: Matrix, b: Matrix)
    requires a.Is(3, 3) && b.Is(3, 3)
    ensures Add(Embed(a), Embed(b)) == Embed(Add(a, b))
  {
    hide Embed;
    var l, r := Add(Embed(a), Embed(b)), Embed(Add(a, b));
    forall i, j | 0 <= i < 6 && 0 <= j < 6 ensures l.At(i, j) == r.At(i, j) {
    }
    Ext(l, r);
  }

  lemma EmbedNoise(q: real)
    ensures Scale(q, Identity(6)) == Embed(Scale(q, Identity(3)))
  {
    hide Embed, Times;
    ZeroTimes();
    var l, r := Scale(q, Identity(6)), Embed(Scale(q, Identity(3)));
    forall i, j | 0 <= i < 6 && 0 <= j < 6 ensures l.At(i, j) == r.At(i, j) {
    }
    Ext(l, r);
  }

  lemma BlockOfEmbed(c: Matrix)
    requires c.Is(3, 3)
    ensures BlockOf(Embed(c)) == c
  {
    hide Embed;
    Ext(BlockOf(Embed(c)), c);
  }

  // ---- the three-state filter of one axis: position, velocity, acceleration

  function AxisTransition(dt: real): (f: Matrix)
    ensures f.Is(3, 3)
    ensures forall i, j | 0 <= i < 3 && 0 <= j < 3 :: f.At(i, j) == AxisEntry(i, j, dt)
  {
    hide AxisEntry;
    Make(3, 3, (i, j) => AxisEntry(i, j, dt))
  }

  function AxisEntry(i: int, j: int, dt: real): real { Shift(j - i, dt) }

  function AxisInitialBlock(): (c: Matrix)
    ensures c.Is(3, 3)
    ensures forall i, j | 0 <= i < 3 && 0 <= j < 3 :: c.At(i, j) == if i != j then 0.0 else InitialVariance(i)
  {
    Make(3, 3, (i, j) => if i != j then 0.0 else InitialVariance(i))
  }

  function AxisPredictBlock(c: Matrix, dt: real): (c': Matrix)
    ensures c'.Is(3, 3)
  {
    Add(Mul(Mul(AxisTransition(dt), c), Transpose(AxisTransition(dt))), Scale(0.01 * dt, Identity(3)))
  }

  /** Entry (i, j) of the scalar-measurement update c - (c e)(e^T c) / s, s the innovation variance. */
  function Downdated(c: Matrix, s: real, i: int, j: int): real
    requires s != 0.0
  {
    c.At(i, j) - c.At(i, 0) / s * c.At(0, j)
  }

  function AxisUpdateBlock(c: Matrix): (c': Matrix)
    requires c.At(0, 0) + 0.1 != 0.0
    ensures c'.Is(3, 3)
    ensures forall i, j | 0 <= i < 3 && 0 <= j < 3 :: c'.At(i, j) == Downdated(c, c.At(0, 0) + 0.1, i, j)
  {
    hide Downdated;
    var s := c.At(0, 0) + 0.1;
    Make(3, 3, (i, j) => Downdated(c, s, i, j))
  }

  /** Component i of the corrected state: the residual weighted by the gain c[i,0] / s. */
  function Corrected(u: Matrix, c: Matrix, s: real, z: real, i: int): real
    requires s != 0.0
  {
    u.At(i, 0) + c.At(i, 0) / s * (z - u.At(0, 0))
  }

  function AxisUpdateState(u: Matrix, c: Matrix, z: real): (u': Matrix)
    requires c.At(0, 0) + 0.1 != 0.0
    ensures u'.Is(3, 1)
    ensures forall i | 0 <= i < 3 :: u'.At(i, 0) == Corrected(u, c, c.At(0, 0) + 0.1, z, i)
  {
    hide Corrected;
    var s := c.At(0, 0) + 0.1;
    Make(3, 1, (i, j) => Corrected(u, c, s, z, i))
  }

  lemma TransitionIsEmbedded(dt: real)
    ensures Transition(dt) == Embed(AxisTransition(dt))
  {
    hide Embed;
    Ext(Transition(dt), Embed(AxisTransition(dt)));
  }

  lemma InitialIsEmbedded()
    ensures InitialCovariance() == Embed(AxisInitialBlock())
  {
    hide Embed;
    Ext(InitialCovariance(), Embed(AxisInitialBlock()));
  }

  /** Prediction of the six-state covariance is prediction of its block. */
  lemma PredictEmbedded(c: Matrix, dt: real)
    requires c.Is(3, 3)
    ensures PredictCovariance(Embed(c), dt) == Embed(AxisPredictBlock(c, dt))
  {
    hide Mul, Embed, Transition, AxisTransition, Add, Scale, Transpose, Identity;
    var f := AxisTransition(dt);
    TransitionIsEmbedded(dt);
    MulEmbed(f, c);
    EmbedTranspose(f);
    MulEmbed(Mul(f, c), Transpose(f));
    EmbedNoise(0.01 * dt);
    EmbedAdd(Mul(Mul(f, c), Transpose(f)), Scale(0.01 * dt, Identity(3)));
  }

  // ---- the update when the position axes are uncorrelated

  /** With a diagonal position block of equal variances v, S^-1 is the identity over v + 0.1. */
  lemma InverseOfDiagonal(p: Matrix, s: real)
    requires p.Is(6, 6) && !Rejects(p)
    requires p.At(0, 1) == 0.0 && p.At(1, 0) == 0.0 && p.At(0, 0) + 0.1 == s && p.At(1, 1) + 0.1 == s
    ensures s != 0.0
    ensures forall i, j | 0 <= i < 2 && 0 <= j < 2 ::
              InnovationInverse(p).At(i, j) == if i == j then 1.0 / s else 0.0
  {
    hide InnovationOf, Square2;
    InnovationEntries(p);
    DiagonalInverse(s);
  }

  lemma DiagonalInverse(s: real)
    requires !Singular2(Square2(s, 0.0, 0.0, s))
    ensures s != 0.0 && Inverse2(Square2(s, 0.0, 0.0, s)) == Square2(1.0 / s, 0.0, 0.0, 1.0 / s)
  {
    hide Square2, Adjugate;
    var d := Det2(Square2(s, 0.0, 0.0, s));
    assert d == s * s;
    DiagonalAdjugate(s, d);
  }

  lemma DiagonalAdjugate(s: real, d: real)
    requires s != 0.0 && d == s * s && d != 0.0
    ensures Adjugate(s, 0.0, 0.0, s, 1.0 / d) == Square2(1.0 / s, 0.0, 0.0, 1.0 / s)
  {
    hide Adjugate;
    ReciprocalOfSquare(s);
    AdjugateAt(s, 0.0, 0.0, s, 1.0 / d);
    Ext2(Adjugate(s, 0.0, 0.0, s, 1.0 / d), Square2(1.0 / s, 0.0, 0.0, 1.0 / s));
  }

  lemma AdjugateAt(p: real, q: real, r: real, s: real, d: real)
    ensures var m := Adjugate(p, q, r, s, d);
      m.Is(2, 2) && m.At(0, 0) == s * d && m.At(0, 1) == -q * d && m.At(1, 0) == -r * d && m.At(1, 1) == p * d
  {
  }

  lemma ReciprocalOfSquare(s: real)
    requires s != 0.0
    ensures s * s != 0.0 && s * (1.0 / (s * s)) == 1.0 / s
  {
    var q := 1.0 / (s * s);
    assert (s * q) * s == 1.0;
  }

  /** Then the gain is the position columns of P over the innovation variance. */
  lemma GainOfDiagonal(p: Matrix, s: real, i: int, j: int)
    requires p.Is(6, 6) && !Rejects(p) && 0 <= i < 6 && 0 <= j < 2
    requires p.At(0, 1) == 0.0 && p.At(1, 0) == 0.0 && p.At(0, 0) + 0.1 == s && p.At(1, 1) + 0.1 == s
    ensures s != 0.0 && GainOf(p).At(i, j) == Times(p.At(i, j), 1.0 / s)
  {
    hide InnovationInverse, Observation, Rejects, Times;
    ZeroTimes();
    var v, ht := InnovationInverse(p), Transpose(Observation());
    InverseOfDiagonal(p, s);
    var g := Mul(ht, v);
    forall l | 0 <= l < 6 ensures g.At(l, j) == if l == j then 1.0 / s else 0.0 {
      Entry(ht, v, l, j, ht.At(l, 0), ht.At(l, 1), v.At(0, j), v.At(1, j));
    }
    SumSingle(Terms(p, g, i, j), j, 6);
  }

  /** (I - K*H)*P = P - K*(H*P). */
  lemma UpdateAsDifference(p: Matrix)
    requires p.Is(6, 6) && !Rejects(p)
    ensures UpdateCovariance(p) == Sub(p, Mul(GainOf(p), Mul(Observation(), p)))
  {
    hide Observation, Rejects, GainOf, Mul, Sub, Identity;
    var k, h := GainOf(p), Observation();
    MulSubLeft(Identity(6), Mul(k, h), p);
    MulIdentity(p);
    MulAssoc(k, h, p);
  }

  /** What the update subtracts, entry by entry. */
  lemma UpdateEntry(p: Matrix, s: real, i: int, j: int)
    requires p.Is(6, 6) && !Rejects(p) && 0 <= i < 6 && 0 <= j < 6
    requires p.At(0, 1) == 0.0 && p.At(1, 0) == 0.0 && p.At(0, 0) + 0.1 == s && p.At(1, 1) + 0.1 == s
    ensures s != 0.0
    ensures UpdateCovariance(p).At(i, j) ==
            p.At(i, j) - (Times(Times(p.At(i, 0), 1.0 / s), p.At(0, j)) + Times(Times(p.At(i, 1), 1.0 / s), p.At(1, j)))
  {
    hide Observation, Rejects, GainOf, Mul, UpdateCovariance, Times;
    var k, hp := GainOf(p), Mul(Observation(), p);
    UpdateAsDifference(p);
    GainOfDiagonal(p, s, i, 0);
    GainOfDiagonal(p, s, i, 1);
    ObservedRow(p, 0, j);
    ObservedRow(p, 1, j);
    Entry(k, hp, i, j, k.At(i, 0), k.At(i, 1), p.At(0, j), p.At(1, j));
  }

  lemma ObservedRow(p: Matrix, i: int, j: int)
    requires p.Is(6, 6) && 0 <= i < 2 && 0 <= j < 6
    ensures Mul(Observation(), p).At(i, j) == p.At(i, j)
  {
    hide Observation, Times;
    ZeroTimes();
    SumSingle(Terms(Observation(), p, i, j), i, 6);
  }

  /** The update of the six-state covariance is the scalar update of its block. */
  lemma UpdateEmbedded(c: Matrix)
    requires c.Is(3, 3) && c.At(0, 0) + 0.1 != 0.0 && !Rejects(Embed(c))
    ensures UpdateCovariance(Embed(c)) == Embed(AxisUpdateBlock(c))
  {
    hide Embed, Rejects, UpdateCovariance, AxisUpdateBlock, Times, Downdated;
    var p, s := Embed(c), c.At(0, 0) + 0.1;
    var a, b := UpdateCovariance(p), Embed(AxisUpdateBlock(c));
    forall i, j | 0 <= i < 6 && 0 <= j < 6 ensures a.At(i, j) == b.At(i, j) {
      UpdateEntry(p, s, i, j);
      ZeroTimes();
      DowndateIs(c, s, i / 2, j / 2);
    }
    Ext(a, b);
  }

  lemma DowndateIs(c: Matrix, s: real, i: int, j: int)
    requires s != 0.0
    ensures Downdated(c, s, i, j) == c.At(i, j) - Times(Times(c.At(i, 0), 1.0 / s), c.At(0, j))
  {
    Ratio(c.At(i, 0), c.At(0, j), s);
  }

  lemma Ratio(x: real, y: real, s: real)
    requires s != 0.0
    ensures Times(Times(x, 1.0 / s), y) == x / s * y
  {
    assert x * (1.0 / s) == x / s;
  }

  /** The update of the six-state vector is the scalar update of each axis. */
  lemma UpdateInterleaved(u: Matrix, w: Matrix, c: Matrix, lon: real, lat: real)
    requires u.Is(3, 1) && w.Is(3, 1) && c.Is(3, 3) && c.At(0, 0) + 0.1 != 0.0 && !Rejects(Embed(c))
    ensures UpdateState(Interleave(u, w), Embed(c), lon, lat) ==
            Interleave(AxisUpdateState(u, c, lon), AxisUpdateState(w, c, lat))
  {
    hide Embed, Interleave, Rejects, AxisUpdateState, UpdateState, Corrected;
    var p, x, s := Embed(c), Interleave(u, w), c.At(0, 0) + 0.1;
    var a, b := UpdateState(x, p, lon, lat), Interleave(AxisUpdateState(u, c, lon), AxisUpdateState(w, c, lat));
    forall i | 0 <= i < 6 ensures a.At(i, 0) == b.At(i, 0) {
      StateEntry(x, p, s, lon, lat, i);
      CorrectedIs(u, c, s, lon, i / 2);
      CorrectedIs(w, c, s, lat, i / 2);
      ZeroTimes();
    }
    Ext(a, b);
  }

  /** What the update adds to the state, component by component. */
  lemma StateEntry(x: Matrix, p: Matrix, s: real, lon: real, lat: real, i: int)
    requires x.Is(6, 1) && p.Is(6, 6) && !Rejects(p) && 0 <= i < 6
    requires p.At(0, 1) == 0.0 && p.At(1, 0) == 0.0 && p.At(0, 0) + 0.1 == s && p.At(1, 1) + 0.1 == s
    ensures s != 0.0
    ensures UpdateState(x, p, lon, lat).At(i, 0) ==
            x.At(i, 0) + (Times(Times(p.At(i, 0), 1.0 / s), lon - x.At(0, 0))
                            + Times(Times(p.At(i, 1), 1.0 / s), lat - x.At(1, 0)))
  {
    hide Rejects, GainOf, Residual, Mul, Times;
    var k, y := GainOf(p), Residual(x, lon, lat);
    ResidualAt(x, lon, lat);
    GainOfDiagonal(p, s, i, 0);
    GainOfDiagonal(p, s, i, 1);
    Entry(k, y, i, 0, k.At(i, 0), k.At(i, 1), lon - x.At(0, 0), lat - x.At(1, 0));
  }

  lemma CorrectedIs(u: Matrix, c: Matrix, s: real, z: real, i: int)
    requires s != 0.0
    ensures Corrected(u, c, s, z, i) == u.At(i, 0) + Times(Times(c.At(i, 0), 1.0 / s), z - u.At(0, 0))
  {
    Ratio(c.At(i, 0), z - u.At(0, 0), s);
  }

  lemma ResidualAt(x: Matrix, lon: real, lat: real)
    ensures var y := Residual(x, lon, lat);
            y.Is(2, 1) && y.At(0, 0) == lon - x.At(0, 0) && y.At(1, 0) == lat - x.At(1, 0)
  {
  }
}
