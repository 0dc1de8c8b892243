/** The filter object of the source: two fixed-size buffers overwritten in place. */
module KalmanFilter {
  import opened Matrices
  import opened MatrixArrays
  import opened KalmanAlgebra
  import opened FilterModel
  import opened Tracks

  /** The filter that initialize_kalman_filter builds from a measurement. */
  function InitialFromTrack(t: TargetTrack, lib: MathLib): Filter {
    var (vx, vy) := InitialVelocity(t, lib);
    InitialFilter(t.longitude, t.latitude, vx, vy, t.timestamp)
  }

  /** Speed and heading in degrees, resolved along the axes. */
  function InitialVelocity(t: TargetTrack, lib: MathLib): (real, real) {
    var angle := Radians(t.heading, lib);
    (t.velocity * lib.cos(angle), t.velocity * lib.sin(angle))
  }

  function Radians(degrees: real, lib: MathLib): real { degrees * lib.pi / 180.0 }

  // ---- how the source's buffers spell the constant matrices

  lemma TransitionCells(c: seq<real>, dt: real)
    requires |c| == 36
    requires forall t | 0 <= t < 36 ::
      c[t] == if t == 2 || t == 9 || t == 16 || t == 23 then dt
              else if t == 4 || t == 11 then 0.5 * dt * dt
              else if t % 7 == 0 then 1.0 else 0.0
    ensures Flat(6, 6, c) == Transition(dt)
  {
    FlatIs(c, 6, 6, Transition(dt));
  }

  lemma InitialCells(c: seq<real>)
    requires |c| == 36
    requires forall t | 0 <= t < 36 :: c[t] == if t % 7 == 0 then InitialVariance(t / 7 / 2) else 0.0
    ensures Flat(6, 6, c) == InitialCovariance()
  {
    hide InitialVariance;
    FlatIs(c, 6, 6, InitialCovariance());
  }

  lemma ObservationCells(h: seq<real>, r: seq<real>)
    requires h == [1.0, 0.0, 0.0, 0.0, 0.0, 0.0, 0.0, 1.0, 0.0, 0.0, 0.0, 0.0] && r == [0.1, 0.0, 0.0, 0.1]
    ensures Flat(2, 6, h) == Observation() && Flat(2, 2, r) == MeasurementNoise()
  {
    FlatIs(h, 2, 6, Observation());
    FlatIs(r, 2, 2, MeasurementNoise());
  }

  /** Adding q to every seventh cell adds q times the identity. */
  lemma NoiseCells(a: seq<real>, b: seq<real>, q: real)
    requires |a| == 36 && |b| == 36
    requires forall t | 0 <= t < 36 :: b[t] == if t % 7 == 0 then a[t] + q else a[t]
    ensures Flat(6, 6, b) == Add(Flat(6, 6, a), Scale(q, Identity(6)))
  {
    hide Times, Flat;
    ZeroTimes();
    var n := Add(Flat(6, 6, a), Scale(q, Identity(6)));
    forall i, j | 0 <= i < 6 && 0 <= j < 6 ensures b[i * 6 + j] == n.At(i, j) {
      CellAt(a, 6, 6, i, j);
    }
    FlatIs(b, 6, 6, n);
  }

  lemma AddCells(a: seq<real>, b: seq<real>, c: seq<real>, m: nat, n: nat)
    requires |a| == |b| == |c| == m * n && forall t | 0 <= t < |a| :: c[t] == a[t] + b[t]
    ensures Flat(m, n, c) == Add(Flat(m, n, a), Flat(m, n, b))
  {
    hide Flat;
    var s := Add(Flat(m, n, a), Flat(m, n, b));
    forall i, j | 0 <= i < m && 0 <= j < n && 0 <= i * n + j < |c| ensures c[i * n + j] == s.At(i, j) {
      CellAt(a, m, n, i, j);
      CellAt(b, m, n, i, j);
    }
    FlatIs(c, m, n, s);
  }

  lemma ComplementCells(a: seq<real>, b: seq<real>)
    requires |a| == |b| == 36
    requires forall t | 0 <= t < 36 :: b[t] == (if t % 7 == 0 then 1.0 else 0.0) - a[t]
    ensures Flat(6, 6, b) == Sub(Identity(6), Flat(6, 6, a))
  {
    hide Flat;
    var n := Sub(Identity(6), Flat(6, 6, a));
    forall i, j | 0 <= i < 6 && 0 <= j < 6 ensures b[i * 6 + j] == n.At(i, j) {
      CellAt(a, 6, 6, i, j);
    }
    FlatIs(b, 6, 6, n);
  }

  lemma ZeroCells(c: seq<real>, d: seq<real>)
    requires |c| == 6 && |d| == 36 && (forall t | 0 <= t < 6 :: c[t] == 0.0) && forall t | 0 <= t < 36 :: d[t] == 0.0
    ensures Flat(6, 1, c) == ZeroFilter().x && Flat(6, 6, d) == ZeroFilter().p
  {
    FlatIs(c, 6, 1, ZeroFilter().x);
    FlatIs(d, 6, 6, ZeroFilter().p);
  }

  lemma StateCells(c: seq<real>)
    requires |c| == 6
    ensures Flat(6, 1, c) == Grid(6, 1, [[c[0]], [c[1]], [c[2]], [c[3]], [c[4]], [c[5]]])
  {
    FlatIs(c, 6, 1, Grid(6, 1, [[c[0]], [c[1]], [c[2]], [c[3]], [c[4]], [c[5]]]));
  }

  lemma ResidualCells(y: seq<real>, c: seq<real>, lon: real, lat: real)
    requires |c| == 6 && y == [lon - c[0], lat - c[1]]
    ensures Flat(2, 1, y) == Residual(Flat(6, 1, c), lon, lat)
  {
    StateCells(c);
    FlatIs(y, 2, 1, Pair(y[0], y[1]));
  }

  /** The transition matrix for dt, in row-major order. */
  method BuildTransition(dt: real) returns (F: array<real>)
    ensures fresh(F) && F.Length == 36 && Flat(6, 6, F[..]) == Transition(dt)
  {
    hide Transition;
    F := new real[36](_ => 0.0);
    for i := 0 to 6
      invariant forall t | 0 <= t < 36 :: F[t] == if t % 7 == 0 && t < 7 * i then 1.0 else 0.0
    {
      F[i * 6 + i] := 1.0;
    }
    F[2] := dt;
    F[9] := dt;
    F[4] := 0.5 * dt * dt;
    F[11] := 0.5 * dt * dt;
    F[16] := dt;
    F[23] := dt;
    TransitionCells(F[..], dt);
  }

  /** The transpose of an m x n buffer, in a buffer of its own. */
  method BuildTranspose(A: array<real>, m: nat, n: nat) returns (T: array<real>)
    requires A.Length == m * n
    ensures fresh(T) && T.Length == n * m && Flat(n, m, T[..]) == Transpose(Flat(m, n, A[..]))
  {
    hide Flat, Cells;
    T := new real[n * m](_ => 0.0);
    ghost var a := A[..];
    ghost var transposed := Transpose(Flat(m, n, a));
    ghost var goal := Cells(transposed);
    for j := 0 to n
      invariant 0 <= j * m <= n * m
      invariant A[..] == a
      invariant forall t | 0 <= t < j * m :: T[t] == goal[t]
    {
      RowFits(j, n, m);
      for i := 0 to m
        invariant A[..] == a
        invariant forall t | 0 <= t < j * m + i :: T[t] == goal[t]
      {
        CellAt(a, m, n, i, j);
        CellsAt(transposed, n, m, j, i);
        T[j * m + i] := A[i * n + j];
      }
    }
    assert T[..] == goal;
    FlatOfCells(transposed, n, m);
  }

  /** I - A for a 6x6 buffer. */
  method BuildComplement(A: array<real>) returns (D: array<real>)
    requires A.Length == 36
    ensures fresh(D) && D.Length == 36 && Flat(6, 6, D[..]) == Sub(Identity(6), Flat(6, 6, A[..]))
  {
    D := new real[36](_ => 0.0);
    for i := 0 to 6
      invariant forall t | 0 <= t < 6 * i :: D[t] == (if t % 7 == 0 then 1.0 else 0.0) - A[t]
      invariant forall t | 6 * i <= t < 36 :: D[t] == 0.0
    {
      D[i * 6 + i] := 1.0;
      for j := 0 to 6
        invariant forall t | 0 <= t < 6 * i + j :: D[t] == (if t % 7 == 0 then 1.0 else 0.0) - A[t]
        invariant forall t | 6 * i + j <= t < 36 :: D[t] == if t == 7 * i then 1.0 else 0.0
      {
        D[i * 6 + j] := D[i * 6 + j] - A[i * 6 + j];
      }
    }
    ComplementCells(A[..], D[..]);
  }

  /** Adds q to the diagonal of a 6x6 buffer. */
  method AddDiagonal(A: array<real>, q: real)
    requires A.Length == 36
    modifies A
    ensures Flat(6, 6, A[..]) == Add(Flat(6, 6, old(A[..])), Scale(q, Identity(6)))
  {
    hide Add, Scale, Identity;
    ghost var clean := A[..];
    var i := 0;
    while i < 36
      invariant 0 <= i <= 42 && i % 7 == 0
      invariant forall t | 0 <= t < 36 :: A[t] == if t % 7 == 0 && t < i then clean[t] + q else clean[t]
    {
      A[i] := A[i] + q;
      i := i + 7;
    }
    NoiseCells(clean, A[..], q);
  }

  class KalmanState {
    const state: array<real>
    const covariance: array<real>
    var lastUpdate: real
    var initialized: bool

    ghost predicate Valid() { state.Length == 6 && covariance.Length == 36 && state != covariance }

    ghost function Repr(): set<object> { {this, state, covariance} }

    /** The filter this object holds. */
    ghost function Value(): Filter
      reads Repr()
    {
      Filter(Flat(6, 1, state[..]), Flat(6, 6, covariance[..]), lastUpdate, initialized)
    }

    /** Zeroed memory. */
    constructor ()
      ensures Valid() && fresh(Repr()) && Value() == ZeroFilter()
      ensures (forall i | 0 <= i < 6 :: state[i] == 0.0) && (forall i | 0 <= i < 36 :: covariance[i] == 0.0)
      ensures lastUpdate == 0.0 && !initialized
    {
      state := new real[6](_ => 0.0);
      covariance := new real[36](_ => 0.0);
      lastUpdate := 0.0;
      initialized := false;
      new;
      ZeroCells(state[..], covariance[..]);
    }

    method Initialize(track: TargetTrack, lib: MathLib)
      requires Valid()
      modifies Repr()
      ensures Value() == InitialFromTrack(track, lib)
    {
      hide InitialCovariance, InitialVelocity, Flat;
      forall i | 0 <= i < 6 { state[i] := 0.0; }
      state[0] := track.longitude;
      state[1] := track.latitude;
      var velocity := InitialVelocity(track, lib);
      state[2] := velocity.0;
      state[3] := velocity.1;
      StateCells(state[..]);
      ResetCovariance();
      lastUpdate := track.timestamp;
      initialized := true;
    }

    method ResetCovariance()
      requires Valid()
      modifies covariance
      ensures Flat(6, 6, covariance[..]) == InitialCovariance()
    {
      hide InitialCovariance;
      forall i | 0 <= i < 36 { covariance[i] := 0.0; }
      covariance[0] := 0.5;
      covariance[7] := 0.5;
      covariance[14] := 2.0;
      covariance[21] := 2.0;
      covariance[28] := 5.0;
      covariance[35] := 5.0;
      InitialCells(covariance[..]);
    }

    /** The prediction step; a non-positive dt is refused. */
    method Predict(dt: real) returns (ok: bool)
      requires Valid()
      modifies state, covariance
      ensures ok == (dt > 0.0)
      ensures Value() == PredictFilter(old(Value()), dt)
    {
      hide Flat, Transition, Add, Mul, Transpose, Identity, Scale;
      if dt <= 0.0 {
        return false;
      }
      ghost var p, cells := Value().p, covariance[..];
      var F := BuildTransition(dt);
      ghost var f := F[..];
      var nextX := new real[6](_ => 0.0);
      MatMul(F, state, nextX, 6, 6, 1);
      ghost var moved := nextX[..];
      forall i | 0 <= i < 6 { state[i] := nextX[i]; }
      assert state[..] == moved;
      assert covariance[..] == cells && F[..] == f;

      var FP, FPFt := new real[36](_ => 0.0), new real[36](_ => 0.0);
      var FT := BuildTranspose(F, 6, 6);
      MatMul(F, covariance, FP, 6, 6, 6);
      MatMul(FP, FT, FPFt, 6, 6, 6);
      AddDiagonal(FPFt, 0.01 * dt);
      assert Flat(6, 6, FPFt[..]) == PredictCovariance(p, dt);
      ghost var spread := FPFt[..];
      forall i | 0 <= i < 36 { covariance[i] := FPFt[i]; }
      assert covariance[..] == spread && state[..] == moved;
      return true;
    }

    /** The update step; an uninitialised filter or a negligible innovation determinant is refused. */
    method Update(meas: TargetTrack) returns (ok: bool)
      requires Valid()
      modifies this, state, covariance
      ensures ok == (old(initialized) && !Rejects(old(Value()).p))
      ensures Value() == UpdateFilter(old(Value()), meas.longitude, meas.latitude, meas.timestamp)
    {
      hide Flat, Add, Sub, Mul, Transpose, Identity, Observation, MeasurementNoise, Rejects, GainOf, InnovationOf;
      if !initialized {
        return false;
      }
      var y := new real[2] [meas.longitude - state[0], meas.latitude - state[1]];
      ResidualCells(y[..], state[..], meas.longitude, meas.latitude);
      var accepted, H, K := BuildGain();
      if !accepted {
        return false;
      }
      CorrectState(K, y);
      CorrectCovariance(K, H);
      lastUpdate := meas.timestamp;
      return true;
    }

    /** X = X + K * y. */
    method CorrectState(K: array<real>, y: array<real>)
      requires Valid() && K.Length == 12 && y.Length == 2 && state != K && state != y
      modifies state
      ensures Flat(6, 1, state[..]) ==
              Add(old(Value()).x, Mul(Flat(6, 2, old(K[..])), Flat(2, 1, old(y[..]))))
    {
      hide Flat, Add, Mul;
      ghost var x := state[..];
      var Ky := new real[6](_ => 0.0);
      MatMul(K, y, Ky, 6, 2, 1);
      MatAdd(state, Ky, 6);
      AddCells(x, Ky[..], state[..], 6, 1);
    }

    /** P = (I - K * H) * P. */
    method CorrectCovariance(K: array<real>, H: array<real>)
      requires Valid() && K.Length == 12 && H.Length == 12 && covariance != K && covariance != H
      modifies covariance
      ensures Flat(6, 6, covariance[..]) ==
              Posterior(old(Value()).p, Flat(2, 6, old(H[..])), Flat(6, 2, old(K[..])))
    {
      hide Flat, Mul, Sub, Identity;
      ghost var k, h, p := Flat(6, 2, K[..]), Flat(2, 6, H[..]), Value().p;
      var KH, nextP := new real[36](_ => 0.0), new real[36](_ => 0.0);
      MatMul(K, H, KH, 6, 2, 6);
      var IKH := BuildComplement(KH);
      MatMul(IKH, covariance, nextP, 6, 6, 6);
      assert Flat(6, 6, nextP[..]) == Posterior(p, h, k);
      ghost var next := nextP[..];
      forall i | 0 <= i < 36 { covariance[i] := nextP[i]; }
      assert covariance[..] == next;
    }

    /** H and the gain K = P * (H^T * S^-1), unless S is singular. */
    method BuildGain() returns (ok: bool, H: array<real>, K: array<real>)
      requires Valid()
      ensures fresh(H) && fresh(K) && H != K && H.Length == 12 && K.Length == 12
      ensures Flat(2, 6, H[..]) == Observation()
      ensures ok == !Rejects(Value().p)
      ensures ok ==> Flat(6, 2, K[..]) == GainOf(Value().p)
    {
      hide Flat, Add, Mul, Transpose, Observation, Singular2, Inverse2, InnovationOf;
      var S;
      H, S := BuildInnovation();
      K := new real[12](_ => 0.0);
      var HT := BuildTranspose(H, 2, 6);
      var SInv := new real[4](_ => 0.0);
      ok := MatInv2x2(S, SInv);
      if ok {
        var HTSInv := new real[12](_ => 0.0);
        MatMul(HT, SInv, HTSInv, 6, 2, 2);
        MatMul(covariance, HTSInv, K, 6, 6, 2);
      }
    }

    /** H and S = H*P*H^T + R. */
    method BuildInnovation() returns (H: array<real>, S: array<real>)
      requires Valid()
      ensures fresh(H) && fresh(S) && H != S && H.Length == 12 && S.Length == 4
      ensures Flat(2, 6, H[..]) == Observation()
      ensures Flat(2, 2, S[..]) == InnovationOf(Value().p)
    {
      hide Flat, Add, Mul, Transpose, Observation, MeasurementNoise;
      H := new real[12] [1.0, 0.0, 0.0, 0.0, 0.0, 0.0, 0.0, 1.0, 0.0, 0.0, 0.0, 0.0];
      var R := new real[4] [0.1, 0.0, 0.0, 0.1];
      ObservationCells(H[..], R[..]);
      var HP := new real[12](_ => 0.0);
      S := new real[4](_ => 0.0);
      MatMul(H, covariance, HP, 2, 6, 6);
      var HT := BuildTranspose(H, 2, 6);
      MatMul(HP, HT, S, 2, 6, 2);
      ghost var clean := S[..];
      MatAdd(S, R, 4);
      AddCells(clean, R[..], S[..], 2, 2);
    }
  }
}
