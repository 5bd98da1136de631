/**
 * The momentum bookkeeping of src/velocity_verlet.c as functions of the
 * kinetic moments: kinetic energy and temperature, the two
 * recalibrations, the initial sampling, the half kick and the drift of one
 * integration step, and the Berendsen rescale.  The lemmas state the
 * physics the integrator relies on: the recalibrated temperature is T_0,
 * centring cancels the total momentum, a common scale factor keeps it
 * cancelled, and balanced forces leave it unchanged.
 */
module Momentum {
  import opened Helper
  import opened Sums

  // ---------------------------------------------------------------------
  // Degrees of freedom

  /** 2^64: the modulus of the unsigned 64-bit counters. */
  const U64: int := 0x1_0000_0000_0000_0000

  /** N_DL = 3 * N_PARTICLES_TOTAL - 3, computed in uint64_t. */
  function DegreesOfFreedom(n: nat): (r: nat)
    requires n < U64
    ensures r < U64
  {
    ((3 * n) % U64 - 3) % U64
  }

  /** Without wrap-around N_DL is 3 N - 3: three coordinates per particle less the centre of mass. */
  lemma DegreesOfFreedomValue(n: nat)
    requires 1 <= n && 3 * n < U64
    ensures DegreesOfFreedom(n) == 3 * n - 3
  {
  }

  /** With no particle at all, the subtraction wraps around. */
  lemma DegreesOfFreedomWraps()
    ensures DegreesOfFreedom(0) == U64 - 3
  {
  }

  // ---------------------------------------------------------------------
  // Kinetic energy and temperature

  /** square(px) + square(py) + square(pz). */
  function Norm2(v: Vec3): (r: real)
    ensures r >= 0.0
  {
    SquareNonNegative(v.x);
    SquareNonNegative(v.y);
    SquareNonNegative(v.z);
    Square(v.x) + Square(v.y) + Square(v.z)
  }

  /** The squared moment of every particle, in index order. */
  function Norms(km: seq<KineticMoment>): (s: seq<real>)
    ensures |s| == |km|
    ensures forall i | 0 <= i < |km| :: s[i] == Norm2(km[i])
  {
    seq(|km|, i requires 0 <= i < |km| => Norm2(km[i]))
  }

  /** The squared moments, accumulated in index order. */
  function SquareSum(km: seq<KineticMoment>): real
  {
    Sum(Norms(km))
  }

  /** One more particle adds its squared moment. */
  lemma SquareSumStep(km: seq<KineticMoment>, n: nat)
    requires n < |km|
    ensures SquareSum(km[..n + 1]) == SquareSum(km[..n]) + Norm2(km[n])
  {
    assert Norms(km[..n + 1])[..n] == Norms(km[..n]);
  }

  /** The squared moments add up to a non-negative value. */
  lemma SquareSumNonNegative(km: seq<KineticMoment>)
    ensures SquareSum(km) >= 0.0
  {
    SumNonNegative(Norms(km));
  }

  /** The kinetic energy: the squared moments over M_I * FORCE_CONVERSION_x2. */
  function KineticEnergy(km: seq<KineticMoment>): (r: real)
    ensures r >= 0.0
  {
    SquareSumNonNegative(km);
    SquareSum(km) / (M_I * FORCE_CONVERSION_x2)
  }

  /** The temperature: the kinetic energy over N_DL * R_CONSTANT. */
  function Temperature(km: seq<KineticMoment>, nDl: nat): real
    requires nDl > 0
  {
    KineticEnergy(km) / (nDl as real * R_CONSTANT)
  }

  // Algebra over the reals that the solver does not find unaided

  lemma MulDivCancel(a: real, n: real)
    requires n != 0.0
    ensures n * (a / n) == a
  {
  }

  lemma DivMulCommute(a: real, r: real, n: real)
    requires n != 0.0
    ensures (a * r) / n == (a / n) * r
    ensures (r * a) / n == (a / n) * r
  {
    var q := a / n;
    MulDivCancel(a, n);
    assert a * r == (q * r) * n;
  }

  lemma RatioProduct(t: real, k: real, d: real)
    requires k != 0.0 && d != 0.0
    ensures (t / k) * (k / d) == t / d
  {
    var q := t / k;
    MulDivCancel(t, k);
    assert q * (k / d) == (q * k) / d;
  }

  lemma PositiveScaled(e': real, r: real, e: real)
    requires r > 0.0 && e > 0.0 && e' == r * r * e
    ensures e' > 0.0
  {
    calc {
      e';
    ==
      r * r * e;
    > { PositiveSquareTimes(r, e); }
      0.0;
    }
  }

  lemma PositiveSquareTimes(r: real, e: real)
    requires r > 0.0 && e > 0.0
    ensures r * r * e > 0.0
  {
    assert r * r > 0.0;
  }

  // ---------------------------------------------------------------------
  // Scaling: first_recalibration and the Berendsen thermostat

  /** Every component multiplied by the same factor `r`. */
  function Scaled(km: seq<KineticMoment>, r: real): (s: seq<KineticMoment>)
    ensures |s| == |km|
    ensures forall i | 0 <= i < |km| :: s[i] == Scale(r, km[i])
  {
    seq(|km|, i requires 0 <= i < |km| => Scale(r, km[i]))
  }

  lemma Norm2Scaled(v: Vec3, r: real)
    ensures Norm2(Scale(r, v)) == r * r * Norm2(v)
  {
    assert Square(r * v.x) == r * r * Square(v.x);
    assert Square(r * v.y) == r * r * Square(v.y);
    assert Square(r * v.z) == r * r * Square(v.z);
  }

  /** Scaling by r multiplies the squared moments by r^2. */
  lemma SquareSumScaled(km: seq<KineticMoment>, r: real)
    ensures SquareSum(Scaled(km, r)) == r * r * SquareSum(km)
  {
    var k := r * r;
    var a, b := Norms(km), Norms(Scaled(km, r));
    forall i | 0 <= i < |b|
      ensures b[i] == k * a[i]
    {
      Norm2ScaledAt(km, r, i);
    }
    SumScaled(a, b, k);
  }

  lemma Norm2ScaledAt(km: seq<KineticMoment>, r: real, i: nat)
    requires i < |km|
    ensures Norm2(Scaled(km, r)[i]) == r * r * Norm2(km[i])
  {
    assert Scaled(km, r)[i] == Scale(r, km[i]);
    Norm2Scaled(km[i], r);
  }

  /** Scaling by r multiplies the kinetic energy by r^2. */
  lemma KineticEnergyScaled(km: seq<KineticMoment>, r: real)
    ensures KineticEnergy(Scaled(km, r)) == r * r * KineticEnergy(km)
  {
    var d := M_I * FORCE_CONVERSION_x2;
    calc {
      KineticEnergy(Scaled(km, r));
    ==
      SquareSum(Scaled(km, r)) / d;
    == { SquareSumScaled(km, r); }
      (r * r * SquareSum(km)) / d;
    == { DivMulCommute(SquareSum(km), r * r, d); }
      (SquareSum(km) / d) * (r * r);
    ==
      r * r * KineticEnergy(km);
    }
  }

  /** Scaling by r multiplies the temperature by r^2. */
  lemma TemperatureScaled(km: seq<KineticMoment>, r: real, nDl: nat)
    requires nDl > 0
    ensures Temperature(Scaled(km, r), nDl) == r * r * Temperature(km, nDl)
  {
    var d := nDl as real * R_CONSTANT;
    calc {
      Temperature(Scaled(km, r), nDl);
    ==
      KineticEnergy(Scaled(km, r)) / d;
    == { KineticEnergyScaled(km, r); }
      (r * r * KineticEnergy(km)) / d;
    == { DivMulCommute(KineticEnergy(km), r * r, d); }
      (KineticEnergy(km) / d) * (r * r);
    ==
      r * r * Temperature(km, nDl);
    }
  }

  /** A square root, at every non-negative argument; sqrt from math.h stands for it. */
  ghost predicate IsSqrt(sqrt: real -> real) {
    forall x {:trigger sqrt(x)} | x >= 0.0 :: sqrt(x) >= 0.0 && sqrt(x) * sqrt(x) == x
  }

  /** The factor of first_recalibration: sqrt(N_DL * R_CONSTANT * T_0 / kinetic energy). */
  function Rapport(km: seq<KineticMoment>, nDl: nat, sqrt: real -> real): real
    requires KineticEnergy(km) > 0.0
  {
    sqrt((nDl as real * R_CONSTANT * T_0) / KineticEnergy(km))
  }

  /** first_recalibration: every moment scaled by the factor that brings the temperature to T_0. */
  function Recalibrate(km: seq<KineticMoment>, nDl: nat, sqrt: real -> real): seq<KineticMoment>
    requires KineticEnergy(km) > 0.0
  {
    Scaled(km, Rapport(km, nDl, sqrt))
  }

  /** After first_recalibration the temperature is T_0, and the factor is positive. */
  lemma RecalibratedTemperature(km: seq<KineticMoment>, nDl: nat, sqrt: real -> real)
    requires nDl > 0 && IsSqrt(sqrt) && KineticEnergy(km) > 0.0
    ensures Rapport(km, nDl, sqrt) > 0.0
    ensures Temperature(Recalibrate(km, nDl, sqrt), nDl) == T_0
  {
    var ke := KineticEnergy(km);
    var d := nDl as real * R_CONSTANT;
    var r := Rapport(km, nDl, sqrt);
    PositiveRatio(d * T_0, ke);
    PositiveRoot(r, (d * T_0) / ke);
    TemperatureScaled(km, r, nDl);
    TargetReached(Temperature(Scaled(km, r), nDl), r * r, Temperature(km, nDl), ke, d);
  }

  lemma PositiveRatio(a: real, b: real)
    requires a > 0.0 && b > 0.0
    ensures a / b > 0.0
  {
  }

  lemma PositiveRoot(r: real, x: real)
    requires r >= 0.0 && r * r == x && x > 0.0
    ensures r > 0.0
  {
    if r == 0.0 {
      assert false;
    }
  }

  /** t' = rr * t, t = ke / d and rr = d T_0 / ke give t' = T_0. */
  lemma TargetReached(t': real, rr: real, t: real, ke: real, d: real)
    requires ke > 0.0 && d > 0.0
    requires t' == rr * t && t == ke / d && rr == (d * T_0) / ke
    ensures t' == T_0
  {
    RatioProduct(d * T_0, ke, d);
    MulDivCancel(T_0, d);
    assert (d * T_0) / d == T_0;
  }

  /** Scaling keeps a vanishing total momentum vanishing. */
  lemma ScaledSumZero(km: seq<KineticMoment>, r: real)
    requires VecSum(km) == Zero
    ensures VecSum(Scaled(km, r)) == Zero
  {
    ScaledSum(km, r);
  }

  lemma ScaledSum(km: seq<KineticMoment>, r: real)
    ensures VecSum(Scaled(km, r)) == Scale(r, VecSum(km))
  {
    VecSumScaled(km, Scaled(km, r), r);
  }

  // ---------------------------------------------------------------------
  // Centring: second_recalibration

  /** Every component of s divided by n. */
  function Part(s: Vec3, n: real): Vec3
    requires n != 0.0
  {
    Vec3(s.x / n, s.y / n, s.z / n)
  }

  /** sum_km divided by N_PARTICLES_TOTAL: the mean moment. */
  function Mean(km: seq<KineticMoment>): Vec3
    requires |km| > 0
  {
    Part(VecSum(km), |km| as real)
  }

  /** Every moment less the same vector m. */
  function Shifted(km: seq<KineticMoment>, m: Vec3): (s: seq<KineticMoment>)
    ensures |s| == |km|
    ensures forall i | 0 <= i < |km| :: s[i] == Sub(km[i], m)
  {
    seq(|km|, i requires 0 <= i < |km| => Sub(km[i], m))
  }

  /** Every moment less the mean moment. */
  function Centred(km: seq<KineticMoment>): seq<KineticMoment>
    requires |km| > 0
  {
    Shifted(km, Mean(km))
  }

  /** After second_recalibration the total momentum is zero. */
  lemma CentredSumZero(km: seq<KineticMoment>)
    requires |km| > 0
    ensures VecSum(Centred(km)) == Zero
  {
    VecSumShifted(km, Centred(km), Mean(km));
    TotalLessMean(VecSum(km), |km| as real);
  }

  /** A total less n times its n-th part vanishes. */
  lemma TotalLessMean(s: Vec3, n: real)
    requires n != 0.0
    ensures Sub(s, Scale(n, Part(s, n))) == Zero
  {
    MulDivCancel(s.x, n);
    MulDivCancel(s.y, n);
    MulDivCancel(s.z, n);
  }

  /** The mean of scaled moments is the scaled mean. */
  lemma MeanScaled(km: seq<KineticMoment>, r: real)
    requires |km| > 0
    ensures Mean(Scaled(km, r)) == Scale(r, Mean(km))
  {
    calc {
      Mean(Scaled(km, r));
    ==
      Part(VecSum(Scaled(km, r)), |km| as real);
    == { ScaledSum(km, r); }
      Part(Scale(r, VecSum(km)), |km| as real);
    == { PartScaled(VecSum(km), |km| as real, r); }
      Scale(r, Part(VecSum(km), |km| as real));
    }
  }

  /** The n-th part of r times a total is r times its n-th part. */
  lemma PartScaled(s: Vec3, n: real, r: real)
    requires n != 0.0
    ensures Part(Scale(r, s), n) == Scale(r, Part(s, n))
  {
    PartScaledFirst(s, n, r);
    PartScaledFirst(Vec3(s.y, s.z, s.x), n, r);
    PartScaledFirst(Vec3(s.z, s.x, s.y), n, r);
  }

  /** The first component of PartScaled; the other two follow by rotating s. */
  lemma PartScaledFirst(s: Vec3, n: real, r: real)
    requires n != 0.0
    ensures Part(Scale(r, s), n).x == Scale(r, Part(s, n)).x
  {
    calc {
      Part(Scale(r, s), n).x;
    ==
      (r * s.x) / n;
    == { DivScaled(s.x, n, r); }
      r * (s.x / n);
    ==
      Scale(r, Part(s, n)).x;
    }
  }

  lemma DivScaled(a: real, n: real, r: real)
    requires n != 0.0
    ensures (r * a) / n == r * (a / n)
  {
    DivMulCommute(a, r, n);
  }

  /** Centring commutes with scaling. */
  lemma CentredScaled(km: seq<KineticMoment>, r: real)
    requires |km| > 0
    ensures Centred(Scaled(km, r)) == Scaled(Centred(km), r)
  {
    calc {
      Centred(Scaled(km, r));
    ==
      Shifted(Scaled(km, r), Mean(Scaled(km, r)));
    == { MeanScaled(km, r); }
      Shifted(Scaled(km, r), Scale(r, Mean(km)));
    == { ShiftedScaled(km, Mean(km), r); }
      Scaled(Shifted(km, Mean(km)), r);
    }
  }

  /** Shifting by r m after scaling by r is scaling after shifting by m. */
  lemma ShiftedScaled(km: seq<KineticMoment>, m: Vec3, r: real)
    ensures Shifted(Scaled(km, r), Scale(r, m)) == Scaled(Shifted(km, m), r)
  {
    var a, b := Shifted(Scaled(km, r), Scale(r, m)), Scaled(Shifted(km, m), r);
    forall i | 0 <= i < |km|
      ensures a[i] == b[i]
    {
      SubScaled(km[i], m, r);
    }
  }

  /** r v less r m is r (v less m). */
  lemma SubScaled(v: Vec3, m: Vec3, r: real)
    ensures Sub(Scale(r, v), Scale(r, m)) == Scale(r, Sub(v, m))
  {
    assert r * v.x - r * m.x == r * (v.x - m.x);
    assert r * v.y - r * m.y == r * (v.y - m.y);
    assert r * v.z - r * m.z == r * (v.z - m.z);
  }

  /** The centred recalibrated moments still carry energy when the centred samples do. */
  lemma CentredRecalibratedEnergy(km: seq<KineticMoment>, nDl: nat, sqrt: real -> real)
    requires nDl > 0 && IsSqrt(sqrt) && |km| > 0 && KineticEnergy(km) > 0.0 && KineticEnergy(Centred(km)) > 0.0
    ensures KineticEnergy(Centred(Recalibrate(km, nDl, sqrt))) > 0.0
  {
    var r := Rapport(km, nDl, sqrt);
    RecalibratedTemperature(km, nDl, sqrt);
    assert Recalibrate(km, nDl, sqrt) == Scaled(km, r);
    CentredScaled(km, r);
    KineticEnergyScaled(Centred(km), r);
    PositiveScaled(KineticEnergy(Scaled(Centred(km), r)), r, KineticEnergy(Centred(km)));
  }

  /**
   * The moments init_velocity_verlet returns: the samples recalibrated,
   * centred and recalibrated again.
   */
  ghost function Initialised(km: seq<KineticMoment>, nDl: nat, sqrt: real -> real): seq<KineticMoment>
    requires nDl > 0 && IsSqrt(sqrt) && |km| > 0 && KineticEnergy(km) > 0.0 && KineticEnergy(Centred(km)) > 0.0
  {
    CentredRecalibratedEnergy(km, nDl, sqrt);
    Recalibrate(Centred(Recalibrate(km, nDl, sqrt)), nDl, sqrt)
  }

  /** The initial moments are at temperature T_0 with zero total momentum. */
  lemma InitialisedAtRest(km: seq<KineticMoment>, nDl: nat, sqrt: real -> real)
    requires nDl > 0 && IsSqrt(sqrt) && |km| > 0 && KineticEnergy(km) > 0.0 && KineticEnergy(Centred(km)) > 0.0
    ensures Temperature(Initialised(km, nDl, sqrt), nDl) == T_0
    ensures VecSum(Initialised(km, nDl, sqrt)) == Zero
  {
    CentredRecalibratedEnergy(km, nDl, sqrt);
    var c := Centred(Recalibrate(km, nDl, sqrt));
    RecalibratedTemperature(c, nDl, sqrt);
    CentredSumZero(Recalibrate(km, nDl, sqrt));
    ScaledSumZero(c, Rapport(c, nDl, sqrt));
  }

  // ---------------------------------------------------------------------
  // Sampling

  /** sign_function(x, y): x if y >= 0.0, -x otherwise. */
  function SignFunction(x: real, y: real): real {
    if y < 0.0 then -x else x
  }

  /** One sampled component: sign_function(1.0, 0.5 - s) * c. */
  function SampledComponent(c: real, s: real): real {
    SignFunction(1.0, 0.5 - s) * c
  }

  /** A sampled component is c or -c, at most 1 in magnitude, and negative exactly when s > 0.5 and c > 0. */
  lemma SampledComponentRange(c: real, s: real)
    requires 0.0 <= c <= 1.0
    ensures SampledComponent(c, s) == c || SampledComponent(c, s) == -c
    ensures -1.0 <= SampledComponent(c, s) <= 1.0
    ensures SampledComponent(c, s) < 0.0 <==> s > 0.5 && c > 0.0
  {
  }

  /** The moment of particle i from draws 6i .. 6i + 5, as (c, s) pairs for x, y and z. */
  function SampledMoment(draws: seq<real>, i: nat): KineticMoment
    requires 6 * i + 6 <= |draws|
  {
    Vec3(SampledComponent(draws[6 * i], draws[6 * i + 1]),
         SampledComponent(draws[6 * i + 2], draws[6 * i + 3]),
         SampledComponent(draws[6 * i + 4], draws[6 * i + 5]))
  }

  /** The sampled moments of n particles. */
  function Sampled(draws: seq<real>, n: nat): (km: seq<KineticMoment>)
    requires |draws| == 6 * n
    ensures |km| == n
    ensures forall i | 0 <= i < n :: km[i] == SampledMoment(draws, i)
  {
    seq(n, i requires 0 <= i < n => SampledMoment(draws, i))
  }

  // ---------------------------------------------------------------------
  // One velocity Verlet step

  /** Half a kick: every moment less DT * FORCE_CONVERSION * sum_i[i] * 0.5. */
  function Kick(km: seq<KineticMoment>, forces: seq<Force>): (s: seq<KineticMoment>)
    requires |forces| == |km|
    ensures |s| == |km|
    ensures forall i | 0 <= i < |km| :: s[i] == Vec3(km[i].x - DT * FORCE_CONVERSION * forces[i].x * 0.5,
                                                    km[i].y - DT * FORCE_CONVERSION * forces[i].y * 0.5,
                                                    km[i].z - DT * FORCE_CONVERSION * forces[i].z * 0.5)
  {
    seq(|km|, i requires 0 <= i < |km| =>
      Vec3(km[i].x - DT * FORCE_CONVERSION * forces[i].x * 0.5,
           km[i].y - DT * FORCE_CONVERSION * forces[i].y * 0.5,
           km[i].z - DT * FORCE_CONVERSION * forces[i].z * 0.5))
  }

  /** A half kick changes the total momentum by the total force times DT * FORCE_CONVERSION * 0.5. */
  lemma {:induction false} KickTotal(km: seq<KineticMoment>, forces: seq<Force>)
    requires |forces| == |km|
    ensures VecSum(Kick(km, forces)) == Vec3(VecSum(km).x - DT * FORCE_CONVERSION * VecSum(forces).x * 0.5,
                                             VecSum(km).y - DT * FORCE_CONVERSION * VecSum(forces).y * 0.5,
                                             VecSum(km).z - DT * FORCE_CONVERSION * VecSum(forces).z * 0.5)
  {
    if km != [] {
      var n := |km| - 1;
      assert Kick(km, forces)[..n] == Kick(km[..n], forces[..n]);
      KickTotal(km[..n], forces[..n]);
    }
  }

  /** Balanced forces leave the total momentum unchanged. */
  lemma KickConservesMomentum(km: seq<KineticMoment>, forces: seq<Force>)
    requires |forces| == |km| && VecSum(forces) == Zero
    ensures VecSum(Kick(km, forces)) == VecSum(km)
  {
    KickTotal(km, forces);
  }

  /** The drift: every position moved by DT * p / M_I. */
  function Drift(ps: seq<Particle>, km: seq<KineticMoment>): (s: seq<Particle>)
    requires |km| == |ps|
    ensures |s| == |ps|
    ensures forall i | 0 <= i < |ps| :: s[i] == Vec3(ps[i].x + DT * km[i].x / M_I,
                                                    ps[i].y + DT * km[i].y / M_I,
                                                    ps[i].z + DT * km[i].z / M_I)
  {
    seq(|ps|, i requires 0 <= i < |ps| =>
      Vec3(ps[i].x + DT * km[i].x / M_I, ps[i].y + DT * km[i].y / M_I, ps[i].z + DT * km[i].z / M_I))
  }

  /** The drift moves the sum of the positions by DT / M_I times the total momentum. */
  lemma {:induction false} DriftTotal(ps: seq<Particle>, km: seq<KineticMoment>)
    requires |km| == |ps|
    ensures VecSum(Drift(ps, km)) == Vec3(VecSum(ps).x + DT * VecSum(km).x / M_I,
                                          VecSum(ps).y + DT * VecSum(km).y / M_I,
                                          VecSum(ps).z + DT * VecSum(km).z / M_I)
  {
    if ps != [] {
      var n := |ps| - 1;
      assert Drift(ps, km)[..n] == Drift(ps[..n], km[..n]);
      DriftTotal(ps[..n], km[..n]);
    }
  }

  /** With zero total momentum the centre of mass stays where it is. */
  lemma DriftKeepsCentre(ps: seq<Particle>, km: seq<KineticMoment>)
    requires |km| == |ps| && VecSum(km) == Zero
    ensures VecSum(Drift(ps, km)) == VecSum(ps)
  {
    DriftTotal(ps, km);
  }

  // ---------------------------------------------------------------------
  // Berendsen thermostat

  /** One component under the thermostat: p + p * GAMMA * (T / T_0 - 1). */
  function Damped(p: real, t: real, gamma: real): real {
    p + p * gamma * (t / T_0 - 1.0)
  }

  /** Every moment under the thermostat, component by component. */
  function Thermostat(km: seq<KineticMoment>, t: real, gamma: real): (s: seq<KineticMoment>)
    ensures |s| == |km|
    ensures forall i | 0 <= i < |km| :: s[i] == Vec3(Damped(km[i].x, t, gamma), Damped(km[i].y, t, gamma), Damped(km[i].z, t, gamma))
  {
    seq(|km|, i requires 0 <= i < |km| => Vec3(Damped(km[i].x, t, gamma), Damped(km[i].y, t, gamma), Damped(km[i].z, t, gamma)))
  }

  /** The thermostat is a common rescale by 1 + GAMMA * (T / T_0 - 1). */
  lemma ThermostatIsScaling(km: seq<KineticMoment>, t: real, gamma: real)
    ensures Thermostat(km, t, gamma) == Scaled(km, 1.0 + gamma * (t / T_0 - 1.0))
  {
    var a, b := Thermostat(km, t, gamma), Scaled(km, 1.0 + gamma * (t / T_0 - 1.0));
    forall i | 0 <= i < |km|
      ensures a[i] == b[i]
    {
      DampedMoment(km[i], t, gamma);
    }
  }

  /** One moment under the thermostat is the moment scaled by 1 + GAMMA * (T / T_0 - 1). */
  lemma DampedMoment(v: Vec3, t: real, gamma: real)
    ensures Vec3(Damped(v.x, t, gamma), Damped(v.y, t, gamma), Damped(v.z, t, gamma)) == Scale(1.0 + gamma * (t / T_0 - 1.0), v)
  {
    DampedIsScaling(v.x, t, gamma);
    DampedIsScaling(v.y, t, gamma);
    DampedIsScaling(v.z, t, gamma);
  }

  lemma DampedIsScaling(p: real, t: real, gamma: real)
    ensures Damped(p, t, gamma) == (1.0 + gamma * (t / T_0 - 1.0)) * p
  {
    var g := gamma * (t / T_0 - 1.0);
    assert p * gamma * (t / T_0 - 1.0) == p * g;
  }

  /** At the target temperature the thermostat changes nothing. */
  lemma ThermostatAtTarget(km: seq<KineticMoment>, gamma: real)
    ensures Thermostat(km, T_0, gamma) == km
  {
    var a := Thermostat(km, T_0, gamma);
    forall i | 0 <= i < |km|
      ensures a[i] == km[i]
    {
    }
  }

  /** The thermostat multiplies the temperature by the square of its factor. */
  lemma ThermostatTemperature(km: seq<KineticMoment>, t: real, gamma: real, nDl: nat)
    requires nDl > 0
    ensures Temperature(Thermostat(km, t, gamma), nDl) ==
      (1.0 + gamma * (t / T_0 - 1.0)) * (1.0 + gamma * (t / T_0 - 1.0)) * Temperature(km, nDl)
  {
    ThermostatIsScaling(km, t, gamma);
    TemperatureScaled(km, 1.0 + gamma * (t / T_0 - 1.0), nDl);
  }

  /** The thermostat keeps a zero total momentum zero. */
  lemma ThermostatKeepsRest(km: seq<KineticMoment>, t: real, gamma: real)
    requires VecSum(km) == Zero
    ensures VecSum(Thermostat(km, t, gamma)) == Zero
  {
    ThermostatIsScaling(km, t, gamma);
    ScaledSumZero(km, 1.0 + gamma * (t / T_0 - 1.0));
  }
}
