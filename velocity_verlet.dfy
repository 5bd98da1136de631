/**
 * The integrator of src/velocity_verlet.c as it runs: loops over the
 * kinetic-moment and position arrays that update them in place, the `ket`
 * record they fill in, and the force-field state they re-evaluate.  Each
 * method is proved against the functions of Momentum, whose properties
 * (temperature T_0 after recalibration, zero total momentum after
 * centring, momentum kept by balanced forces) are proved there.
 */
module VelocityVerlet {
  import opened Helper
  import opened Sums
  import opened ForceField
  import opened LennardJonesState
  import opened Momentum

  /** struct ket: the kinetic energy and temperature of one evaluation. */
  class Ket {
    var kineticEnergy: real
    var temperature: real

    /** init_ket: both fields zero. */
    constructor ()
      ensures kineticEnergy == 0.0 && temperature == 0.0
    {
      kineticEnergy := 0.0;
      temperature := 0.0;
    }

    /**
     * compute_kinetic_energy_and_temperature: the squared moments
     * accumulated in index order, divided by M_I * FORCE_CONVERSION_x2, and
     * that energy over N_DL * R_CONSTANT.
     */
    method Compute(km: array<KineticMoment>, nDl: nat)
      requires nDl > 0
      modifies this
      ensures kineticEnergy == KineticEnergy(km[..])
      ensures temperature == Temperature(km[..], nDl)
    {
      kineticEnergy := 0.0;
      var i := 0;
      while i < km.Length
        invariant 0 <= i <= km.Length
        invariant kineticEnergy == SquareSum(km[..i])
      {
        SquareSumStep(km[..], i);
        assert km[..][..i + 1] == km[..i + 1];
        kineticEnergy := kineticEnergy + (Square(km[i].x) + Square(km[i].y) + Square(km[i].z));
        i := i + 1;
      }
      assert km[..i] == km[..];
      kineticEnergy := kineticEnergy / (M_I * FORCE_CONVERSION_x2);
      temperature := kineticEnergy / (nDl as real * R_CONSTANT);
    }
  }

  /**
   * first_recalibration: every component multiplied by
   * sqrt(N_DL * R_CONSTANT * T_0 / kinetic energy).
   */
  method FirstRecalibration(km: array<KineticMoment>, nDl: nat, sqrt: real -> real)
    requires nDl > 0 && KineticEnergy(km[..]) > 0.0
    modifies km
    ensures km[..] == Recalibrate(old(km[..]), nDl, sqrt)
  {
    var ket := new Ket();
    ket.Compute(km, nDl);
    var rapport := sqrt((nDl as real * R_CONSTANT * T_0) / ket.kineticEnergy);
    ScaleMoments(km, rapport);
  }

  /** The loop of first_recalibration: every component multiplied by the factor r. */
  method ScaleMoments(km: array<KineticMoment>, r: real)
    modifies km
    ensures km[..] == Scaled(old(km[..]), r)
  {
    ghost var before := km[..];
    var i := 0;
    while i < km.Length
      invariant 0 <= i <= km.Length
      invariant forall a | 0 <= a < i :: km[a] == Scaled(before, r)[a]
      invariant forall a | i <= a < km.Length :: km[a] == before[a]
    {
      ScaleCommutes(km[i], r);
      km[i] := Vec3(km[i].x * r, km[i].y * r, km[i].z * r);
      i := i + 1;
    }
  }

  /** The loop multiplies each component on the right; Scale multiplies on the left. */
  lemma ScaleCommutes(v: KineticMoment, r: real)
    ensures Vec3(v.x * r, v.y * r, v.z * r) == Scale(r, v)
  {
  }

  /**
   * second_recalibration: the moments summed axis by axis, the sum divided
   * by N_PARTICLES_TOTAL, and that mean subtracted from every moment.
   */
  method SecondRecalibration(km: array<KineticMoment>)
    requires km.Length > 0
    modifies km
    ensures km[..] == Centred(old(km[..]))
  {
    var sumKm := TotalMoment(km);
    var n := km.Length as real;
    sumKm := Vec3(sumKm.x / n, sumKm.y / n, sumKm.z / n);
    ShiftMoments(km, sumKm);
  }

  /** The first loop of second_recalibration: sum_km accumulates the moments axis by axis. */
  method TotalMoment(km: array<KineticMoment>) returns (sumKm: Vec3)
    ensures sumKm == VecSum(km[..])
  {
    sumKm := Zero;
    var i := 0;
    while i < km.Length
      invariant 0 <= i <= km.Length
      invariant sumKm == VecSum(km[..i])
    {
      VecSumPrefixStep(km[..], i);
      assert km[..][..i + 1] == km[..i + 1];
      sumKm := Vec3(sumKm.x + km[i].x, sumKm.y + km[i].y, sumKm.z + km[i].z);
      i := i + 1;
    }
    assert km[..i] == km[..];
  }

  /** The last loop of second_recalibration: the vector m subtracted from every moment. */
  method ShiftMoments(km: array<KineticMoment>, m: Vec3)
    modifies km
    ensures km[..] == Shifted(old(km[..]), m)
  {
    ghost var before := km[..];
    var i := 0;
    while i < km.Length
      invariant 0 <= i <= km.Length
      invariant forall a | 0 <= a < i :: km[a] == Shifted(before, m)[a]
      invariant forall a | i <= a < km.Length :: km[a] == before[a]
    {
      km[i] := Vec3(km[i].x - m.x, km[i].y - m.y, km[i].z - m.z);
      i := i + 1;
    }
  }

  /**
   * init_velocity_verlet without its random source: N_DL is set, the
   * moments are sampled, then recalibrated, centred and recalibrated
   * again.  They leave at temperature T_0 with zero total momentum.
   */
  method InitVelocityVerlet(n: nat, draws: seq<real>, sqrt: real -> real) returns (nDl: nat, km: array<KineticMoment>)
    requires n < U64 && DegreesOfFreedom(n) > 0 && IsSqrt(sqrt)
    requires |draws| == 6 * n
    requires KineticEnergy(Sampled(draws, n)) > 0.0 && n > 0 && KineticEnergy(Centred(Sampled(draws, n))) > 0.0
    ensures nDl == DegreesOfFreedom(n)
    ensures fresh(km) && km[..] == Initialised(Sampled(draws, n), nDl, sqrt)
    ensures Temperature(km[..], nDl) == T_0 && VecSum(km[..]) == Zero
  {
    nDl := ((3 * n) % U64 - 3) % U64;
    km := SampleMoments(n, draws);
    ghost var sampled := km[..];
    FirstRecalibration(km, nDl, sqrt);
    CentredRecalibratedEnergy(sampled, nDl, sqrt);
    SecondRecalibration(km);
    FirstRecalibration(km, nDl, sqrt);
    InitialisedAtRest(sampled, nDl, sqrt);
  }

  /**
   * The sampling loop of init_velocity_verlet: per axis, c and s are two
   * draws of rand() / RAND_MAX and the component is sign_function(1.0,
   * 0.5 - s) * c.
   */
  method SampleMoments(n: nat, draws: seq<real>) returns (km: array<KineticMoment>)
    requires |draws| == 6 * n
    ensures fresh(km) && km[..] == Sampled(draws, n)
  {
    km := new KineticMoment[n];
    var i := 0;
    while i < n
      invariant 0 <= i <= n
      invariant forall a | 0 <= a < i :: km[a] == SampledMoment(draws, a)
    {
      var c := draws[6 * i];
      var s := draws[6 * i + 1];
      var px := SignFunction(1.0, 0.5 - s) * c;
      c := draws[6 * i + 2];
      s := draws[6 * i + 3];
      var py := SignFunction(1.0, 0.5 - s) * c;
      c := draws[6 * i + 4];
      s := draws[6 * i + 5];
      var pz := SignFunction(1.0, 0.5 - s) * c;
      km[i] := Vec3(px, py, pz);
      i := i + 1;
    }
  }

  // ---------------------------------------------------------------------
  // One velocity Verlet step

  /**
   * The positions the selected evaluator accepts: separated particles for
   * lennard_jones, separated images among the first N_SYM translations for
   * periodical_lennard_jones.
   */
  ghost predicate Evaluable(ps: seq<Particle>, tv: seq<TranslationVector>, rCut: real, periodical: bool) {
    if periodical then N_SYM <= |tv| && ImagesSeparated(ps, tv[..N_SYM], rCut) else Separated(ps)
  }

  /** The force matrix of the selected evaluator. */
  ghost function ForceMatrix(ps: seq<Particle>, tv: seq<TranslationVector>, rCut: real, periodical: bool): seq<seq<Force>>
    requires Evaluable(ps, tv, rCut, periodical)
  {
    if periodical then PeriodicForces(ps, tv[..N_SYM], rCut) else BareForces(ps)
  }

  /** The energy of the selected evaluator. */
  ghost function Energy(ps: seq<Particle>, tv: seq<TranslationVector>, rCut: real, periodical: bool): real
    requires Evaluable(ps, tv, rCut, periodical)
  {
    if periodical then PeriodicEnergy(ps, tv[..N_SYM], rCut) else BareEnergy(ps)
  }

  /** lj holds the evaluation at ps: matrix, sum_i, sum and energy. */
  ghost predicate Evaluated(lj: LennardJones, ps: seq<Particle>, tv: seq<TranslationVector>, rCut: real, periodical: bool)
    reads lj, lj.f, lj.sumI
  {
    Evaluable(ps, tv, rCut, periodical) && lj.Valid() &&
    lj.Forces() == ForceMatrix(ps, tv, rCut, periodical) &&
    lj.sumI[..] == RowSums(ForceMatrix(ps, tv, rCut, periodical)) &&
    lj.sum == MatrixTotal(ForceMatrix(ps, tv, rCut, periodical)) &&
    lj.energy == Energy(ps, tv, rCut, periodical)
  }

  /** The force on every particle: sum_i after an evaluation at ps. */
  ghost function ForcesOn(ps: seq<Particle>, tv: seq<TranslationVector>, rCut: real, periodical: bool): seq<Force>
    requires Evaluable(ps, tv, rCut, periodical)
  {
    RowSums(ForceMatrix(ps, tv, rCut, periodical))
  }

  /** The positions after the drift of one step: half kick with the forces at ps, then drift. */
  ghost function DriftedPositions(ps: seq<Particle>, km: seq<KineticMoment>, tv: seq<TranslationVector>, rCut: real, periodical: bool): seq<Particle>
    requires |km| == |ps| && Evaluable(ps, tv, rCut, periodical)
  {
    Drift(ps, Kick(km, ForcesOn(ps, tv, rCut, periodical)))
  }

  /**
   * One step of velocity_verlet on values: half kick with the forces at
   * the old positions, drift, half kick with the forces at the new ones.
   */
  ghost function VerletStep(ps: seq<Particle>, km: seq<KineticMoment>, tv: seq<TranslationVector>, rCut: real, periodical: bool):
    (r: (seq<Particle>, seq<KineticMoment>))
    requires |km| == |ps| && Evaluable(ps, tv, rCut, periodical)
    requires Evaluable(DriftedPositions(ps, km, tv, rCut, periodical), tv, rCut, periodical)
    ensures |r.0| == |ps| && |r.1| == |km|
  {
    var half := Kick(km, ForcesOn(ps, tv, rCut, periodical));
    var ps' := Drift(ps, half);
    (ps', Kick(half, ForcesOn(ps', tv, rCut, periodical)))
  }

  /** With the bare forces a step keeps the total momentum and moves the centre by DT / M_I times it. */
  lemma BareStepConservesMomentum(ps: seq<Particle>, km: seq<KineticMoment>, tv: seq<TranslationVector>, rCut: real)
    requires |km| == |ps| && Evaluable(ps, tv, rCut, false)
    requires Evaluable(DriftedPositions(ps, km, tv, rCut, false), tv, rCut, false)
    ensures VecSum(VerletStep(ps, km, tv, rCut, false).1) == VecSum(km)
    ensures VecSum(VerletStep(ps, km, tv, rCut, false).0) ==
      Vec3(VecSum(ps).x + DT * VecSum(km).x / M_I, VecSum(ps).y + DT * VecSum(km).y / M_I, VecSum(ps).z + DT * VecSum(km).z / M_I)
  {
    var half := Kick(km, ForcesOn(ps, tv, rCut, false));
    var ps' := Drift(ps, half);
    BareTotalForceZero(ps);
    KickConservesMomentum(km, ForcesOn(ps, tv, rCut, false));
    DriftTotal(ps, half);
    BareTotalForceZero(ps');
    KickConservesMomentum(half, ForcesOn(ps', tv, rCut, false));
  }

  /** The evaluator the build selects: lennard_jones or periodical_lennard_jones with N_SYM translations. */
  method EvaluateForces(lj: LennardJones, ps: seq<Particle>, tv: seq<TranslationVector>, rCut: real, periodical: bool)
    requires lj.Valid() && |ps| == lj.n && Evaluable(ps, tv, rCut, periodical)
    modifies lj, lj.f, lj.sumI
    ensures Evaluated(lj, ps, tv, rCut, periodical)
  {
    if periodical {
      lj.EvaluatePeriodic(ps, tv, rCut, N_SYM);
    } else {
      lj.Evaluate(ps);
    }
  }

  /** A half kick: every moment less DT * FORCE_CONVERSION * sum_i[i] * 0.5. */
  method KickMoments(km: array<KineticMoment>, sumI: array<Force>)
    requires km.Length == sumI.Length && km != sumI
    modifies km
    ensures km[..] == Kick(old(km[..]), sumI[..])
  {
    ghost var before := km[..];
    var i := 0;
    while i < km.Length
      invariant 0 <= i <= km.Length
      invariant forall a | 0 <= a < i :: km[a] == Kick(before, sumI[..])[a]
      invariant forall a | i <= a < km.Length :: km[a] == before[a]
    {
      km[i] := Vec3(km[i].x - DT * FORCE_CONVERSION * sumI[i].x * 0.5,
                    km[i].y - DT * FORCE_CONVERSION * sumI[i].y * 0.5,
                    km[i].z - DT * FORCE_CONVERSION * sumI[i].z * 0.5);
      i := i + 1;
    }
  }

  /** The drift: every position moved by DT * p / M_I. */
  method DriftPositions(p: array<Particle>, km: array<KineticMoment>)
    requires p.Length == km.Length && p != km
    modifies p
    ensures p[..] == Drift(old(p[..]), km[..])
  {
    ghost var before := p[..];
    var i := 0;
    while i < p.Length
      invariant 0 <= i <= p.Length
      invariant forall a | 0 <= a < i :: p[a] == Drift(before, km[..])[a]
      invariant forall a | i <= a < p.Length :: p[a] == before[a]
    {
      p[i] := Vec3(p[i].x + DT * km[i].x / M_I, p[i].y + DT * km[i].y / M_I, p[i].z + DT * km[i].z / M_I);
      i := i + 1;
    }
  }

  /**
   * velocity_verlet: forces, half kick, drift, forces at the new
   * positions, half kick.  The arrays are distinct, as the restrict
   * qualifiers of the source promise.
   */
  method Step(p: array<Particle>, tv: seq<TranslationVector>, lj: LennardJones, km: array<KineticMoment>, rCut: real, periodical: bool)
    requires lj.Valid() && p.Length == lj.n && km.Length == lj.n
    requires p != km && p != lj.sumI && km != lj.sumI
    requires Evaluable(p[..], tv, rCut, periodical)
    requires Evaluable(DriftedPositions(p[..], km[..], tv, rCut, periodical), tv, rCut, periodical)
    modifies p, km, lj, lj.f, lj.sumI
    ensures (p[..], km[..]) == VerletStep(old(p[..]), old(km[..]), tv, rCut, periodical)
    ensures Evaluated(lj, p[..], tv, rCut, periodical)
  {
    EvaluateForces(lj, p[..], tv, rCut, periodical);
    KickMoments(km, lj.sumI);
    DriftPositions(p, km);
    EvaluateForces(lj, p[..], tv, rCut, periodical);
    KickMoments(km, lj.sumI);
  }

  /** berendsen_thermostat: every component p becomes p + p * GAMMA * (T / T_0 - 1). */
  method Berendsen(km: array<KineticMoment>, ket: Ket, gamma: real)
    modifies km
    ensures km[..] == Thermostat(old(km[..]), ket.temperature, gamma)
  {
    ghost var before := km[..];
    var t := ket.temperature;
    var i := 0;
    while i < km.Length
      invariant 0 <= i <= km.Length
      invariant forall a | 0 <= a < i :: km[a] == Thermostat(before, t, gamma)[a]
      invariant forall a | i <= a < km.Length :: km[a] == before[a]
    {
      var v := km[i];
      km[i] := Vec3(v.x + v.x * gamma * (t / T_0 - 1.0),
                    v.y + v.y * gamma * (t / T_0 - 1.0),
                    v.z + v.z * gamma * (t / T_0 - 1.0));
      assert km[i] == Vec3(Damped(v.x, t, gamma), Damped(v.y, t, gamma), Damped(v.z, t, gamma));
      i := i + 1;
    }
  }
}
