/**
 * The Lennard-Jones force field as mathematical functions of the particle
 * positions: the pair energy and pair force of src/lennard_jones.c, the
 * force matrix and energy of the bare evaluator (every unordered pair once,
 * mirrored with negation) and of the periodic evaluator (every ordered pair
 * against every image translation, with a cutoff).  The in-place
 * evaluators are proved to compute exactly these functions; the lemmas
 * here state what the functions mean.
 */
module ForceField {
  import opened Helper
  import opened Sums
  import opened Common

  // ---------------------------------------------------------------------
  // One pair

  /** u_ij without the EPSILON_STAR factor: r^6 - 2 r^3 with r = R_STAR^2 / d2. */
  function PairEnergy(d2: real): real
    requires d2 > 0.0
  {
    var r := Square(R_STAR) / d2;
    Hexa(r) - 2.0 * Cube(r)
  }

  /** du_ij: the factor that multiplies p_i - p_j in the force of j on i. */
  function PairCoefficient(d2: real): real
    requires d2 > 0.0
  {
    var r := Square(R_STAR) / d2;
    -48.0 * EPSILON_STAR * (Septa(r) - Quad(r))
  }

  /** Two positions at a non-zero distance: the pair terms are defined. */
  predicate Apart(a: Particle, b: Particle) {
    SquareDistance(a, b) > 0.0
  }

  /** The force that a particle at `b` exerts on a particle at `a`. */
  function PairForce(a: Particle, b: Particle): Force
    requires Apart(a, b)
  {
    Scale(PairCoefficient(SquareDistance(a, b)), Sub(a, b))
  }

  /** Newton's third law for one pair: swapping the particles negates the force. */
  lemma PairForceAntisymmetric(a: Particle, b: Particle)
    requires Apart(a, b)
    ensures Apart(b, a)
    ensures Opposite(PairForce(b, a), PairForce(a, b))
  {
    SquareDistanceSymmetric(a, b);
    var c := PairCoefficient(SquareDistance(a, b));
    NegatedDifference(c, a, b);
  }

  lemma NegatedDifference(c: real, a: Vec3, b: Vec3)
    ensures Opposite(Scale(c, Sub(b, a)), Scale(c, Sub(a, b)))
  {
  }

  /**
   * At the distance R_STAR the pair energy is -1 (so the pair contributes
   * -4 EPSILON_STAR to the bare energy) and the pair force vanishes: R_STAR
   * is the equilibrium distance of this potential.
   */
  lemma EquilibriumDistance()
    ensures PairEnergy(Square(R_STAR)) == -1.0
    ensures 4.0 * EPSILON_STAR * PairEnergy(Square(R_STAR)) == -0.8
    ensures PairCoefficient(Square(R_STAR)) == 0.0
  {
    assert Square(R_STAR) / Square(R_STAR) == 1.0;
  }

  // ---------------------------------------------------------------------
  // Bare evaluator: every unordered pair once

  /** No two distinct particles coincide. */
  ghost predicate Separated(ps: seq<Particle>) {
    forall i, j {:trigger Apart(ps[i], ps[j])} | 0 <= i < |ps| && 0 <= j < |ps| && i != j :: Apart(ps[i], ps[j])
  }

  /**
   * Entry (i, j) of the bare force matrix: the pair force written at
   * i < j, its negation mirrored at j > i, zero on the diagonal.
   */
  function BareForce(ps: seq<Particle>, i: nat, j: nat): Force
    requires Separated(ps) && i < |ps| && j < |ps|
  {
    if i < j then PairForce(ps[i], ps[j])
    else if j < i then
      var mirrored := PairForce(ps[j], ps[i]);
      Vec3(-mirrored.x, -mirrored.y, -mirrored.z)
    else Zero
  }

  function BareForces(ps: seq<Particle>): (m: seq<seq<Force>>)
    requires Separated(ps)
    ensures IsSquare(m, |ps|)
    ensures forall i, j | 0 <= i < |ps| && 0 <= j < |ps| :: m[i][j] == BareForce(ps, i, j)
  {
    seq(|ps|, i requires 0 <= i < |ps| => seq(|ps|, j requires 0 <= j < |ps| => BareForce(ps, i, j)))
  }

  /** Pair energies of every ordered pair, zero on the diagonal. */
  function PairEnergies(ps: seq<Particle>): (e: seq<seq<real>>)
    requires Separated(ps)
    ensures IsSquare(e, |ps|)
    ensures forall i | 0 <= i < |ps| :: e[i][i] == 0.0
    ensures forall i, j | 0 <= i < |ps| && 0 <= j < |ps| && i != j ::
      Apart(ps[i], ps[j]) && e[i][j] == PairEnergy(SquareDistance(ps[i], ps[j]))
  {
    seq(|ps|, i requires 0 <= i < |ps| =>
      seq(|ps|, j requires 0 <= j < |ps| =>
        if i == j then 0.0 else assert Apart(ps[i], ps[j]); PairEnergy(SquareDistance(ps[i], ps[j]))))
  }

  /** The bare energy: the sum over i < j, then times 4 EPSILON_STAR. */
  function BareEnergy(ps: seq<Particle>): real
    requires Separated(ps)
  {
    UpperTotal(PairEnergies(ps)) * (4.0 * EPSILON_STAR)
  }

  /** The bare force matrix is antisymmetric, so its diagonal is zero. */
  lemma BareForcesAntisymmetric(ps: seq<Particle>)
    requires Separated(ps)
    ensures Antisymmetric(BareForces(ps))
    ensures forall i | 0 <= i < |ps| :: BareForces(ps)[i][i] == Zero
  {
    var m := BareForces(ps);
    forall i, j | 0 <= i < |ps| && 0 <= j < |ps|
      ensures Opposite(m[j][i], m[i][j])
    {
      if i == j {
        assert m[i][i] == Zero;
      }
    }
  }

  /** Newton's third law for the whole system: the bare forces add up to zero. */
  lemma BareTotalForceZero(ps: seq<Particle>)
    requires Separated(ps)
    ensures MatrixTotal(BareForces(ps)) == Zero
  {
    BareForcesAntisymmetric(ps);
    AntisymmetricTotalZero(BareForces(ps));
  }

  /**
   * Whichever triangle an entry lies in, entry (i, j) is the force that j
   * exerts on i, computed directly from the two positions.
   */
  lemma BareForceReference(ps: seq<Particle>, i: nat, j: nat)
    requires Separated(ps) && i < |ps| && j < |ps| && i != j
    ensures BareForces(ps)[i][j] == PairForce(ps[i], ps[j])
  {
    if j < i {
      PairForceAntisymmetric(ps[j], ps[i]);
    }
  }

  /** Pair energies depend on the unordered pair only. */
  lemma PairEnergiesSymmetric(ps: seq<Particle>)
    requires Separated(ps)
    ensures SymmetricZeroDiagonal(PairEnergies(ps))
  {
    var e := PairEnergies(ps);
    forall i, j | 0 <= i < |ps| && 0 <= j < |ps|
      ensures e[j][i] == e[i][j]
    {
      SquareDistanceSymmetric(ps[i], ps[j]);
    }
  }

  /**
   * Summing over every ordered pair and scaling by 2 EPSILON_STAR, as the
   * periodic evaluator does, gives the bare energy.
   */
  lemma BareEnergyOrderedPairs(ps: seq<Particle>)
    requires Separated(ps)
    ensures BareEnergy(ps) == RealTotal(PairEnergies(ps)) * (2.0 * EPSILON_STAR)
  {
    PairEnergiesSymmetric(ps);
    SymmetricTotalTwiceUpper(PairEnergies(ps));
  }

  /** Two particles: the energy is the one pair term. */
  lemma TwoParticleEnergy(a: Particle, b: Particle)
    requires Apart(a, b)
    ensures Separated([a, b])
    ensures BareEnergy([a, b]) == PairEnergy(SquareDistance(a, b)) * (4.0 * EPSILON_STAR)
  {
    SquareDistanceSymmetric(a, b);
    var e := PairEnergies([a, b]);
    assert e[0][1..] == [PairEnergy(SquareDistance(a, b))];
    assert e[1][2..] == [];
    assert UpperRowSums(e) == [PairEnergy(SquareDistance(a, b)), 0.0];
    assert Sum([PairEnergy(SquareDistance(a, b)), 0.0]) == Sum([PairEnergy(SquareDistance(a, b))]) + 0.0;
  }

  // ---------------------------------------------------------------------
  // Periodic evaluator: every ordered pair against every image

  /** The image of p_j translated by t lies within the cutoff of p_i. */
  predicate InRange(a: Particle, b: Particle, rCut: real) {
    SquareDistance(a, b) <= Square(rCut)
  }

  /** No image that passes the cutoff coincides with another particle. */
  ghost predicate ImagesSeparated(ps: seq<Particle>, tvs: seq<TranslationVector>, rCut: real) {
    forall k, i, j {:trigger InRange(ps[i], Add(ps[j], tvs[k]), rCut)}
      | 0 <= k < |tvs| && 0 <= i < |ps| && 0 <= j < |ps| && i != j ::
      InRange(ps[i], Add(ps[j], tvs[k]), rCut) ==> Apart(ps[i], Add(ps[j], tvs[k]))
  }

  /** Contribution of image k of particle j to f[i][j]: zero when i == j or beyond the cutoff. */
  function ImageForce(ps: seq<Particle>, tvs: seq<TranslationVector>, rCut: real, k: nat, i: nat, j: nat): Force
    requires ImagesSeparated(ps, tvs, rCut) && k < |tvs| && i < |ps| && j < |ps|
  {
    if i == j then Zero
    else if !InRange(ps[i], Add(ps[j], tvs[k]), rCut) then Zero
    else PairForce(ps[i], Add(ps[j], tvs[k]))
  }

  /** Contribution of image k of particle j to the energy sum. */
  function ImageEnergy(ps: seq<Particle>, tvs: seq<TranslationVector>, rCut: real, k: nat, i: nat, j: nat): real
    requires ImagesSeparated(ps, tvs, rCut) && k < |tvs| && i < |ps| && j < |ps|
  {
    if i == j then 0.0
    else if !InRange(ps[i], Add(ps[j], tvs[k]), rCut) then 0.0
    else PairEnergy(SquareDistance(ps[i], Add(ps[j], tvs[k])))
  }

  /** The contributions to f[i][j], translation by translation. */
  function ImageForces(ps: seq<Particle>, tvs: seq<TranslationVector>, rCut: real, i: nat, j: nat): (s: seq<Force>)
    requires ImagesSeparated(ps, tvs, rCut) && i < |ps| && j < |ps|
    ensures |s| == |tvs|
    ensures forall k | 0 <= k < |tvs| :: s[k] == ImageForce(ps, tvs, rCut, k, i, j)
  {
    seq(|tvs|, k requires 0 <= k < |tvs| => ImageForce(ps, tvs, rCut, k, i, j))
  }

  /** The periodic force matrix: entry (i, j) sums the images of j that act on i. */
  function PeriodicForces(ps: seq<Particle>, tvs: seq<TranslationVector>, rCut: real): (m: seq<seq<Force>>)
    requires ImagesSeparated(ps, tvs, rCut)
    ensures IsSquare(m, |ps|)
    ensures forall i, j | 0 <= i < |ps| && 0 <= j < |ps| :: m[i][j] == VecSum(ImageForces(ps, tvs, rCut, i, j))
  {
    seq(|ps|, i requires 0 <= i < |ps| =>
      seq(|ps|, j requires 0 <= j < |ps| => VecSum(ImageForces(ps, tvs, rCut, i, j))))
  }

  /** Energy contributions of translation k, for every ordered pair. */
  function ImageEnergies(ps: seq<Particle>, tvs: seq<TranslationVector>, rCut: real, k: nat): (e: seq<seq<real>>)
    requires ImagesSeparated(ps, tvs, rCut) && k < |tvs|
    ensures IsSquare(e, |ps|)
    ensures forall i, j | 0 <= i < |ps| && 0 <= j < |ps| :: e[i][j] == ImageEnergy(ps, tvs, rCut, k, i, j)
  {
    seq(|ps|, i requires 0 <= i < |ps| =>
      seq(|ps|, j requires 0 <= j < |ps| => ImageEnergy(ps, tvs, rCut, k, i, j)))
  }

  /** Total energy contribution of each translation. */
  function ShellEnergies(ps: seq<Particle>, tvs: seq<TranslationVector>, rCut: real): (s: seq<real>)
    requires ImagesSeparated(ps, tvs, rCut)
    ensures |s| == |tvs|
    ensures forall k | 0 <= k < |tvs| :: s[k] == RealTotal(ImageEnergies(ps, tvs, rCut, k))
  {
    seq(|tvs|, k requires 0 <= k < |tvs| => RealTotal(ImageEnergies(ps, tvs, rCut, k)))
  }

  /** The periodic energy: the sum over translations and ordered pairs, then times 2 EPSILON_STAR. */
  function PeriodicEnergy(ps: seq<Particle>, tvs: seq<TranslationVector>, rCut: real): real
    requires ImagesSeparated(ps, tvs, rCut)
  {
    Sum(ShellEnergies(ps, tvs, rCut)) * (2.0 * EPSILON_STAR)
  }

  // ---------------------------------------------------------------------
  // The same sums, accumulated in the order of the periodic loops

  /** f[i][j] after the first m translations: the contributions of images 0 .. m-1. */
  ghost function ImageSum(ps: seq<Particle>, tvs: seq<TranslationVector>, rCut: real, i: nat, j: nat, m: nat): Force
    requires ImagesSeparated(ps, tvs, rCut) && i < |ps| && j < |ps| && m <= |tvs|
  {
    if m == 0 then Zero
    else
      var r, v := ImageSum(ps, tvs, rCut, i, j, m - 1), ImageForce(ps, tvs, rCut, m - 1, i, j);
      Vec3(r.x + v.x, r.y + v.y, r.z + v.z)
  }

  lemma {:induction false} ImageSumIsPrefix(ps: seq<Particle>, tvs: seq<TranslationVector>, rCut: real, i: nat, j: nat, m: nat)
    requires ImagesSeparated(ps, tvs, rCut) && i < |ps| && j < |ps| && m <= |tvs|
    ensures ImageSum(ps, tvs, rCut, i, j, m) == VecSum(ImageForces(ps, tvs, rCut, i, j)[..m])
  {
    if m > 0 {
      ImageSumIsPrefix(ps, tvs, rCut, i, j, m - 1);
      VecSumPrefixStep(ImageForces(ps, tvs, rCut, i, j), m - 1);
    }
  }

  /** Once every translation has been visited, f[i][j] is the periodic force. */
  lemma ImageSumComplete(ps: seq<Particle>, tvs: seq<TranslationVector>, rCut: real, i: nat, j: nat)
    requires ImagesSeparated(ps, tvs, rCut) && i < |ps| && j < |ps|
    ensures ImageSum(ps, tvs, rCut, i, j, |tvs|) == PeriodicForces(ps, tvs, rCut)[i][j]
  {
    ImageSumIsPrefix(ps, tvs, rCut, i, j, |tvs|);
    assert ImageForces(ps, tvs, rCut, i, j)[..|tvs|] == ImageForces(ps, tvs, rCut, i, j);
  }

  /** Energy of image k for row i, over the columns j < m. */
  ghost function PairsEnergy(ps: seq<Particle>, tvs: seq<TranslationVector>, rCut: real, k: nat, i: nat, m: nat): real
    requires ImagesSeparated(ps, tvs, rCut) && k < |tvs| && i < |ps| && m <= |ps|
  {
    if m == 0 then 0.0 else PairsEnergy(ps, tvs, rCut, k, i, m - 1) + ImageEnergy(ps, tvs, rCut, k, i, m - 1)
  }

  /** Energy of image k over the rows i < m. */
  ghost function ShellRowsEnergy(ps: seq<Particle>, tvs: seq<TranslationVector>, rCut: real, k: nat, m: nat): real
    requires ImagesSeparated(ps, tvs, rCut) && k < |tvs| && m <= |ps|
  {
    if m == 0 then 0.0 else ShellRowsEnergy(ps, tvs, rCut, k, m - 1) + PairsEnergy(ps, tvs, rCut, k, m - 1, |ps|)
  }

  /** Energy of the translations k < m. */
  ghost function ShellsEnergy(ps: seq<Particle>, tvs: seq<TranslationVector>, rCut: real, m: nat): real
    requires ImagesSeparated(ps, tvs, rCut) && m <= |tvs|
  {
    if m == 0 then 0.0 else ShellsEnergy(ps, tvs, rCut, m - 1) + ShellRowsEnergy(ps, tvs, rCut, m - 1, |ps|)
  }

  lemma {:induction false} PairsEnergyIsPrefix(ps: seq<Particle>, tvs: seq<TranslationVector>, rCut: real, k: nat, i: nat, m: nat)
    requires ImagesSeparated(ps, tvs, rCut) && k < |tvs| && i < |ps| && m <= |ps|
    ensures PairsEnergy(ps, tvs, rCut, k, i, m) == Sum(ImageEnergies(ps, tvs, rCut, k)[i][..m])
  {
    if m > 0 {
      PairsEnergyIsPrefix(ps, tvs, rCut, k, i, m - 1);
      SumPrefixStep(ImageEnergies(ps, tvs, rCut, k)[i], m - 1);
    }
  }

  lemma {:induction false} ShellRowsIsPrefix(ps: seq<Particle>, tvs: seq<TranslationVector>, rCut: real, k: nat, m: nat)
    requires ImagesSeparated(ps, tvs, rCut) && k < |tvs| && m <= |ps|
    ensures ShellRowsEnergy(ps, tvs, rCut, k, m) == Sum(FullRowSums(ImageEnergies(ps, tvs, rCut, k))[..m])
  {
    if m > 0 {
      var e := ImageEnergies(ps, tvs, rCut, k);
      ShellRowsIsPrefix(ps, tvs, rCut, k, m - 1);
      PairsEnergyIsPrefix(ps, tvs, rCut, k, m - 1, |ps|);
      assert e[m - 1][..|ps|] == e[m - 1];
      SumPrefixStep(FullRowSums(e), m - 1);
    }
  }

  lemma {:induction false} ShellsIsPrefix(ps: seq<Particle>, tvs: seq<TranslationVector>, rCut: real, m: nat)
    requires ImagesSeparated(ps, tvs, rCut) && m <= |tvs|
    ensures ShellsEnergy(ps, tvs, rCut, m) == Sum(ShellEnergies(ps, tvs, rCut)[..m])
  {
    if m > 0 {
      var e := ImageEnergies(ps, tvs, rCut, m - 1);
      ShellsIsPrefix(ps, tvs, rCut, m - 1);
      ShellRowsIsPrefix(ps, tvs, rCut, m - 1, |ps|);
      assert FullRowSums(e)[..|ps|] == FullRowSums(e);
      assert RealTotal(e) == Sum(FullRowSums(e));
      SumPrefixStep(ShellEnergies(ps, tvs, rCut), m - 1);
    }
  }

  /** Once every translation has been visited, the accumulated energy is the periodic sum. */
  lemma ShellsEnergyComplete(ps: seq<Particle>, tvs: seq<TranslationVector>, rCut: real)
    requires ImagesSeparated(ps, tvs, rCut)
    ensures ShellsEnergy(ps, tvs, rCut, |tvs|) * (2.0 * EPSILON_STAR) == PeriodicEnergy(ps, tvs, rCut)
  {
    ShellsIsPrefix(ps, tvs, rCut, |tvs|);
    assert ShellEnergies(ps, tvs, rCut)[..|tvs|] == ShellEnergies(ps, tvs, rCut);
  }

  /** A particle never acts on itself: the periodic diagonal is zero. */
  lemma PeriodicDiagonalZero(ps: seq<Particle>, tvs: seq<TranslationVector>, rCut: real)
    requires ImagesSeparated(ps, tvs, rCut)
    ensures forall i | 0 <= i < |ps| :: PeriodicForces(ps, tvs, rCut)[i][i] == Zero
  {
    forall i | 0 <= i < |ps|
      ensures VecSum(ImageForces(ps, tvs, rCut, i, i)) == Zero
    {
      VecSumOfZeros(ImageForces(ps, tvs, rCut, i, i));
    }
  }

  lemma {:induction false} VecSumOfZeros(s: seq<Vec3>)
    requires forall k | 0 <= k < |s| :: s[k] == Zero
    ensures VecSum(s) == Zero
  {
    if |s| > 0 {
      VecSumOfZeros(s[..|s| - 1]);
    }
  }

  lemma {:induction false} SumOfZeros(s: seq<real>)
    requires forall k | 0 <= k < |s| :: s[k] == 0.0
    ensures Sum(s) == 0.0
  {
    if |s| > 0 {
      SumOfZeros(s[..|s| - 1]);
    }
  }

  /** Every pair within the cutoff. */
  ghost predicate AllInRange(ps: seq<Particle>, rCut: real) {
    forall i, j | 0 <= i < |ps| && 0 <= j < |ps| :: InRange(ps[i], ps[j], rCut)
  }

  /** With the zero translation alone, the images are the particles themselves. */
  lemma ZeroTranslationImages(ps: seq<Particle>, rCut: real)
    requires Separated(ps)
    ensures ImagesSeparated(ps, [Zero], rCut)
    ensures forall j | 0 <= j < |ps| :: Add(ps[j], [Zero][0]) == ps[j]
  {
  }

  /** One force entry of the periodic matrix for the zero translation alone. */
  lemma ZeroTranslationForce(ps: seq<Particle>, rCut: real, i: nat, j: nat)
    requires Separated(ps) && AllInRange(ps, rCut) && i < |ps| && j < |ps|
    requires ImagesSeparated(ps, [Zero], rCut)
    ensures VecSum(ImageForces(ps, [Zero], rCut, i, j)) == BareForce(ps, i, j)
  {
    var s := ImageForces(ps, [Zero], rCut, i, j);
    assert Add(ps[j], [Zero][0]) == ps[j];
    assert InRange(ps[i], ps[j], rCut);
    assert s[0] == BareForce(ps, i, j) by {
      if i != j {
        BareForceReference(ps, i, j);
      }
    }
    assert s[..0] == [] && s[..1] == s;
    VecSumPrefixStep(s, 0);
  }

  /** One energy entry of the periodic sum for the zero translation alone. */
  lemma ZeroTranslationEnergy(ps: seq<Particle>, rCut: real, i: nat, j: nat)
    requires Separated(ps) && AllInRange(ps, rCut) && i < |ps| && j < |ps|
    requires ImagesSeparated(ps, [Zero], rCut)
    ensures ImageEnergy(ps, [Zero], rCut, 0, i, j) == PairEnergies(ps)[i][j]
  {
    assert Add(ps[j], [Zero][0]) == ps[j];
    assert InRange(ps[i], ps[j], rCut);
  }

  /**
   * With the zero translation alone and a cutoff that admits every pair,
   * the periodic evaluator computes the bare forces and the bare energy.
   */
  lemma PeriodicMatchesBare(ps: seq<Particle>, rCut: real)
    requires Separated(ps) && AllInRange(ps, rCut)
    ensures ImagesSeparated(ps, [Zero], rCut)
    ensures PeriodicForces(ps, [Zero], rCut) == BareForces(ps)
    ensures PeriodicEnergy(ps, [Zero], rCut) == BareEnergy(ps)
  {
    ZeroTranslationImages(ps, rCut);
    var pf := PeriodicForces(ps, [Zero], rCut);
    var bf := BareForces(ps);
    var e := ImageEnergies(ps, [Zero], rCut, 0);
    var pe := PairEnergies(ps);
    forall i, j | 0 <= i < |ps| && 0 <= j < |ps|
      ensures pf[i][j] == bf[i][j] && e[i][j] == pe[i][j]
    {
      ZeroTranslationForce(ps, rCut, i, j);
      ZeroTranslationEnergy(ps, rCut, i, j);
    }
    MatricesEqual(pf, bf);
    MatricesEqual(e, pe);
    var shells := ShellEnergies(ps, [Zero], rCut);
    assert shells[..0] == [] && shells[..1] == shells;
    SumPrefixStep(shells, 0);
    BareEnergyOrderedPairs(ps);
  }

  lemma MatricesEqual<T>(a: seq<seq<T>>, b: seq<seq<T>>)
    requires IsSquare(a, |a|) && IsSquare(b, |a|)
    requires forall i, j | 0 <= i < |a| && 0 <= j < |a| :: a[i][j] == b[i][j]
    ensures a == b
  {
    forall i | 0 <= i < |a|
      ensures a[i] == b[i]
    {
    }
  }

  /** Appending a translation leaves the contributions of the earlier ones unchanged. */
  lemma ExtendedImages(ps: seq<Particle>, tvs: seq<TranslationVector>, t: TranslationVector, rCut: real, k: nat)
    requires ImagesSeparated(ps, tvs, rCut) && ImagesSeparated(ps, tvs + [t], rCut) && k < |tvs|
    ensures ImageEnergies(ps, tvs + [t], rCut, k) == ImageEnergies(ps, tvs, rCut, k)
  {
    var a := ImageEnergies(ps, tvs + [t], rCut, k);
    var b := ImageEnergies(ps, tvs, rCut, k);
    assert (tvs + [t])[k] == tvs[k];
    MatricesEqual(a, b);
  }

  /** An appended translation with every image beyond the cutoff keeps the images separated. */
  lemma FarTranslationSeparated(ps: seq<Particle>, tvs: seq<TranslationVector>, t: TranslationVector, rCut: real)
    requires ImagesSeparated(ps, tvs, rCut)
    requires forall i, j | 0 <= i < |ps| && 0 <= j < |ps| && i != j :: !InRange(ps[i], Add(ps[j], t), rCut)
    ensures ImagesSeparated(ps, tvs + [t], rCut)
  {
    var tvs' := tvs + [t];
    assert forall k | 0 <= k < |tvs| :: tvs'[k] == tvs[k];
    assert tvs'[|tvs|] == t;
  }

  /** One force entry is unchanged by appending a far translation. */
  lemma FarTranslationForce(ps: seq<Particle>, tvs: seq<TranslationVector>, t: TranslationVector, rCut: real, i: nat, j: nat)
    requires ImagesSeparated(ps, tvs, rCut) && ImagesSeparated(ps, tvs + [t], rCut)
    requires forall i, j | 0 <= i < |ps| && 0 <= j < |ps| && i != j :: !InRange(ps[i], Add(ps[j], t), rCut)
    requires i < |ps| && j < |ps|
    ensures VecSum(ImageForces(ps, tvs + [t], rCut, i, j)) == VecSum(ImageForces(ps, tvs, rCut, i, j))
  {
    var tvs' := tvs + [t];
    var m := |tvs|;
    var s' := ImageForces(ps, tvs', rCut, i, j);
    var s := ImageForces(ps, tvs, rCut, i, j);
    forall k | 0 <= k < m
      ensures s'[k] == s[k]
    {
      assert tvs'[k] == tvs[k];
    }
    assert s'[..m] == s;
    assert tvs'[m] == t;
    assert s'[m] == Zero;
    VecSumPrefixStep(s', m);
    assert s'[..m + 1] == s';
  }

  /** The energy contribution of a far translation is zero. */
  lemma FarTranslationShell(ps: seq<Particle>, tvs: seq<TranslationVector>, t: TranslationVector, rCut: real)
    requires ImagesSeparated(ps, tvs + [t], rCut)
    requires forall i, j | 0 <= i < |ps| && 0 <= j < |ps| && i != j :: !InRange(ps[i], Add(ps[j], t), rCut)
    ensures RealTotal(ImageEnergies(ps, tvs + [t], rCut, |tvs|)) == 0.0
  {
    var last := ImageEnergies(ps, tvs + [t], rCut, |tvs|);
    assert (tvs + [t])[|tvs|] == t;
    var rows := seq(|last|, i requires 0 <= i < |last| => Sum(last[i]));
    forall i | 0 <= i < |last|
      ensures rows[i] == 0.0
    {
      SumOfZeros(last[i]);
    }
    SumOfZeros(rows);
  }

  /**
   * A translation whose images of every particle lie beyond the cutoff of
   * every other particle contributes nothing: appending it changes neither
   * the forces nor the energy.
   */
  lemma FarTranslationIgnored(ps: seq<Particle>, tvs: seq<TranslationVector>, t: TranslationVector, rCut: real)
    requires ImagesSeparated(ps, tvs, rCut)
    requires forall i, j | 0 <= i < |ps| && 0 <= j < |ps| && i != j :: !InRange(ps[i], Add(ps[j], t), rCut)
    ensures ImagesSeparated(ps, tvs + [t], rCut)
    ensures PeriodicForces(ps, tvs + [t], rCut) == PeriodicForces(ps, tvs, rCut)
    ensures PeriodicEnergy(ps, tvs + [t], rCut) == PeriodicEnergy(ps, tvs, rCut)
  {
    FarTranslationSeparated(ps, tvs, t, rCut);
    var tvs' := tvs + [t];
    var m := |tvs|;
    var after := PeriodicForces(ps, tvs', rCut);
    var before := PeriodicForces(ps, tvs, rCut);
    forall i, j | 0 <= i < |ps| && 0 <= j < |ps|
      ensures after[i][j] == before[i][j]
    {
      FarTranslationForce(ps, tvs, t, rCut, i, j);
    }
    MatricesEqual(after, before);
    var e' := ShellEnergies(ps, tvs', rCut);
    var e := ShellEnergies(ps, tvs, rCut);
    forall k | 0 <= k < m
      ensures e'[k] == e[k]
    {
      ExtendedImages(ps, tvs, t, rCut, k);
    }
    assert e'[..m] == e;
    FarTranslationShell(ps, tvs, t, rCut);
    SumPrefixStep(e', m);
    assert e'[..m + 1] == e';
  }
}
