/**
 * The older evaluators of lennard_jones.c, which allocate and return a
 * fresh state holding only the force matrix and the energy.  The bare one
 * writes into a matrix that is never initialised, so its proof shows that
 * every entry is written; the periodic one zeroes the matrix first and
 * then runs the same accumulation loops as the current evaluator.
 */
module LegacyLennardJones {
  import opened Helper
  import opened Sums
  import opened Common
  import opened ForceField
  import opened LennardJonesState

  /** struct lennard_jones as the older code fills it: energy and the N x N force matrix. */
  class Snapshot {
    const n: nat
    var energy: real
    const f: array2<Force>

    ghost predicate Valid()
    {
      f.Length0 == n && f.Length1 == n
    }

    function Forces(): seq<seq<Force>>
      reads f
    {
      Rows(f)
    }

    /** The allocation: energy starts at zero, the entries of f are left as they are. */
    constructor (n: nat)
      ensures Valid() && this.n == n && fresh(f) && energy == 0.0
    {
      this.n := n;
      energy := 0.0;
      f := new Force[n, n];
    }

    /** The entries of f written so far by the bare loops standing at row i, column j hold those of `target`. */
    ghost predicate Filled(target: seq<seq<Force>>, i: nat, j: nat)
      reads f
    {
      Valid() && IsSquare(target, n) &&
      forall a, b {:trigger f[a, b]} | 0 <= a < n && 0 <= b < n && Written(i, j, a, b) :: f[a, b] == target[a][b]
    }

    /** The compute loop of the older lennard_jones, over a matrix whose entries start arbitrary. */
    method FillPairs(p: seq<Particle>, ghost bf: seq<seq<Force>>, ghost e: seq<seq<real>>)
      requires |p| == n && IsSquare(e, n) && forall i {:trigger RowReady(p, i, bf, e[i])} | 0 <= i < n :: RowReady(p, i, bf, e[i])
      requires Filled(bf, 0, 1) && energy == 0.0
      modifies this`energy, f
      ensures Filled(bf, n, n + 1)
      ensures energy == UpperTotal(e)
    {
      var i := 0;
      while i < n
        modifies this`energy, f
        invariant 0 <= i <= n
        invariant Filled(bf, i, i + 1)
        invariant energy == UpperPrefix(e, i)
      {
        FillRow(p, i, bf, e[i]);
        i := i + 1;
      }
      UpperPrefixComplete(e);
    }

    /** Row i: the pairs (i, j) for j > i, then the zero written on the diagonal. */
    method FillRow(p: seq<Particle>, i: nat, ghost bf: seq<seq<Force>>, ghost e: seq<real>)
      requires Filled(bf, i, i + 1) && |p| == n && RowReady(p, i, bf, e)
      modifies this`energy, f
      ensures Filled(bf, i + 1, i + 2)
      ensures energy == old(energy) + SumRange(e, i + 1, n)
    {
      var j := i + 1;
      while j < n
        modifies this`energy, f
        invariant i + 1 <= j <= n
        invariant Filled(bf, i, j)
        invariant energy == old(energy) + SumRange(e, i + 1, j)
      {
        StorePair(p, i, j, bf, e[j]);
        j := j + 1;
      }
      f[i, i] := Zero;
    }

    /** One pair i < j: the energy is added, the force written at (i, j) and its negation at (j, i). */
    method StorePair(p: seq<Particle>, i: nat, j: nat, ghost bf: seq<seq<Force>>, ghost u: real)
      requires Filled(bf, i, j)
      requires |p| == n && i < j < n && Apart(p[i], p[j]) && u == PairEnergy(SquareDistance(p[i], p[j]))
      requires bf[i][j] == PairForce(p[i], p[j]) && bf[j][i] == Vec3(-bf[i][j].x, -bf[i][j].y, -bf[i][j].z)
      modifies this`energy, f
      ensures Filled(bf, i, j + 1)
      ensures energy == old(energy) + u
    {
      var distance := SquareDistance(p[i], p[j]);
      energy := energy + PairEnergy(distance);
      var du := PairCoefficient(distance);
      f[i, j] := Scale(du, Sub(p[i], p[j]));
      f[j, i] := Vec3(-f[i, j].x, -f[i, j].y, -f[i, j].z);
    }

    /** The zeroing loop of the older periodical_lennard_jones. */
    method ZeroForces()
      requires Valid()
      modifies f
      ensures forall a, b | 0 <= a < n && 0 <= b < n :: f[a, b] == Zero
    {
      var i := 0;
      while i < n
        invariant 0 <= i <= n
        invariant forall a, b | 0 <= a < i && 0 <= b < n :: f[a, b] == Zero
      {
        var j := 0;
        while j < n
          invariant 0 <= j <= n
          invariant forall a, b | 0 <= a < i && 0 <= b < n :: f[a, b] == Zero
          invariant forall b | 0 <= b < j :: f[i, b] == Zero
        {
          f[i, j] := Zero;
          j := j + 1;
        }
        i := i + 1;
      }
    }
  }

  /**
   * The older lennard_jones: a fresh state whose every entry is written,
   * the pair force above the diagonal, its negation below, zero on it, and
   * whose energy is the bare energy.
   */
  method Bare(p: seq<Particle>) returns (lj: Snapshot)
    requires Separated(p)
    ensures fresh(lj) && fresh(lj.f) && lj.Valid() && lj.n == |p|
    ensures lj.Forces() == BareForces(p)
    ensures lj.energy == BareEnergy(p)
  {
    lj := new Snapshot(|p|);
    ghost var bf, e := BareForces(p), PairEnergies(p);
    BareRows(p, bf, e);
    lj.FillPairs(p, bf, e);
    forall a, b | 0 <= a < |p| && 0 <= b < |p|
      ensures lj.f[a, b] == bf[a][b]
    {
      assert Written(|p|, |p| + 1, a, b);
    }
    MatricesEqual(lj.Forces(), bf);
    lj.energy := lj.energy * (4.0 * EPSILON_STAR);
  }

  /**
   * The older periodical_lennard_jones: a fresh state, zeroed, then every
   * ordered pair against the first nT image translations with the cutoff,
   * and the energy scaled by 2 EPSILON_STAR.
   */
  method Periodic(p: seq<Particle>, tv: seq<TranslationVector>, rCut: real, nT: nat) returns (plj: Snapshot)
    requires nT <= |tv| && ImagesSeparated(p, tv[..nT], rCut)
    ensures fresh(plj) && fresh(plj.f) && plj.Valid() && plj.n == |p|
    ensures plj.Forces() == PeriodicForces(p, tv[..nT], rCut)
    ensures plj.energy == PeriodicEnergy(p, tv[..nT], rCut)
  {
    plj := new Snapshot(|p|);
    plj.ZeroForces();
    var e := AccumulateImages(plj.f, p, tv[..nT], rCut);
    plj.energy := plj.energy + e;
    MatricesEqual(plj.Forces(), PeriodicForces(p, tv[..nT], rCut));
    plj.energy := plj.energy * (2.0 * EPSILON_STAR);
  }
}
