/**
 * The force-field state of src/lennard_jones.c: the N x N force matrix
 * `f`, the per-particle sums `sum_i`, their total `sum` and the potential
 * `energy`, all updated in place by the bare and the periodic evaluators.
 * The particle and translation arrays are only read, so they are passed as
 * their contents.
 */
module LennardJonesState {
  import opened Helper
  import opened Sums
  import opened Common
  import opened ForceField

  class LennardJones {
    /** N_PARTICLES_LOCAL: the side of the force matrix. */
    const n: nat
    var energy: real
    const f: array2<Force>
    const sumI: array<Force>
    var sum: Force

    ghost predicate Valid()
    {
      f.Length0 == n && f.Length1 == n && sumI.Length == n
    }

    /** The force matrix, row by row. */
    function Forces(): seq<seq<Force>>
      reads f
    {
      Rows(f)
    }

    /** init_lennard_jones: a state of side n with everything set to zero. */
    constructor (n: nat)
      ensures Valid() && this.n == n && fresh(f) && fresh(sumI)
      ensures energy == 0.0 && sum == Zero
      ensures forall a, b | 0 <= a < n && 0 <= b < n :: f[a, b] == Zero
      ensures forall a | 0 <= a < n :: sumI[a] == Zero
    {
      this.n := n;
      f := new Force[n, n];
      sumI := new Force[n];
      new;
      Reset();
    }

    /** The reset that opens init_lennard_jones and both evaluators: energy, f, sum_i and sum become zero. */
    method Reset()
      requires Valid()
      modifies this, f, sumI
      ensures Valid()
      ensures energy == 0.0 && sum == Zero
      ensures forall a, b | 0 <= a < n && 0 <= b < n :: f[a, b] == Zero
      ensures forall a | 0 <= a < n :: sumI[a] == Zero
    {
      energy := 0.0;
      var i := 0;
      while i < n
        modifies f
        invariant 0 <= i <= n
        invariant forall a, b | 0 <= a < i && 0 <= b < n :: f[a, b] == Zero
      {
        var j := 0;
        while j < n
          modifies f
          invariant 0 <= j <= n
          invariant forall a, b | 0 <= a < i && 0 <= b < n :: f[a, b] == Zero
          invariant forall b | 0 <= b < j :: f[i, b] == Zero
        {
          f[i, j] := Zero;
          j := j + 1;
        }
        i := i + 1;
      }
      i := 0;
      while i < n
        modifies sumI
        invariant 0 <= i <= n
        invariant forall a | 0 <= a < i :: sumI[a] == Zero
      {
        sumI[i] := Zero;
        i := i + 1;
      }
      sum := Zero;
    }

    /** Every sum_i[a] holds the sum of row a as far as the bare loops have written it. */
    ghost predicate RowsSummed(target: seq<seq<Force>>, i: nat, j: nat)
      reads sumI
    {
      Valid() && IsSquare(target, n) &&
      forall a {:trigger sumI[a]} | 0 <= a < n :: sumI[a] == PartialSum(target, i, j, a, n)
    }

    /** The bare loops stand at row i, column j: written entries of f hold those of `target`, the rest zero. */
    ghost predicate BareProgress(target: seq<seq<Force>>, i: nat, j: nat)
      reads f
    {
      Valid() && IsSquare(target, n) &&
      forall a, b {:trigger f[a, b]} | 0 <= a < n && 0 <= b < n ::
        f[a, b] == if Written(i, j, a, b) then target[a][b] else Zero
    }

    /**
     * lennard_jones: every unordered pair i < j once, mirrored with
     * negation, zero on the diagonal; sum_i and sum are accumulated along
     * the way and the energy is scaled by 4 EPSILON_STAR at the end.
     */
    method Evaluate(p: seq<Particle>)
      requires Valid() && |p| == n && Separated(p)
      modifies this, f, sumI
      ensures Valid()
      ensures Forces() == BareForces(p)
      ensures sumI[..] == RowSums(BareForces(p))
      ensures sum == MatrixTotal(BareForces(p))
      ensures energy == BareEnergy(p)
    {
      Reset();
      ghost var bf, e := BareForces(p), PairEnergies(p);
      BareRows(p, bf, e);
      PartialStart(bf);
      EvaluatePairs(p, bf, e);
      forall a | 0 <= a < n
        ensures sumI[a] == RowSums(bf)[a]
      {
        PartialRowDone(bf, n, n + 1, a);
      }
      MatricesEqual(Forces(), bf);
      energy := energy * (4.0 * EPSILON_STAR);
    }

    /**
     * The compute loop of lennard_jones, from the reset state to the last
     * row, for any force matrix `bf` and energy matrix `e` that hold the
     * pair terms of `p` as RowReady describes.
     */
    method EvaluatePairs(p: seq<Particle>, ghost bf: seq<seq<Force>>, ghost e: seq<seq<real>>)
      requires |p| == n && IsSquare(e, n) && forall i {:trigger RowReady(p, i, bf, e[i])} | 0 <= i < n :: RowReady(p, i, bf, e[i])
      requires BareProgress(bf, 0, 1) && RowsSummed(bf, 0, 1)
      requires energy == 0.0 && sum == Zero
      modifies this`energy, this`sum, f, sumI
      ensures BareProgress(bf, n, n + 1) && RowsSummed(bf, n, n + 1)
      ensures sum == MatrixTotal(bf)
      ensures energy == UpperTotal(e)
    {
      var i := 0;
      while i < n
        modifies this`energy, this`sum, f, sumI
        invariant 0 <= i <= n
        invariant BareProgress(bf, i, i + 1) && RowsSummed(bf, i, i + 1)
        invariant sum == RowsTotal(bf, i)
        invariant energy == UpperPrefix(e, i)
      {
        EvaluateRow(p, i, bf, e[i]);
        i := i + 1;
      }
      RowsTotalComplete(bf);
      UpperPrefixComplete(e);
    }

    /**
     * Row i of the compute loop of lennard_jones: the pairs (i, j) for
     * j > i, then the zero written on the diagonal.  `bf` is the bare
     * force matrix and `e` row i of the pair energies.
     */
    method EvaluateRow(p: seq<Particle>, i: nat, ghost bf: seq<seq<Force>>, ghost e: seq<real>)
      requires BareProgress(bf, i, i + 1) && RowsSummed(bf, i, i + 1) && |p| == n && RowReady(p, i, bf, e)
      modifies this`energy, this`sum, f, sumI
      ensures BareProgress(bf, i + 1, i + 2) && RowsSummed(bf, i + 1, i + 2)
      ensures energy == old(energy) + SumRange(e, i + 1, n)
      ensures sum == Vec3(old(sum).x + VecSum(bf[i]).x, old(sum).y + VecSum(bf[i]).y, old(sum).z + VecSum(bf[i]).z)
    {
      var j := i + 1;
      while j < n
        modifies this`energy, f, sumI
        invariant i + 1 <= j <= n
        invariant BareProgress(bf, i, j) && RowsSummed(bf, i, j)
        invariant energy == old(energy) + SumRange(e, i + 1, j)
      {
        StorePair(p, i, j, bf, e[j]);
        j := j + 1;
      }
      FinishRow(i, bf);
    }

    /** The end of row i of the compute loop of lennard_jones: the zero written at (i, i), then sum_i[i] added to sum. */
    method FinishRow(i: nat, ghost bf: seq<seq<Force>>)
      requires BareProgress(bf, i, n) && RowsSummed(bf, i, n) && i < n && bf[i][i] == Zero
      modifies f, this`sum
      ensures BareProgress(bf, i + 1, i + 2) && RowsSummed(bf, i + 1, i + 2)
      ensures sum == Vec3(old(sum).x + VecSum(bf[i]).x, old(sum).y + VecSum(bf[i]).y, old(sum).z + VecSum(bf[i]).z)
    {
      f[i, i] := Zero;
      PartialDiagonal(bf, i);
      PartialRowDone(bf, i + 1, i + 2, i);
      sum := Vec3(sum.x + sumI[i].x, sum.y + sumI[i].y, sum.z + sumI[i].z);
    }

    /**
     * The body of the inner loop of lennard_jones for one pair i < j: the
     * pair energy is added, the force of j on i is written at (i, j) and
     * its negation at (j, i), and both go into sum_i.
     */
    method StorePair(p: seq<Particle>, i: nat, j: nat, ghost bf: seq<seq<Force>>, ghost u: real)
      requires BareProgress(bf, i, j) && RowsSummed(bf, i, j)
      requires |p| == n && i < j < n && Apart(p[i], p[j]) && u == PairEnergy(SquareDistance(p[i], p[j]))
      requires bf[i][j] == PairForce(p[i], p[j]) && bf[j][i] == Vec3(-bf[i][j].x, -bf[i][j].y, -bf[i][j].z)
      modifies this`energy, f, sumI
      ensures BareProgress(bf, i, j + 1) && RowsSummed(bf, i, j + 1)
      ensures f[i, j] == PairForce(p[i], p[j]) && f[j, i] == Vec3(-f[i, j].x, -f[i, j].y, -f[i, j].z)
      ensures forall a, b | 0 <= a < n && 0 <= b < n && !(a == i && b == j) && !(a == j && b == i) ::
        f[a, b] == old(f[a, b])
      ensures sumI[i] == Vec3(old(sumI[i]).x + f[i, j].x, old(sumI[i]).y + f[i, j].y, old(sumI[i]).z + f[i, j].z)
      ensures sumI[j] == Vec3(old(sumI[j]).x + f[j, i].x, old(sumI[j]).y + f[j, i].y, old(sumI[j]).z + f[j, i].z)
      ensures forall a | 0 <= a < n && a != i && a != j :: sumI[a] == old(sumI[a])
      ensures energy == old(energy) + u
    {
      var distance := SquareDistance(p[i], p[j]);
      var u := PairEnergy(distance);
      energy := energy + u;
      var du := PairCoefficient(distance);
      f[i, j] := Scale(du, Sub(p[i], p[j]));
      f[j, i] := Vec3(-f[i, j].x, -f[i, j].y, -f[i, j].z);
      sumI[i] := Vec3(sumI[i].x + f[i, j].x, sumI[i].y + f[i, j].y, sumI[i].z + f[i, j].z);
      sumI[j] := Vec3(sumI[j].x + f[j, i].x, sumI[j].y + f[j, i].y, sumI[j].z + f[j, i].z);
      PartialStep(bf, i, j);
    }

    /**
     * periodical_lennard_jones: every ordered pair i != j against the
     * images of j under the first nT translations, skipping images beyond
     * the cutoff; then the row sums and their total, then the energy
     * scaled by 2 EPSILON_STAR.
     */
    method EvaluatePeriodic(p: seq<Particle>, tv: seq<TranslationVector>, rCut: real, nT: nat)
      requires Valid() && |p| == n && nT <= |tv| && ImagesSeparated(p, tv[..nT], rCut)
      modifies this, f, sumI
      ensures Valid()
      ensures Forces() == PeriodicForces(p, tv[..nT], rCut)
      ensures sumI[..] == RowSums(PeriodicForces(p, tv[..nT], rCut))
      ensures sum == MatrixTotal(PeriodicForces(p, tv[..nT], rCut))
      ensures energy == PeriodicEnergy(p, tv[..nT], rCut)
    {
      Reset();
      var e := AccumulateImages(f, p, tv[..nT], rCut);
      energy := energy + e;
      SumRows(PeriodicForces(p, tv[..nT], rCut));
      MatricesEqual(Forces(), PeriodicForces(p, tv[..nT], rCut));
      energy := energy * (2.0 * EPSILON_STAR);
    }

    /** The summation loops of periodical_lennard_jones: sum_i[i] gets row i of f, sum gets every sum_i[i]. */
    method SumRows(ghost m: seq<seq<Force>>)
      requires Valid() && IsSquare(m, n)
      requires forall a, b | 0 <= a < n && 0 <= b < n :: f[a, b] == m[a][b]
      requires forall a | 0 <= a < n :: sumI[a] == Zero
      requires sum == Zero
      modifies this`sum, sumI
      ensures sumI[..] == RowSums(m)
      ensures sum == MatrixTotal(m)
    {
      ghost var rowTotals := RowSums(m);
      var i := 0;
      while i < n
        modifies this`sum, sumI
        invariant 0 <= i <= n
        invariant forall a | 0 <= a < i :: sumI[a] == VecSum(m[a])
        invariant forall a | i <= a < n :: sumI[a] == Zero
        invariant sum == VecSum(rowTotals[..i])
      {
        SumRow(f, sumI, i, m[i]);
        VecSumPrefixStep(rowTotals, i);
        sum := Vec3(sum.x + sumI[i].x, sum.y + sumI[i].y, sum.z + sumI[i].z);
        i := i + 1;
      }
      assert rowTotals[..n] == rowTotals;
    }
  }

  /** One row of the summation loops of periodical_lennard_jones: sum_i[i] accumulates row i of f. */
  method SumRow(f: array2<Force>, sumI: array<Force>, i: nat, ghost row: seq<Force>)
    requires i < f.Length0 && i < sumI.Length && |row| == f.Length1
    requires forall b | 0 <= b < f.Length1 :: f[i, b] == row[b]
    requires sumI[i] == Zero
    modifies sumI
    ensures sumI[i] == VecSum(row)
    ensures forall a | 0 <= a < sumI.Length && a != i :: sumI[a] == old(sumI[a])
  {
    var j := 0;
    while j < f.Length1
      invariant 0 <= j <= f.Length1
      invariant sumI[i] == VecSum(row[..j])
      invariant forall a | 0 <= a < sumI.Length && a != i :: sumI[a] == old(sumI[a])
    {
      VecSumPrefixStep(row, j);
      sumI[i] := Vec3(sumI[i].x + f[i, j].x, sumI[i].y + f[i, j].y, sumI[i].z + f[i, j].z);
      j := j + 1;
    }
    assert row[..j] == row;
  }

  /**
   * The accumulation loops of periodical_lennard_jones (also those of the
   * older allocate-and-return version): starting from a zero matrix, add
   * the force of every admitted image to f[i][j] and return the sum of the
   * admitted pair energies.
   */
  method AccumulateImages(f: array2<Force>, p: seq<Particle>, tvs: seq<TranslationVector>, rCut: real)
    returns (e: real)
    requires f.Length0 == |p| && f.Length1 == |p|
    requires ImagesSeparated(p, tvs, rCut)
    requires forall a, b | 0 <= a < |p| && 0 <= b < |p| :: f[a, b] == Zero
    modifies f
    ensures forall a, b | 0 <= a < |p| && 0 <= b < |p| :: f[a, b] == PeriodicForces(p, tvs, rCut)[a][b]
    ensures e * (2.0 * EPSILON_STAR) == PeriodicEnergy(p, tvs, rCut)
  {
    e := 0.0;
    var k := 0;
    while k < |tvs|
      invariant k <= |tvs| && ImagesProgress(f, p, tvs, rCut, k, 0, 0)
      invariant e == ShellsEnergy(p, tvs, rCut, k)
    {
      var u := AccumulateShell(f, p, tvs, rCut, k);
      e := e + u;
      k := k + 1;
    }
    forall a, b | 0 <= a < |p| && 0 <= b < |p|
      ensures f[a, b] == PeriodicForces(p, tvs, rCut)[a][b]
    {
      assert f[a, b] == ImageSum(p, tvs, rCut, a, b, |tvs|);
      ImageSumComplete(p, tvs, rCut, a, b);
    }
    ShellsEnergyComplete(p, tvs, rCut);
  }

  /** One pass of the k loop: every ordered pair against translation k. */
  method AccumulateShell(f: array2<Force>, p: seq<Particle>, tvs: seq<TranslationVector>, rCut: real, k: nat)
    returns (e: real)
    requires k < |tvs| && ImagesProgress(f, p, tvs, rCut, k, 0, 0)
    modifies f
    ensures ImagesProgress(f, p, tvs, rCut, k + 1, 0, 0)
    ensures e == ShellRowsEnergy(p, tvs, rCut, k, |p|)
  {
    e := 0.0;
    var i := 0;
    while i < |p|
      invariant i <= |p| && ImagesProgress(f, p, tvs, rCut, k, i, 0)
      invariant e == ShellRowsEnergy(p, tvs, rCut, k, i)
    {
      var u := AccumulateRow(f, p, tvs, rCut, k, i);
      e := e + u;
      i := i + 1;
    }
  }

  /** One pass of the i loop: particle i against translation k of every particle. */
  method AccumulateRow(f: array2<Force>, p: seq<Particle>, tvs: seq<TranslationVector>, rCut: real, k: nat, i: nat)
    returns (e: real)
    requires k < |tvs| && i < |p| && ImagesProgress(f, p, tvs, rCut, k, i, 0)
    modifies f
    ensures ImagesProgress(f, p, tvs, rCut, k, i + 1, 0)
    ensures e == PairsEnergy(p, tvs, rCut, k, i, |p|)
  {
    e := 0.0;
    var j := 0;
    while j < |p|
      invariant j <= |p| && ImagesProgress(f, p, tvs, rCut, k, i, j)
      invariant e == PairsEnergy(p, tvs, rCut, k, i, j)
    {
      ghost var before := f[i, j];
      var u := AccumulateImage(f, p, tvs, rCut, k, i, j);
      assert f[i, j] == ImageSum(p, tvs, rCut, i, j, k + 1) by {
        assert before == ImageSum(p, tvs, rCut, i, j, k);
      }
      e := e + u;
      j := j + 1;
    }
  }

  /**
   * The body of the loops: the image of particle j under translation k acts
   * on particle i unless i == j or it lies beyond the cutoff; then its pair
   * energy is returned and its force added to f[i][j].
   */
  method AccumulateImage(f: array2<Force>, p: seq<Particle>, tvs: seq<TranslationVector>, rCut: real, k: nat, i: nat, j: nat)
    returns (u: real)
    requires ImagesSeparated(p, tvs, rCut) && k < |tvs| && i < |p| && j < |p|
    requires f.Length0 == |p| && f.Length1 == |p|
    modifies f
    ensures f[i, j] == Vec3(old(f[i, j]).x + ImageForce(p, tvs, rCut, k, i, j).x,
                            old(f[i, j]).y + ImageForce(p, tvs, rCut, k, i, j).y,
                            old(f[i, j]).z + ImageForce(p, tvs, rCut, k, i, j).z)
    ensures forall a, b | 0 <= a < |p| && 0 <= b < |p| && (a != i || b != j) :: f[a, b] == old(f[a, b])
    ensures u == ImageEnergy(p, tvs, rCut, k, i, j)
  {
    u := 0.0;
    if i == j {
      return;
    }
    var tmp := Add(p[j], tvs[k]);
    var distance := SquareDistance(p[i], tmp);
    if distance > Square(rCut) {
      return;
    }
    assert InRange(p[i], Add(p[j], tvs[k]), rCut);
    u := PairEnergy(distance);
    var du := PairCoefficient(distance);
    var df := Scale(du, Sub(p[i], tmp));
    f[i, j] := Vec3(f[i, j].x + df.x, f[i, j].y + df.y, f[i, j].z + df.z);
  }

  // ---------------------------------------------------------------------
  // Progress of the periodic loops

  /** Entry (a, b) has received translation k once the periodic loops stand at row i, column j. */
  predicate ImageAdded(i: nat, j: nat, a: nat, b: nat) {
    a < i || (a == i && b < j)
  }

  /** f holds, in every entry, the images added so far by the periodic loops standing at (k, i, j). */
  ghost predicate ImagesProgress(f: array2<Force>, ps: seq<Particle>, tvs: seq<TranslationVector>, rCut: real, k: nat, i: nat, j: nat)
    reads f
  {
    ImagesSeparated(ps, tvs, rCut) && f.Length0 == |ps| && f.Length1 == |ps| &&
    (k < |tvs| || (k == |tvs| && i == 0 && j == 0)) &&
    forall a, b {:trigger f[a, b]} | 0 <= a < |ps| && 0 <= b < |ps| ::
      f[a, b] == ImageSum(ps, tvs, rCut, a, b, if ImageAdded(i, j, a, b) then k + 1 else k)
  }

  // ---------------------------------------------------------------------
  // Progress of the bare loops

  /** Entry (a, b) has been written once the bare loops stand at row i, column j. */
  predicate Written(i: nat, j: nat, a: nat, b: nat) {
    a < i || b < i || (a == i && i < b < j) || (b == i && i < a < j)
  }

  /** Row i of `bf` and the row `e` of pair energies hold the pair terms of `ps` above the diagonal, mirrored with negation below it. */
  ghost predicate RowReady(ps: seq<Particle>, i: nat, bf: seq<seq<Force>>, e: seq<real>) {
    i < |ps| && IsSquare(bf, |ps|) && |e| == |ps| &&
    (forall j {:trigger Apart(ps[i], ps[j])} | i < j < |ps| :: Apart(ps[i], ps[j])) &&
    (forall j {:trigger SquareDistance(ps[i], ps[j])} | i < j < |ps| ::
      Apart(ps[i], ps[j]) && e[j] == PairEnergy(SquareDistance(ps[i], ps[j]))) &&
    (forall j {:trigger PairForce(ps[i], ps[j])} | i < j < |ps| ::
      Apart(ps[i], ps[j]) && bf[i][j] == PairForce(ps[i], ps[j]) && bf[j][i] == Vec3(-bf[i][j].x, -bf[i][j].y, -bf[i][j].z)) &&
    bf[i][i] == Zero
  }

  /** The bare force matrix and the pair energies are ready for every row of the bare loops. */
  lemma BareRows(ps: seq<Particle>, bf: seq<seq<Force>>, e: seq<seq<real>>)
    requires Separated(ps) && bf == BareForces(ps) && e == PairEnergies(ps)
    ensures IsSquare(e, |ps|)
    ensures forall i {:trigger RowReady(ps, i, bf, e[i])} | 0 <= i < |ps| :: RowReady(ps, i, bf, e[i])
  {
  }

  /** Entry (a, b) of `t` if the bare loops (at row i, column j) have written it, zero otherwise. */
  ghost function Entry(t: seq<seq<Force>>, i: nat, j: nat, a: nat, b: nat): Force
    requires IsSquare(t, |t|) && a < |t| && b < |t|
  {
    if Written(i, j, a, b) then t[a][b] else Zero
  }

  /** The sum of the first m written entries of row a: what sum_i[a] holds at row i, column j. */
  ghost function PartialSum(t: seq<seq<Force>>, i: nat, j: nat, a: nat, m: nat): Force
    requires IsSquare(t, |t|) && a < |t| && m <= |t|
  {
    if m == 0 then Zero
    else
      var r, v := PartialSum(t, i, j, a, m - 1), Entry(t, i, j, a, m - 1);
      Vec3(r.x + v.x, r.y + v.y, r.z + v.z)
  }

  /** Two stages that agree on the first m entries of row a have the same partial sum there. */
  lemma {:induction false} PartialSumAgree(t: seq<seq<Force>>, i: nat, j: nat, i2: nat, j2: nat, a: nat, m: nat)
    requires IsSquare(t, |t|) && a < |t| && m <= |t|
    requires forall b | 0 <= b < m :: Entry(t, i, j, a, b) == Entry(t, i2, j2, a, b)
    ensures PartialSum(t, i, j, a, m) == PartialSum(t, i2, j2, a, m)
  {
    if m > 0 {
      PartialSumAgree(t, i, j, i2, j2, a, m - 1);
    }
  }

  /** A stage that writes one more entry c of row a, over a zero, adds t[a][c] to the partial sum. */
  lemma {:induction false} PartialSumAdd(t: seq<seq<Force>>, i: nat, j: nat, i2: nat, j2: nat, a: nat, c: nat, m: nat)
    requires IsSquare(t, |t|) && a < |t| && c < m <= |t|
    requires forall b | 0 <= b < m && b != c :: Entry(t, i, j, a, b) == Entry(t, i2, j2, a, b)
    requires Entry(t, i, j, a, c) == Zero && Entry(t, i2, j2, a, c) == t[a][c]
    ensures PartialSum(t, i2, j2, a, m) ==
      Vec3(PartialSum(t, i, j, a, m).x + t[a][c].x, PartialSum(t, i, j, a, m).y + t[a][c].y, PartialSum(t, i, j, a, m).z + t[a][c].z)
  {
    if c == m - 1 {
      PartialSumAgree(t, i, j, i2, j2, a, m - 1);
    } else {
      PartialSumAdd(t, i, j, i2, j2, a, c, m - 1);
    }
  }

  /** When the first m entries of row a are all written, the partial sum is the sum of that prefix. */
  lemma {:induction false} PartialSumWritten(t: seq<seq<Force>>, i: nat, j: nat, a: nat, m: nat)
    requires IsSquare(t, |t|) && a < |t| && m <= |t|
    requires forall b | 0 <= b < m :: Written(i, j, a, b)
    ensures PartialSum(t, i, j, a, m) == VecSum(t[a][..m])
  {
    if m > 0 {
      PartialSumWritten(t, i, j, a, m - 1);
      VecSumPrefixStep(t[a], m - 1);
    }
  }

  /** When none of the first m entries of row a is written, the partial sum is zero. */
  lemma {:induction false} PartialSumUnwritten(t: seq<seq<Force>>, i: nat, j: nat, a: nat, m: nat)
    requires IsSquare(t, |t|) && a < |t| && m <= |t|
    requires forall b | 0 <= b < m :: !Written(i, j, a, b)
    ensures PartialSum(t, i, j, a, m) == Zero
  {
    if m > 0 {
      PartialSumUnwritten(t, i, j, a, m - 1);
    }
  }

  /** Before the first pair nothing is written: every partial sum is zero. */
  lemma PartialStart(t: seq<seq<Force>>)
    requires IsSquare(t, |t|)
    ensures forall a | 0 <= a < |t| :: PartialSum(t, 0, 1, a, |t|) == Zero
  {
    forall a | 0 <= a < |t|
      ensures PartialSum(t, 0, 1, a, |t|) == Zero
    {
      PartialSumUnwritten(t, 0, 1, a, |t|);
    }
  }

  /** Writing pair (i, j) adds t[i][j] to the partial sum of row i and t[j][i] to that of row j, and nothing else. */
  lemma PartialStep(t: seq<seq<Force>>, i: nat, j: nat)
    requires IsSquare(t, |t|) && i < j < |t|
    ensures forall a | 0 <= a < |t| && a != i && a != j :: PartialSum(t, i, j + 1, a, |t|) == PartialSum(t, i, j, a, |t|)
    ensures PartialSum(t, i, j + 1, i, |t|) ==
      Vec3(PartialSum(t, i, j, i, |t|).x + t[i][j].x, PartialSum(t, i, j, i, |t|).y + t[i][j].y, PartialSum(t, i, j, i, |t|).z + t[i][j].z)
    ensures PartialSum(t, i, j + 1, j, |t|) ==
      Vec3(PartialSum(t, i, j, j, |t|).x + t[j][i].x, PartialSum(t, i, j, j, |t|).y + t[j][i].y, PartialSum(t, i, j, j, |t|).z + t[j][i].z)
  {
    var n := |t|;
    forall a | 0 <= a < n && a != i && a != j
      ensures PartialSum(t, i, j + 1, a, n) == PartialSum(t, i, j, a, n)
    {
      PartialSumAgree(t, i, j + 1, i, j, a, n);
    }
    PartialSumAdd(t, i, j, i, j + 1, i, j, n);
    PartialSumAdd(t, i, j, i, j + 1, j, i, n);
  }

  /** Once row i is done and its diagonal zero written, the loops stand at row i + 1. */
  lemma PartialDiagonal(t: seq<seq<Force>>, i: nat)
    requires IsSquare(t, |t|) && i < |t| && t[i][i] == Zero
    ensures forall a | 0 <= a < |t| :: PartialSum(t, i + 1, i + 2, a, |t|) == PartialSum(t, i, |t|, a, |t|)
  {
    forall a | 0 <= a < |t|
      ensures PartialSum(t, i + 1, i + 2, a, |t|) == PartialSum(t, i, |t|, a, |t|)
    {
      PartialSumAgree(t, i + 1, i + 2, i, |t|, a, |t|);
    }
  }

  /** Row a is complete once the loops have passed it: its partial sum is its row sum. */
  lemma PartialRowDone(t: seq<seq<Force>>, i: nat, j: nat, a: nat)
    requires IsSquare(t, |t|) && a < i && a < |t|
    ensures PartialSum(t, i, j, a, |t|) == VecSum(t[a])
  {
    PartialSumWritten(t, i, j, a, |t|);
    assert t[a][..|t|] == t[a];
  }

  /** A sequence equal to row i of a matrix sums to that row's total. */
  lemma RowTotal(m: seq<seq<Force>>, i: nat, row: seq<Force>)
    requires i < |m| && |row| == |m[i]|
    requires forall b | 0 <= b < |row| :: row[b] == m[i][b]
    ensures VecSum(row) == RowSums(m)[i]
  {
    assert row == m[i];
  }
}
