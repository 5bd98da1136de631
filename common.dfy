/**
 * Shared numerical helpers (common.c): the squared distance between two
 * particles, the generator of the 27 periodic-image offsets, and the
 * total-force diagnostic.
 */
module Common {
  import opened Helper
  import opened Sums

  /** compute_square_distance_3D: squared Euclidean distance; it vanishes between equal positions. */
  function SquareDistance(a: Particle, b: Particle): (d: real)
    ensures d >= 0.0
    ensures a == b ==> d == 0.0
  {
    SquareNonNegative(a.x - b.x);
    SquareNonNegative(a.y - b.y);
    SquareNonNegative(a.z - b.z);
    Square(a.x - b.x) + Square(a.y - b.y) + Square(a.z - b.z)
  }

  /** The squared distance does not depend on the order of its arguments. */
  lemma SquareDistanceSymmetric(a: Particle, b: Particle)
    ensures SquareDistance(a, b) == SquareDistance(b, a)
  {
    assert Square(a.x - b.x) == Square(b.x - a.x);
    assert Square(a.y - b.y) == Square(b.y - a.y);
    assert Square(a.z - b.z) == Square(b.z - a.z);
  }

  // ---------------------------------------------------------------------
  // Translation vectors

  /** Offset number i: index i read as the base-3 digits (i/9, (i/3)%3, i%3), each shifted by -1, times L. */
  function TranslationVector(i: nat): TranslationVector {
    Vec3(((i / 9) - 1) as real * L, (((i / 3) % 3) - 1) as real * L, ((i % 3) - 1) as real * L)
  }

  /** init_translation_vectors: a fresh array whose entry i is offset number i. */
  method InitTranslationVectors(n: nat) returns (tv: array<TranslationVector>)
    ensures fresh(tv) && tv.Length == n
    ensures tv[..] == seq(n, i requires 0 <= i < n => TranslationVector(i))
  {
    tv := new TranslationVector[n];
    var i := 0;
    while i < n
      invariant 0 <= i <= n
      invariant forall k | 0 <= k < i :: tv[k] == TranslationVector(k)
    {
      tv[i] := Vec3(((i / 9) - 1) as real * L, (((i / 3) % 3) - 1) as real * L, ((i % 3) - 1) as real * L);
      i := i + 1;
    }
  }

  /** The 27 offsets of the first shell of images: every triple over {-L, 0, L}. */
  function CubeOffsets(): set<TranslationVector> {
    set a, b, c | a in {-L, 0.0, L} && b in {-L, 0.0, L} && c in {-L, 0.0, L} :: Vec3(a, b, c)
  }

  /** The offsets produced for indices 0 .. n-1. */
  function GeneratedOffsets(n: nat): set<TranslationVector> {
    set i | 0 <= i < n :: TranslationVector(i)
  }

  /** The base-3 digit that an offset component of {-L, 0, L} stands for. */
  function Digit(a: real): (d: int)
    requires a in {-L, 0.0, L}
    ensures 0 <= d <= 2 && (d - 1) as real * L == a
  {
    if a == -L then 0 else if a == 0.0 then 1 else 2
  }

  /** Offset number 9a + 3b + c has the digits a, b and c. */
  lemma TranslationVectorDigits(a: int, b: int, c: int)
    requires 0 <= a <= 2 && 0 <= b <= 2 && 0 <= c <= 2
    ensures TranslationVector(9 * a + 3 * b + c) == Vec3((a - 1) as real * L, (b - 1) as real * L, (c - 1) as real * L)
  {
    var i := 9 * a + 3 * b + c;
    assert i / 9 == a;
    assert i / 3 == 3 * a + b;
    assert (i / 3) % 3 == b;
    assert i % 3 == c;
  }

  /** Distinct indices below 27 give distinct offsets. */
  lemma TranslationVectorsDistinct(i: nat, j: nat)
    requires i < 27 && j < 27 && i != j
    ensures TranslationVector(i) != TranslationVector(j)
  {
    assert i == 9 * (i / 9) + 3 * ((i / 3) % 3) + i % 3;
    assert j == 9 * (j / 9) + 3 * ((j / 3) % 3) + j % 3;
  }

  /** Only the middle index, 13, gives the zero offset. */
  lemma ZeroOffsetAtCentre(i: nat)
    requires i < 27
    ensures TranslationVector(i) == Zero <==> i == 13
  {
    TranslationVectorDigits(1, 1, 1);
    if i != 13 {
      TranslationVectorsDistinct(i, 13);
    }
  }

  lemma CubeOffsetGenerated(v: TranslationVector)
    requires v in CubeOffsets()
    ensures v in GeneratedOffsets(27)
  {
    TranslationVectorDigits(Digit(v.x), Digit(v.y), Digit(v.z));
    assert v == TranslationVector(9 * Digit(v.x) + 3 * Digit(v.y) + Digit(v.z));
  }

  lemma GeneratedOffsetInCube(i: nat)
    requires i < 27
    ensures TranslationVector(i) in CubeOffsets()
  {
    var v := TranslationVector(i);
    assert 0 <= i / 9 <= 2;
    assert v.x in {-L, 0.0, L} && v.y in {-L, 0.0, L} && v.z in {-L, 0.0, L};
  }

  /** The 27 generated offsets are exactly the first shell, and there are 27 of them. */
  lemma GeneratedOffsetsAreCube()
    ensures GeneratedOffsets(N_SYM) == CubeOffsets()
    ensures |GeneratedOffsets(N_SYM)| == 27
  {
    forall v | v in CubeOffsets()
      ensures v in GeneratedOffsets(27)
    {
      CubeOffsetGenerated(v);
    }
    forall v | v in GeneratedOffsets(27)
      ensures v in CubeOffsets()
    {
      var i :| 0 <= i < 27 && v == TranslationVector(i);
      GeneratedOffsetInCube(i);
    }
    GeneratedOffsetsCount(27);
  }

  lemma {:induction false} GeneratedOffsetsCount(n: nat)
    requires n <= 27
    ensures |GeneratedOffsets(n)| == n
  {
    if n > 0 {
      GeneratedOffsetsCount(n - 1);
      assert GeneratedOffsets(n) == GeneratedOffsets(n - 1) + {TranslationVector(n - 1)};
      forall k | 0 <= k < n - 1
        ensures TranslationVector(k) != TranslationVector(n - 1)
      {
        TranslationVectorsDistinct(k, n - 1);
      }
      assert TranslationVector(n - 1) !in GeneratedOffsets(n - 1);
    }
  }

  // ---------------------------------------------------------------------
  // Force-sum diagnostic

  /** Some component of `v` has absolute value above `tolerance`. */
  predicate Exceeds(v: Vec3, tolerance: real) {
    AbsDouble(v.x) > tolerance || AbsDouble(v.y) > tolerance || AbsDouble(v.z) > tolerance
  }

  /**
   * check_forces: sums every entry of the force matrix (row by row) and
   * reports 1 when the total exceeds the tolerance in some component.
   * The matrix is only read.
   */
  method CheckForces(f: array2<Force>, tolerance: real) returns (error: nat)
    ensures error == 1 <==> Exceeds(MatrixTotal(Rows(f)), tolerance)
    ensures error == 0 <==> !Exceeds(MatrixTotal(Rows(f)), tolerance)
  {
    error := 0;
    var sum := Zero;
    ghost var rowTotals := RowSums(Rows(f));
    var i := 0;
    while i < f.Length0
      invariant 0 <= i <= f.Length0
      invariant sum == VecSum(rowTotals[..i])
    {
      var sumI := Zero;
      var j := 0;
      while j < f.Length1
        invariant 0 <= j <= f.Length1
        invariant sumI == VecSum(Row(f, i)[..j])
      {
        VecSumPrefixStep(Row(f, i), j);
        sumI := Add(sumI, f[i, j]);
        j := j + 1;
      }
      assert Row(f, i)[..j] == Row(f, i);
      VecSumPrefixStep(rowTotals, i);
      sum := Add(sum, sumI);
      i := i + 1;
    }
    assert rowTotals[..i] == rowTotals;
    var absSum := Vec3(AbsDouble(sum.x), AbsDouble(sum.y), AbsDouble(sum.z));
    if absSum.x > tolerance || absSum.y > tolerance || absSum.z > tolerance {
      error := 1;
    }
  }
}
