/**
 * Finite sums in index order, the way the C loops accumulate them
 * (`acc += s[k]` for k = 0, 1, ...), and the algebra about them that the
 * force-field and momentum proofs rely on.
 */
module Sums {
  import opened Helper

  /** s[0] + s[1] + ... + s[|s|-1], accumulated from the left. */
  function Sum(s: seq<real>): real {
    if s == [] then 0.0 else Sum(s[..|s| - 1]) + s[|s| - 1]
  }

  /** Component-wise sum of a sequence of vectors, accumulated from the left. */
  function VecSum(s: seq<Vec3>): Vec3 {
    if s == [] then Zero
    else
      var r, v := VecSum(s[..|s| - 1]), s[|s| - 1];
      Vec3(r.x + v.x, r.y + v.y, r.z + v.z)
  }

  /** One more loop iteration adds one more term. */
  lemma SumPrefixStep(s: seq<real>, k: nat)
    requires k < |s|
    ensures Sum(s[..k + 1]) == Sum(s[..k]) + s[k]
  {
    assert s[..k + 1][..k] == s[..k];
  }

  lemma VecSumPrefixStep(s: seq<Vec3>, k: nat)
    requires k < |s|
    ensures VecSum(s[..k + 1]) == Vec3(VecSum(s[..k]).x + s[k].x, VecSum(s[..k]).y + s[k].y, VecSum(s[..k]).z + s[k].z)
  {
    assert s[..k + 1][..k] == s[..k];
  }

  /** s[lo] + ... + s[hi - 1], accumulated from the left without slicing. */
  function SumRange(s: seq<real>, lo: nat, hi: nat): real
    requires lo <= hi <= |s|
    decreases hi - lo
  {
    if hi == lo then 0.0 else SumRange(s, lo, hi - 1) + s[hi - 1]
  }

  /** Sequences that agree on [lo, hi) have the same range sum there. */
  lemma {:induction false} SumRangeAgree(a: seq<real>, b: seq<real>, lo: nat, hi: nat)
    requires lo <= hi <= |a| && hi <= |b|
    requires forall k | lo <= k < hi :: a[k] == b[k]
    ensures SumRange(a, lo, hi) == SumRange(b, lo, hi)
    decreases hi - lo
  {
    if hi > lo {
      SumRangeAgree(a, b, lo, hi - 1);
    }
  }

  /** Sums of non-negative terms are non-negative. */
  lemma {:induction false} SumNonNegative(s: seq<real>)
    requires forall k | 0 <= k < |s| :: s[k] >= 0.0
    ensures Sum(s) >= 0.0
  {
    if s != [] {
      SumNonNegative(s[..|s| - 1]);
    }
  }

  /** Pointwise sums commute with summation. */
  lemma {:induction false} SumPointwiseAdd(a: seq<real>, b: seq<real>, c: seq<real>)
    requires |a| == |b| == |c|
    requires forall k | 0 <= k < |c| :: c[k] == a[k] + b[k]
    ensures Sum(c) == Sum(a) + Sum(b)
  {
    if c != [] {
      var n := |c| - 1;
      SumPointwiseAdd(a[..n], b[..n], c[..n]);
    }
  }

  /** A common factor can be taken out of a sum. */
  lemma {:induction false} SumScaled(a: seq<real>, b: seq<real>, c: real)
    requires |a| == |b|
    requires forall k | 0 <= k < |b| :: b[k] == c * a[k]
    ensures Sum(b) == c * Sum(a)
  {
    if b != [] {
      var n := |b| - 1;
      SumScaled(a[..n], b[..n], c);
    }
  }

  lemma {:induction false} VecSumPointwiseAdd(a: seq<Vec3>, b: seq<Vec3>, c: seq<Vec3>)
    requires |a| == |b| == |c|
    requires forall k | 0 <= k < |c| :: c[k] == Add(a[k], b[k])
    ensures VecSum(c) == Add(VecSum(a), VecSum(b))
  {
    if c != [] {
      var n := |c| - 1;
      VecSumPointwiseAdd(a[..n], b[..n], c[..n]);
    }
  }

  lemma {:induction false} VecSumNegated(a: seq<Vec3>, b: seq<Vec3>)
    requires |a| == |b|
    requires forall k | 0 <= k < |b| :: Opposite(b[k], a[k])
    ensures Opposite(VecSum(b), VecSum(a))
  {
    if b != [] {
      var n := |b| - 1;
      VecSumNegated(a[..n], b[..n]);
    }
  }

  lemma DistributeScale(c: real, u: Vec3, v: Vec3)
    ensures Add(Scale(c, u), Scale(c, v)) == Scale(c, Add(u, v))
  {
    assert c * u.x + c * v.x == c * (u.x + v.x);
    assert c * u.y + c * v.y == c * (u.y + v.y);
    assert c * u.z + c * v.z == c * (u.z + v.z);
  }

  lemma ShiftOnce(u: Vec3, v: Vec3, c: Vec3, k: real)
    ensures Add(Sub(u, Scale(k, c)), Sub(v, c)) == Sub(Add(u, v), Scale(k + 1.0, c))
  {
    assert (k + 1.0) * c.x == k * c.x + c.x;
    assert (k + 1.0) * c.y == k * c.y + c.y;
    assert (k + 1.0) * c.z == k * c.z + c.z;
  }

  lemma {:induction false} VecSumScaled(a: seq<Vec3>, b: seq<Vec3>, c: real)
    requires |a| == |b|
    requires forall k | 0 <= k < |b| :: b[k] == Scale(c, a[k])
    ensures VecSum(b) == Scale(c, VecSum(a))
  {
    if b != [] {
      var n := |b| - 1;
      VecSumScaled(a[..n], b[..n], c);
      var u, v := VecSum(a[..n]), a[n];
      assert VecSum(a) == Add(u, v);
      assert VecSum(b) == Add(Scale(c, u), Scale(c, v));
      DistributeScale(c, u, v);
    }
  }

  /** Subtracting the same vector from every term subtracts it |a| times from the sum. */
  lemma {:induction false} VecSumShifted(a: seq<Vec3>, b: seq<Vec3>, c: Vec3)
    requires |a| == |b|
    requires forall k | 0 <= k < |b| :: b[k] == Sub(a[k], c)
    ensures VecSum(b) == Sub(VecSum(a), Scale(|a| as real, c))
  {
    if b != [] {
      var n := |b| - 1;
      VecSumShifted(a[..n], b[..n], c);
      var u, v := VecSum(a[..n]), a[n];
      assert VecSum(a) == Add(u, v);
      assert VecSum(b) == Add(Sub(u, Scale(n as real, c)), Sub(v, c));
      ShiftOnce(u, v, c, n as real);
    }
  }

  /** Writing `v` over a zero entry adds `v` to the sum. */
  lemma {:induction false} VecSumUpdateZero(s: seq<Vec3>, k: nat, v: Vec3)
    requires k < |s| && s[k] == Zero
    ensures VecSum(s[k := v]) == Vec3(VecSum(s).x + v.x, VecSum(s).y + v.y, VecSum(s).z + v.z)
  {
    var t := s[k := v];
    var n := |s|;
    if k == n - 1 {
      assert t[..n - 1] == s[..n - 1];
    } else {
      VecSumUpdateZero(s[..n - 1], k, v);
      assert t[..n - 1] == s[..n - 1][k := v];
    }
  }

  lemma VecSumEqual(a: seq<Vec3>, b: seq<Vec3>)
    requires |a| == |b|
    requires forall k | 0 <= k < |a| :: a[k] == b[k]
    ensures VecSum(a) == VecSum(b)
  {
    assert a == b;
  }

  // ---------------------------------------------------------------------
  // Square matrices of vectors (force matrices)

  ghost predicate IsSquare<T>(m: seq<seq<T>>, n: nat) {
    |m| == n && forall i | 0 <= i < n :: |m[i]| == n
  }

  /** Row sums: the net force on each particle. */
  function RowSums(m: seq<seq<Vec3>>): (r: seq<Vec3>)
    ensures |r| == |m|
    ensures forall i | 0 <= i < |m| :: r[i] == VecSum(m[i])
  {
    seq(|m|, i requires 0 <= i < |m| => VecSum(m[i]))
  }

  /** Sum of all entries, row sums first: the total force on the system. */
  function MatrixTotal(m: seq<seq<Vec3>>): Vec3 {
    VecSum(RowSums(m))
  }

  /** The sum of the first k row sums, as the outer loop of the bare evaluator accumulates it. */
  ghost function RowsTotal(m: seq<seq<Vec3>>, k: nat): Vec3
    requires k <= |m|
  {
    if k == 0 then Zero
    else
      var r, v := RowsTotal(m, k - 1), VecSum(m[k - 1]);
      Vec3(r.x + v.x, r.y + v.y, r.z + v.z)
  }

  /** Once every row is added, the running total is the matrix total. */
  lemma RowsTotalComplete(m: seq<seq<Vec3>>)
    ensures RowsTotal(m, |m|) == MatrixTotal(m)
  {
    RowsTotalIsPrefix(m, |m|);
    assert RowSums(m)[..|m|] == RowSums(m);
  }

  lemma {:induction false} RowsTotalIsPrefix(m: seq<seq<Vec3>>, k: nat)
    requires k <= |m|
    ensures RowsTotal(m, k) == VecSum(RowSums(m)[..k])
  {
    if k > 0 {
      RowsTotalIsPrefix(m, k - 1);
      VecSumPrefixStep(RowSums(m), k - 1);
    }
  }

  /** `m[j][i] == -m[i][j]` for every pair of indices (so the diagonal is zero). */
  ghost predicate Antisymmetric(m: seq<seq<Vec3>>) {
    IsSquare(m, |m|) &&
    forall i, j | 0 <= i < |m| && 0 <= j < |m| :: Opposite(m[j][i], m[i][j])
  }

  /** The leading (n-1) x (n-1) block of a square matrix. */
  function Leading<T>(m: seq<seq<T>>): (p: seq<seq<T>>)
    requires IsSquare(m, |m|) && |m| > 0
    ensures IsSquare(p, |m| - 1)
    ensures forall i, j | 0 <= i < |m| - 1 && 0 <= j < |m| - 1 :: p[i][j] == m[i][j]
  {
    seq(|m| - 1, i requires 0 <= i < |m| - 1 => m[i][..|m| - 1])
  }

  /** Dropping the last row of the row sums and the last column of each row. */
  lemma {:induction false} RowSumsOfLeading(m: seq<seq<Vec3>>, i: nat)
    requires IsSquare(m, |m|) && 0 <= i < |m| - 1
    ensures VecSum(m[i]) == Add(VecSum(m[i][..|m| - 1]), m[i][|m| - 1])
  {
    assert |m[i]| == |m|;
  }

  lemma LeadingAntisymmetric(m: seq<seq<Vec3>>)
    requires Antisymmetric(m) && |m| > 0
    ensures Antisymmetric(Leading(m))
  {
  }

  /** The last column of a square matrix, without its diagonal entry. */
  function LastColumn<T>(m: seq<seq<T>>): (col: seq<T>)
    requires IsSquare(m, |m|) && |m| > 0
    ensures |col| == |m| - 1
    ensures forall i | 0 <= i < |m| - 1 :: col[i] == m[i][|m| - 1]
  {
    seq(|m| - 1, i requires 0 <= i < |m| - 1 => m[i][|m| - 1])
  }

  /** The first n-1 row sums are those of the leading block plus the last column. */
  lemma LeadingRowsTotal(m: seq<seq<Vec3>>)
    requires IsSquare(m, |m|) && |m| > 0
    ensures VecSum(RowSums(m)[..|m| - 1]) == Add(MatrixTotal(Leading(m)), VecSum(LastColumn(m)))
  {
    var n := |m|;
    var rs := RowSums(m);
    forall i | 0 <= i < n - 1
      ensures rs[..n - 1][i] == Add(RowSums(Leading(m))[i], LastColumn(m)[i])
    {
      RowSumsOfLeading(m, i);
    }
    VecSumPointwiseAdd(RowSums(Leading(m)), LastColumn(m), rs[..n - 1]);
  }

  /** In an antisymmetric matrix the last row sums to minus the last column. */
  lemma AntisymmetricLastRow(m: seq<seq<Vec3>>)
    requires Antisymmetric(m) && |m| > 0
    ensures Opposite(RowSums(m)[|m| - 1], VecSum(LastColumn(m)))
  {
    var n := |m|;
    var col := LastColumn(m);
    var last := m[n - 1][..n - 1];
    forall k | 0 <= k < n - 1
      ensures Opposite(last[k], col[k])
    {
    }
    VecSumNegated(col, last);
    assert m[n - 1][..n] == m[n - 1];
    VecSumPrefixStep(m[n - 1], n - 1);
  }

  /** Newton's third law at matrix level: an antisymmetric matrix sums to zero. */
  lemma {:induction false} AntisymmetricTotalZero(m: seq<seq<Vec3>>)
    requires Antisymmetric(m)
    ensures MatrixTotal(m) == Zero
    decreases |m|
  {
    var n := |m|;
    if n > 0 {
      var rs := RowSums(m);
      LeadingAntisymmetric(m);
      AntisymmetricTotalZero(Leading(m));
      LeadingRowsTotal(m);
      AntisymmetricLastRow(m);
      assert rs[..n] == rs;
      VecSumPrefixStep(rs, n - 1);
      Cancel(VecSum(rs), VecSum(rs[..n - 1]), MatrixTotal(Leading(m)), VecSum(LastColumn(m)), rs[n - 1]);
    }
  }

  /** `(0 + c) + (-c) == 0`, component by component. */
  lemma Cancel(total: Vec3, front: Vec3, inner: Vec3, c: Vec3, last: Vec3)
    requires total == Add(front, last) && front == Add(inner, c)
    requires inner == Zero && Opposite(last, c)
    ensures total == Zero
  {
  }

  // ---------------------------------------------------------------------
  // Square matrices of reals (pair energies)

  /** Sum over every ordered pair: all entries, row by row. */
  function RealTotal(e: seq<seq<real>>): real {
    Sum(seq(|e|, i requires 0 <= i < |e| => Sum(e[i])))
  }

  /** Row i restricted to the columns j > i. */
  function UpperRowSums(e: seq<seq<real>>): (r: seq<real>)
    requires IsSquare(e, |e|)
    ensures |r| == |e|
    ensures forall i | 0 <= i < |e| :: r[i] == SumRange(e[i], i + 1, |e|)
  {
    seq(|e|, i requires 0 <= i < |e| => SumRange(e[i], i + 1, |e|))
  }

  /** Sum over the unordered pairs i < j. */
  function UpperTotal(e: seq<seq<real>>): real
    requires IsSquare(e, |e|)
  {
    Sum(UpperRowSums(e))
  }

  /** The sum of the upper parts of the first k rows, as the outer loop of the bare evaluator accumulates it. */
  ghost function UpperPrefix(e: seq<seq<real>>, k: nat): real
    requires IsSquare(e, |e|) && k <= |e|
  {
    if k == 0 then 0.0 else UpperPrefix(e, k - 1) + SumRange(e[k - 1], k, |e|)
  }

  /** Once every row is added, the running sum is the sum over the unordered pairs. */
  lemma UpperPrefixComplete(e: seq<seq<real>>)
    requires IsSquare(e, |e|)
    ensures UpperPrefix(e, |e|) == UpperTotal(e)
  {
    UpperPrefixIsPrefix(e, |e|);
    assert UpperRowSums(e)[..|e|] == UpperRowSums(e);
  }

  lemma {:induction false} UpperPrefixIsPrefix(e: seq<seq<real>>, k: nat)
    requires IsSquare(e, |e|) && k <= |e|
    ensures UpperPrefix(e, k) == Sum(UpperRowSums(e)[..k])
  {
    if k > 0 {
      UpperPrefixIsPrefix(e, k - 1);
      SumPrefixStep(UpperRowSums(e), k - 1);
    }
  }

  ghost predicate SymmetricZeroDiagonal(e: seq<seq<real>>) {
    IsSquare(e, |e|) &&
    (forall i, j | 0 <= i < |e| && 0 <= j < |e| :: e[j][i] == e[i][j]) &&
    (forall i | 0 <= i < |e| :: e[i][i] == 0.0)
  }

  /** Row sums of all entries, one per row. */
  function FullRowSums(e: seq<seq<real>>): (r: seq<real>)
    ensures |r| == |e|
    ensures forall i | 0 <= i < |e| :: r[i] == Sum(e[i])
  {
    seq(|e|, i requires 0 <= i < |e| => Sum(e[i]))
  }

  lemma {:induction false} RealRowsOfLeading(e: seq<seq<real>>, i: nat)
    requires IsSquare(e, |e|) && 0 <= i < |e| - 1
    ensures Sum(e[i]) == Sum(Leading(e)[i]) + e[i][|e| - 1]
    ensures SumRange(e[i], i + 1, |e|) == SumRange(Leading(e)[i], i + 1, |e| - 1) + e[i][|e| - 1]
  {
    var n := |e|;
    assert e[i][..n] == e[i];
    SumPrefixStep(e[i], n - 1);
    SumRangeAgree(e[i], Leading(e)[i], i + 1, n - 1);
  }

  lemma LeadingSymmetric(e: seq<seq<real>>)
    requires SymmetricZeroDiagonal(e) && |e| > 0
    ensures SymmetricZeroDiagonal(Leading(e))
  {
  }

  /** The first n-1 full and upper row sums are those of the leading block plus the last column. */
  lemma LeadingRealTotals(e: seq<seq<real>>)
    requires IsSquare(e, |e|) && |e| > 0
    ensures Sum(FullRowSums(e)[..|e| - 1]) == Sum(FullRowSums(Leading(e))) + Sum(LastColumn(e))
    ensures Sum(UpperRowSums(e)[..|e| - 1]) == UpperTotal(Leading(e)) + Sum(LastColumn(e))
  {
    var n := |e|;
    var p := Leading(e);
    var col := LastColumn(e);
    var fullFront := FullRowSums(e)[..n - 1];
    var upFront := UpperRowSums(e)[..n - 1];
    forall i | 0 <= i < n - 1
      ensures fullFront[i] == FullRowSums(p)[i] + col[i]
      ensures upFront[i] == UpperRowSums(p)[i] + col[i]
    {
      RealRowsOfLeading(e, i);
    }
    SumPointwiseAdd(FullRowSums(p), col, fullFront);
    SumPointwiseAdd(UpperRowSums(p), col, upFront);
  }

  /** In a symmetric, zero-diagonal matrix the last row sums to the last column, and has no upper part. */
  lemma SymmetricLastRow(e: seq<seq<real>>)
    requires SymmetricZeroDiagonal(e) && |e| > 0
    ensures FullRowSums(e)[|e| - 1] == Sum(LastColumn(e))
    ensures UpperRowSums(e)[|e| - 1] == 0.0
  {
    var n := |e|;
    assert e[n - 1][..n] == e[n - 1];
    SumPrefixStep(e[n - 1], n - 1);
    assert e[n - 1][..n - 1] == LastColumn(e);
  }

  /** Summing a symmetric, zero-diagonal matrix over ordered pairs counts every unordered pair twice. */
  lemma {:induction false} SymmetricTotalTwiceUpper(e: seq<seq<real>>)
    requires SymmetricZeroDiagonal(e)
    ensures RealTotal(e) == 2.0 * UpperTotal(e)
    decreases |e|
  {
    var n := |e|;
    if n > 0 {
      var p := Leading(e);
      LeadingSymmetric(e);
      SymmetricTotalTwiceUpper(p);
      assert RealTotal(p) == Sum(FullRowSums(p));
      assert RealTotal(e) == Sum(FullRowSums(e));
      var full := FullRowSums(e);
      var up := UpperRowSums(e);
      LeadingRealTotals(e);
      SymmetricLastRow(e);
      assert full[..n] == full;
      SumPrefixStep(full, n - 1);
      assert up[..n] == up;
      SumPrefixStep(up, n - 1);
    }
  }
}
