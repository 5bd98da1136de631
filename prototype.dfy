/**
 * The first prototype of main.c: the token helper `get_field` used to read
 * particle files, the evaluator `get_forces` that fills a fresh force
 * matrix, and `check_forces`, which checks the net force on every
 * particle.  The prototype has its own constants and its own coefficient,
 * computed from the true distance with pow and sqrt; sqrt is a parameter
 * that behaves as a square root.
 */
module Prototype {
  import opened Helper
  import opened Sums
  import opened Common
  import opened ForceField
  import opened LennardJonesState
  import opened Momentum

  datatype Option<T> = None | Some(value: T)

  // ---------------------------------------------------------------------
  // get_field

  /** The longest prefix of `s` without a space. */
  function Word(s: string): (w: string)
    ensures |w| <= |s| && w == s[..|w|]
    ensures ' ' !in w
    ensures |w| < |s| ==> s[|w|] == ' '
    ensures s != [] && s[0] != ' ' ==> |w| > 0
  {
    if s == [] || s[0] == ' ' then [] else [s[0]] + Word(s[1..])
  }

  /** The maximal runs of non-space characters of `s`, left to right. */
  function Tokens(s: string): seq<string>
    decreases |s|
  {
    if s == [] then []
    else if s[0] == ' ' then Tokens(s[1..])
    else [Word(s)] + Tokens(s[|Word(s)|..])
  }

  /** Every token is non-empty and holds no space. */
  lemma {:induction false} TokensWellFormed(s: string)
    ensures forall k | 0 <= k < |Tokens(s)| :: |Tokens(s)[k]| > 0 && ' ' !in Tokens(s)[k]
    decreases |s|
  {
    if s == [] {
    } else if s[0] == ' ' {
      TokensWellFormed(s[1..]);
    } else {
      TokensWellFormed(s[|Word(s)|..]);
    }
  }

  /** The characters of `s` other than spaces, in order. */
  function NonSpaces(s: string): (r: string)
    ensures |r| <= |s|
  {
    if s == [] then [] else if s[0] == ' ' then NonSpaces(s[1..]) else [s[0]] + NonSpaces(s[1..])
  }

  /** The tokens concatenated, in order. */
  function Concat(ts: seq<string>): string {
    if ts == [] then [] else ts[0] + Concat(ts[1..])
  }

  /** Nothing is lost and nothing invented: the tokens put together are the line without its spaces. */
  lemma {:induction false} TokensCoverLine(s: string)
    ensures Concat(Tokens(s)) == NonSpaces(s)
    decreases |s|
  {
    if s == [] {
    } else if s[0] == ' ' {
      TokensCoverLine(s[1..]);
    } else {
      var w := Word(s);
      TokensCoverLine(s[|w|..]);
      WordNonSpaces(s);
      assert Tokens(s) == [w] + Tokens(s[|w|..]);
      assert ([w] + Tokens(s[|w|..]))[1..] == Tokens(s[|w|..]);
    }
  }

  /** The non-space characters of `s` are its first word followed by those after it. */
  lemma {:induction false} WordNonSpaces(s: string)
    ensures NonSpaces(s) == Word(s) + NonSpaces(s[|Word(s)|..])
    decreases |s|
  {
    if s == [] || s[0] == ' ' {
      assert Word(s) == [];
      assert s[|Word(s)|..] == s;
    } else {
      var w' := Word(s[1..]);
      WordNonSpaces(s[1..]);
      assert Word(s) == [s[0]] + w';
      assert s[|Word(s)|..] == s[1..][|w'|..];
      calc {
        NonSpaces(s);
      ==
        [s[0]] + NonSpaces(s[1..]);
      ==
        [s[0]] + (w' + NonSpaces(s[1..][|w'|..]));
      ==
        ([s[0]] + w') + NonSpaces(s[|Word(s)|..]);
      }
    }
  }

  /**
   * strtok(line, " ") and strtok(NULL, " ") from position `pos`: spaces
   * are skipped, and the token runs to the next space or the end of the
   * line.  There is no token left exactly when none remains in Tokens.
   */
  method Strtok(line: string, pos: nat) returns (tok: Option<string>, next: nat)
    requires pos <= |line|
    ensures tok.None? ==> Tokens(line[pos..]) == []
    ensures tok.Some? ==> pos < next <= |line| && Tokens(line[pos..]) == [tok.value] + Tokens(line[next..])
  {
    var b := SkipSpaces(line, pos);
    if b == |line| {
      assert line[b..] == [];
      return None, b;
    }
    var e := TokenEnd(line, b);
    TokensFirst(line[b..]);
    assert line[b..][e - b..] == line[e..];
    return Some(line[b..e]), e;
  }

  /** The delimiter skip of strtok: the first non-space position at or after pos, or the end. */
  method SkipSpaces(line: string, pos: nat) returns (b: nat)
    requires pos <= |line|
    ensures pos <= b <= |line| && (b < |line| ==> line[b] != ' ')
    ensures Tokens(line[pos..]) == Tokens(line[b..])
  {
    b := pos;
    while b < |line| && line[b] == ' '
      invariant pos <= b <= |line|
      invariant Tokens(line[pos..]) == Tokens(line[b..])
    {
      assert line[b..][1..] == line[b + 1..];
      b := b + 1;
    }
  }

  /** The token scan of strtok: from a non-space position b to the next space or the end. */
  method TokenEnd(line: string, b: nat) returns (e: nat)
    requires b < |line| && line[b] != ' '
    ensures b < e <= |line| && Word(line[b..]) == line[b..e]
  {
    e := b + 1;
    while e < |line| && line[e] != ' '
      invariant b < e <= |line|
      invariant forall k | b <= k < e :: line[k] != ' '
    {
      e := e + 1;
    }
    WordSpan(line, b, e);
  }

  /** A run of non-space characters from b that ends at a space or at the end of the line is the word at b. */
  lemma {:induction false} WordSpan(line: string, b: nat, e: nat)
    requires b <= e <= |line|
    requires forall k | b <= k < e :: line[k] != ' '
    requires e == |line| || line[e] == ' '
    ensures Word(line[b..]) == line[b..e]
    decreases e - b
  {
    if b == e {
      assert line[b..] == [] || line[b..][0] == ' ';
    } else {
      WordStep(line[b..]);
      assert line[b..][1..] == line[b + 1..];
      WordSpan(line, b + 1, e);
      assert line[b..e] == [line[b]] + line[b + 1..e];
    }
  }

  /** A first word starting with a non-space character. */
  lemma WordStep(s: string)
    requires s != [] && s[0] != ' '
    ensures Word(s) == [s[0]] + Word(s[1..])
  {
  }

  /** A line starting with a non-space character begins with its first word. */
  lemma TokensFirst(s: string)
    requires s != [] && s[0] != ' '
    ensures Tokens(s) == [Word(s)] + Tokens(s[|Word(s)|..])
  {
  }

  /**
   * get_field(line, num): the num-th token of the line, counting from 1,
   * or NULL when the line has fewer.  The counter is a uint64_t that is
   * decremented before the test, so with num = 0 it wraps around and no
   * token is ever returned.
   */
  method GetField(line: string, num: nat) returns (tok: Option<string>)
    requires num < U64 && |line| < U64
    ensures 1 <= num <= |Tokens(line)| ==> tok == Some(Tokens(line)[num - 1])
    ensures num == 0 || num > |Tokens(line)| ==> tok == None
  {
    var count := num;
    var pos := 0;
    ghost var seen := 0;
    while true
      invariant 0 <= seen <= pos <= |line|
      invariant seen <= |Tokens(line)| && Tokens(line)[seen..] == Tokens(line[pos..])
      invariant count == (num - seen) % U64
      invariant num >= 1 ==> seen < num
      decreases |line| - pos
    {
      var t, next := Strtok(line, pos);
      if t.None? {
        return None;
      }
      assert Tokens(line)[seen] == t.value;
      count := if count == 0 then U64 - 1 else count - 1;
      seen := seen + 1;
      if count == 0 {
        return t;
      }
      pos := next;
    }
  }

  // ---------------------------------------------------------------------
  // get_forces

  /** R and EPSILON of the prototype. */
  const R: real := 3.0
  const EPSILON: real := 0.2

  /** pow(x, k) for a whole exponent k: the product of k factors x. */
  function Pow(x: real, k: nat): real {
    if k == 0 then 1.0 else x * Pow(x, k - 1)
  }

  /** compute_distance_3D: sqrt(pow(dx, 2) + pow(dy, 2) + pow(dz, 2)). */
  function Distance(a: Particle, b: Particle, sqrt: real -> real): real {
    sqrt(Pow(a.x - b.x, 2) + Pow(a.y - b.y, 2) + Pow(a.z - b.z, 2))
  }

  /** The distance is the square root of the squared distance, so it is positive between separate particles. */
  lemma DistancePositive(a: Particle, b: Particle, sqrt: real -> real)
    requires IsSqrt(sqrt) && Apart(a, b)
    ensures Distance(a, b, sqrt) == sqrt(SquareDistance(a, b))
    ensures Distance(a, b, sqrt) > 0.0
  {
    var d2 := SquareDistance(a, b);
    PowTwo(a.x - b.x);
    PowTwo(a.y - b.y);
    PowTwo(a.z - b.z);
    assert Pow(a.x - b.x, 2) + Pow(a.y - b.y, 2) + Pow(a.z - b.z, 2) == d2;
    PositiveRoot(sqrt(d2), d2);
  }

  /** pow(x, 2) is square(x). */
  lemma PowTwo(x: real)
    ensures Pow(x, 2) == Square(x)
  {
    assert Pow(x, 1) == x;
  }

  /** u_ij = -48 EPSILON ((R / d)^12 - 2 (R / d)^6). */
  function Coefficient(distance: real): real
    requires distance != 0.0
  {
    var rd := R / distance;
    -48.0 * EPSILON * (Pow(rd, 12) - 2.0 * Pow(rd, 6))
  }

  /** The force the prototype writes at (i, j) for i < j. */
  function ProtoPairForce(a: Particle, b: Particle, sqrt: real -> real): Force
    requires Distance(a, b, sqrt) != 0.0
  {
    Scale(Coefficient(Distance(a, b, sqrt)), Sub(a, b))
  }

  /** Entry (i, j) as get_forces leaves it: the pair force above the diagonal, copied unchanged below, zero on it. */
  ghost function ProtoForce(ps: seq<Particle>, sqrt: real -> real, i: nat, j: nat): Force
    requires Separated(ps) && IsSqrt(sqrt) && i < |ps| && j < |ps|
  {
    if i < j then DistancePositive(ps[i], ps[j], sqrt); ProtoPairForce(ps[i], ps[j], sqrt)
    else if j < i then DistancePositive(ps[j], ps[i], sqrt); ProtoPairForce(ps[j], ps[i], sqrt)
    else Zero
  }

  ghost function ProtoForces(ps: seq<Particle>, sqrt: real -> real): (m: seq<seq<Force>>)
    requires Separated(ps) && IsSqrt(sqrt)
    ensures IsSquare(m, |ps|)
    ensures forall i, j | 0 <= i < |ps| && 0 <= j < |ps| :: m[i][j] == ProtoForce(ps, sqrt, i, j)
  {
    seq(|ps|, i requires 0 <= i < |ps| => seq(|ps|, j requires 0 <= j < |ps| => ProtoForce(ps, sqrt, i, j)))
  }

  /** The prototype's matrix is symmetric, not antisymmetric, with a zero diagonal. */
  lemma ProtoForcesSymmetric(ps: seq<Particle>, sqrt: real -> real)
    requires Separated(ps) && IsSqrt(sqrt)
    ensures forall i, j | 0 <= i < |ps| && 0 <= j < |ps| :: ProtoForces(ps, sqrt)[j][i] == ProtoForces(ps, sqrt)[i][j]
    ensures forall i | 0 <= i < |ps| :: ProtoForces(ps, sqrt)[i][i] == Zero
  {
  }

  /** fx + fy + fz of a force: what get_forces adds to its "energy" per pair. */
  function ComponentSum(f: Force): real {
    f.x + f.y + f.z
  }

  ghost function ProtoEnergies(ps: seq<Particle>, sqrt: real -> real): (e: seq<seq<real>>)
    requires Separated(ps) && IsSqrt(sqrt)
    ensures IsSquare(e, |ps|)
    ensures forall i, j | 0 <= i < |ps| && 0 <= j < |ps| :: e[i][j] == ComponentSum(ProtoForces(ps, sqrt)[i][j])
  {
    var m := ProtoForces(ps, sqrt);
    seq(|ps|, i requires 0 <= i < |ps| => seq(|ps|, j requires 0 <= j < |ps| => ComponentSum(m[i][j])))
  }

  /** The value get_forces prints as energy: 4 times the component sums of the pairs i < j. */
  ghost function ProtoEnergy(ps: seq<Particle>, sqrt: real -> real): real
    requires Separated(ps) && IsSqrt(sqrt)
  {
    UpperTotal(ProtoEnergies(ps, sqrt)) * 4.0
  }

  /**
   * What get_forces is to write, stated pair by pair: above the diagonal the
   * pair force at a nonzero distance, the same force mirrored below, its
   * component sum as the pair's energy term, and zero on the diagonal.
   */
  ghost predicate ForcesTarget(p: seq<Particle>, sqrt: real -> real, m: seq<seq<Force>>, e: seq<seq<real>>) {
    IsSquare(m, |p|) && IsSquare(e, |p|) &&
    (forall i, j | 0 <= i < j < |p| :: PairTarget(p, sqrt, m, e, i, j)) &&
    (forall i | 0 <= i < |p| :: m[i][i] == Zero)
  }

  /** The pair i < j of that description. */
  ghost predicate PairTarget(p: seq<Particle>, sqrt: real -> real, m: seq<seq<Force>>, e: seq<seq<real>>, i: nat, j: nat)
    requires IsSquare(m, |p|) && IsSquare(e, |p|) && i < j < |p|
  {
    Distance(p[i], p[j], sqrt) != 0.0 && m[i][j] == ProtoPairForce(p[i], p[j], sqrt) &&
    m[j][i] == m[i][j] && e[i][j] == ComponentSum(m[i][j])
  }

  /** The prototype's matrix and energies meet that pair-by-pair description. */
  lemma ProtoForcesTarget(p: seq<Particle>, sqrt: real -> real)
    requires Separated(p) && IsSqrt(sqrt)
    ensures ForcesTarget(p, sqrt, ProtoForces(p, sqrt), ProtoEnergies(p, sqrt))
  {
    var m, e := ProtoForces(p, sqrt), ProtoEnergies(p, sqrt);
    forall i, j | 0 <= i < j < |p|
      ensures PairTarget(p, sqrt, m, e, i, j)
    {
      DistancePositive(p[i], p[j], sqrt);
    }
  }

  /** The entries of f written so far by the loops standing at row i, column j hold those of `target`. */
  ghost predicate Filled(f: array2<Force>, target: seq<seq<Force>>, i: nat, j: nat)
    reads f
  {
    f.Length1 == f.Length0 && IsSquare(target, f.Length0) &&
    forall a, b {:trigger f[a, b]} | 0 <= a < f.Length0 && 0 <= b < f.Length0 && Written(i, j, a, b) :: f[a, b] == target[a][b]
  }

  /**
   * get_forces: a fresh, uninitialised N x N matrix; for every pair i < j
   * the force at (i, j), the same force copied to (j, i), the component
   * sum added to the energy; zero on the diagonal; the energy times 4.
   */
  method GetForces(p: seq<Particle>, sqrt: real -> real) returns (f: array2<Force>, energy: real)
    requires Separated(p) && IsSqrt(sqrt)
    ensures fresh(f) && f.Length0 == |p| && f.Length1 == |p|
    ensures Rows(f) == ProtoForces(p, sqrt)
    ensures energy == ProtoEnergy(p, sqrt)
  {
    var n := |p|;
    f := new Force[n, n];
    ghost var m, e := ProtoForces(p, sqrt), ProtoEnergies(p, sqrt);
    ProtoForcesTarget(p, sqrt);
    energy := FillRows(f, p, sqrt, m, e);
    FilledRows(f, m);
    energy := energy * 4.0;
  }

  /** The outer loop of get_forces: rows 0 to N - 1, accumulating the component sums above the diagonal. */
  method FillRows(f: array2<Force>, p: seq<Particle>, sqrt: real -> real,
                  ghost m: seq<seq<Force>>, ghost e: seq<seq<real>>) returns (energy: real)
    requires ForcesTarget(p, sqrt, m, e) && f.Length0 == |p| && f.Length1 == |p|
    modifies f
    ensures Filled(f, m, |p|, |p| + 1)
    ensures energy == UpperTotal(e)
  {
    energy := 0.0;
    var i := 0;
    while i < |p|
      invariant 0 <= i <= |p|
      invariant Filled(f, m, i, i + 1)
      invariant energy == UpperPrefix(e, i)
    {
      energy := FillRow(f, p, sqrt, i, energy, m, e);
      i := i + 1;
    }
    UpperPrefixComplete(e);
  }

  /** Once every row has been filled, the array holds the whole target matrix. */
  lemma FilledRows(f: array2<Force>, m: seq<seq<Force>>)
    requires Filled(f, m, f.Length0, f.Length0 + 1)
    ensures Rows(f) == m
  {
    var n := f.Length0;
    forall a, b | 0 <= a < n && 0 <= b < n
      ensures f[a, b] == m[a][b]
    {
      assert Written(n, n + 1, a, b);
    }
    MatricesEqual(Rows(f), m);
  }

  /** Row i of get_forces: the pairs (i, j) for j > i, then the diagonal. */
  method FillRow(f: array2<Force>, p: seq<Particle>, sqrt: real -> real, i: nat, energy: real,
                 ghost m: seq<seq<Force>>, ghost e: seq<seq<real>>) returns (energy': real)
    requires ForcesTarget(p, sqrt, m, e) && f.Length0 == |p| && i < |p|
    requires Filled(f, m, i, i + 1)
    modifies f
    ensures Filled(f, m, i + 1, i + 2)
    ensures energy' == energy + SumRange(e[i], i + 1, |p|)
  {
    energy' := energy;
    var j := i + 1;
    while j < |p|
      invariant i + 1 <= j <= |p|
      invariant Filled(f, m, i, j)
      invariant energy' == energy + SumRange(e[i], i + 1, j)
    {
      energy' := StorePair(f, p, sqrt, i, j, energy', m, e);
      j := j + 1;
    }
    f[i, i] := Zero;
  }

  /** One pair i < j of get_forces. */
  method StorePair(f: array2<Force>, p: seq<Particle>, sqrt: real -> real, i: nat, j: nat, energy: real,
                   ghost m: seq<seq<Force>>, ghost e: seq<seq<real>>) returns (energy': real)
    requires f.Length0 == |p| && i < j < |p| && IsSquare(m, |p|) && IsSquare(e, |p|)
    requires Filled(f, m, i, j) && PairTarget(p, sqrt, m, e, i, j)
    modifies f
    ensures Filled(f, m, i, j + 1)
    ensures energy' == energy + e[i][j]
  {
    var distance := Distance(p[i], p[j], sqrt);
    var u := Coefficient(distance);
    f[i, j] := Vec3(u * (p[i].x - p[j].x), u * (p[i].y - p[j].y), u * (p[i].z - p[j].z));
    f[j, i] := f[i, j];
    energy' := energy + f[i, j].x;
    energy' := energy' + f[i, j].y;
    energy' := energy' + f[i, j].z;
  }

  // ---------------------------------------------------------------------
  // check_forces

  /** The tolerance of the prototype's check_forces. */
  const CHECK_TOLERANCE: real := 0.001

  /**
   * check_forces of the prototype: for every particle the sum of its row
   * is compared with the tolerance, and the result is 1 when some
   * particle's net force exceeds it.  The matrix is only read.
   */
  method CheckForces(f: array2<Force>) returns (error: nat)
    ensures error == 1 <==> exists i | 0 <= i < f.Length0 :: Exceeds(RowSums(Rows(f))[i], CHECK_TOLERANCE)
    ensures error == 0 <==> !exists i | 0 <= i < f.Length0 :: Exceeds(RowSums(Rows(f))[i], CHECK_TOLERANCE)
  {
    ghost var totals := RowSums(Rows(f));
    error := 0;
    var i := 0;
    while i < f.Length0
      invariant 0 <= i <= f.Length0
      invariant totals == RowSums(Rows(f))
      invariant error == if exists a | 0 <= a < i :: Exceeds(totals[a], CHECK_TOLERANCE) then 1 else 0
    {
      var sumI := RowTotal(f, i);
      var absSumI := Vec3(AbsDouble(sumI.x), AbsDouble(sumI.y), AbsDouble(sumI.z));
      var tolerance := 0.001;
      if absSumI.x > tolerance || absSumI.y > tolerance || absSumI.z > tolerance {
        error := 1;
      }
      assert Exceeds(totals[i], CHECK_TOLERANCE) <==> absSumI.x > tolerance || absSumI.y > tolerance || absSumI.z > tolerance;
      i := i + 1;
    }
  }

  /** The inner loop of check_forces: sum_i accumulates row i. */
  method RowTotal(f: array2<Force>, i: nat) returns (sumI: Force)
    requires i < f.Length0
    ensures sumI == VecSum(Row(f, i))
  {
    sumI := Zero;
    var j := 0;
    while j < f.Length1
      invariant 0 <= j <= f.Length1
      invariant sumI == VecSum(Row(f, i)[..j])
    {
      VecSumPrefixStep(Row(f, i), j);
      sumI := Vec3(sumI.x + f[i, j].x, sumI.y + f[i, j].y, sumI.z + f[i, j].z);
      j := j + 1;
    }
    assert Row(f, i)[..j] == Row(f, i);
  }

  // ---------------------------------------------------------------------
  // The copied mirror

  /** sqrt(1) is 1. */
  lemma SqrtOne(sqrt: real -> real)
    requires IsSqrt(sqrt)
    ensures sqrt(1.0) == 1.0
  {
    var r := sqrt(1.0);
    assert r >= 0.0 && r * r == 1.0;
    if r < 1.0 {
      SquareBelowOne(r);
    } else if r > 1.0 {
      SquareAboveOne(r);
    }
  }

  lemma SquareBelowOne(r: real)
    requires 0.0 <= r < 1.0
    ensures r * r < 1.0
  {
    assert r * r <= r;
  }

  lemma SquareAboveOne(r: real)
    requires r > 1.0
    ensures r * r > 1.0
  {
    assert r * r > r;
  }

  /** At unit distance (R / d)^12 - 2 (R / d)^6 is 3^12 - 2 * 3^6, so u = -48 * 0.2 * 529983. */
  lemma CoefficientAtUnitDistance()
    ensures Coefficient(1.0) == -5087836.8
  {
    assert Pow(3.0, 3) == 27.0;
    assert Pow(3.0, 6) == 729.0;
    assert Pow(3.0, 12) == 531441.0;
  }

  /** The pair (0, 0, 0), (1, 0, 0) lies at unit distance, so it is an input of MirroredForcesUnbalanced. */
  lemma UnitSquareDistance()
    ensures SquareDistance(Vec3(0.0, 0.0, 0.0), Vec3(1.0, 0.0, 0.0)) == 1.0
  {
    var a, b := Vec3(0.0, 0.0, 0.0), Vec3(1.0, 0.0, 0.0);
    assert a.x - b.x == -1.0;
    assert Square(-1.0) == 1.0;
    assert Square(0.0) == 0.0;
  }

  /** Two particles at a positive distance form a separated system. */
  lemma PairSeparated(a: Particle, b: Particle)
    requires SquareDistance(a, b) > 0.0
    ensures Separated([a, b])
  {
    var ps := [a, b];
    SquareDistanceSymmetric(a, b);
    forall i, j | 0 <= i < 2 && 0 <= j < 2 && i != j
      ensures Apart(ps[i], ps[j])
    {
      if i == 0 { assert j == 1; } else { assert i == 1 && j == 0; }
    }
  }

  /** The unit-distance pair force written for a two-particle system. */
  function UnitForce(a: Particle, b: Particle): Force {
    Scale(-5087836.8, Sub(a, b))
  }

  /** At unit distance the prototype's pair force is Coefficient(1) times the separation. */
  lemma PairForceAtUnitDistance(a: Particle, b: Particle, sqrt: real -> real)
    requires IsSqrt(sqrt) && SquareDistance(a, b) == 1.0
    ensures Distance(a, b, sqrt) == 1.0
    ensures ProtoPairForce(a, b, sqrt) == UnitForce(a, b)
  {
    SqrtOne(sqrt);
    DistancePositive(a, b, sqrt);
    CoefficientAtUnitDistance();
  }

  /** The prototype's matrix for two particles at unit distance: the same force on both sides of the diagonal. */
  lemma UnitPairMatrix(a: Particle, b: Particle, sqrt: real -> real)
    requires IsSqrt(sqrt) && SquareDistance(a, b) == 1.0
    ensures Separated([a, b])
    ensures ProtoForces([a, b], sqrt) == [[Zero, UnitForce(a, b)], [UnitForce(a, b), Zero]]
  {
    var ps := [a, b];
    PairForceAtUnitDistance(a, b, sqrt);
    PairSeparated(a, b);
    var m := ProtoForces(ps, sqrt);
    assert m[0][1] == UnitForce(a, b);
    assert m[1][0] == UnitForce(a, b);
    assert m[0] == [Zero, UnitForce(a, b)];
    assert m[1] == [UnitForce(a, b), Zero];
  }

  /** A component below one half in magnitude has a square below one quarter. */
  lemma SmallSquare(d: real)
    requires AbsDouble(d) < 0.5
    ensures Square(d) < 0.25
  {
    var e := AbsDouble(d);
    assert Square(d) == e * e;
    assert e * e <= e * 0.5;
  }

  /** At unit distance some component of the separation is at least one half in magnitude. */
  lemma LargeComponent(a: Particle, b: Particle)
    requires SquareDistance(a, b) == 1.0
    ensures AbsDouble(a.x - b.x) >= 0.5 || AbsDouble(a.y - b.y) >= 0.5 || AbsDouble(a.z - b.z) >= 0.5
  {
    if AbsDouble(a.x - b.x) < 0.5 && AbsDouble(a.y - b.y) < 0.5 && AbsDouble(a.z - b.z) < 0.5 {
      SmallSquare(a.x - b.x);
      SmallSquare(a.y - b.y);
      SmallSquare(a.z - b.z);
    }
  }

  /** Scaling a component of magnitude at least one half by the unit-distance coefficient lands far above the tolerance. */
  lemma LargeScaled(d: real)
    requires AbsDouble(d) >= 0.5
    ensures AbsDouble(-5087836.8 * d) > CHECK_TOLERANCE
  {
    if d >= 0.0 {
      assert -5087836.8 * d <= -5087836.8 * 0.5;
    } else {
      assert -5087836.8 * d >= 5087836.8 * 0.5;
    }
  }

  /**
   * The mirrored copy in get_forces does not negate: for two particles at
   * unit distance both rows carry the same force, so the total force is
   * twice that force instead of zero.  check_forces flags the first row,
   * but it would do so with the negated copy as well (see
   * NegatedMirrorStillFlagged): what tells the two apart is the second row
   * and the total.
   */
  lemma MirroredForcesUnbalanced(a: Particle, b: Particle, sqrt: real -> real)
    requires IsSqrt(sqrt) && SquareDistance(a, b) == 1.0
    ensures Separated([a, b])
    ensures RowSums(ProtoForces([a, b], sqrt)) == [UnitForce(a, b), UnitForce(a, b)]
    ensures Exceeds(RowSums(ProtoForces([a, b], sqrt))[0], CHECK_TOLERANCE)
    ensures MatrixTotal(ProtoForces([a, b], sqrt)) == Scale(2.0, UnitForce(a, b))
    ensures MatrixTotal(ProtoForces([a, b], sqrt)) != Zero
  {
    var f := UnitForce(a, b);
    UnitPairMatrix(a, b, sqrt);
    var m := [[Zero, f], [f, Zero]];
    VecSumPair(Zero, f);
    VecSumPair(f, Zero);
    assert RowSums(m) == [f, f];
    VecSumPair(f, f);
    LargeComponent(a, b);
    if AbsDouble(a.x - b.x) >= 0.5 {
      LargeScaled(a.x - b.x);
    } else if AbsDouble(a.y - b.y) >= 0.5 {
      LargeScaled(a.y - b.y);
    } else {
      LargeScaled(a.z - b.z);
    }
    assert Exceeds(f, CHECK_TOLERANCE);
  }

  /**
   * The same two particles with the negated copy of src/lennard_jones.c:
   * the rows carry F and -F, so the total force vanishes, yet check_forces,
   * which tests each particle's own row, still flags the first row.  Only
   * the second row and the total separate it from the matrix get_forces
   * builds.
   */
  lemma NegatedMirrorStillFlagged(a: Particle, b: Particle, sqrt: real -> real)
    requires IsSqrt(sqrt) && SquareDistance(a, b) == 1.0
    ensures var f := UnitForce(a, b);
      var m := [[Zero, f], [Vec3(-f.x, -f.y, -f.z), Zero]];
      RowSums(m) == [f, Vec3(-f.x, -f.y, -f.z)] &&
      Exceeds(RowSums(m)[0], CHECK_TOLERANCE) &&
      MatrixTotal(m) == Zero &&
      RowSums(m)[1] != RowSums(ProtoForces([a, b], sqrt))[1]
  {
    var f := UnitForce(a, b);
    var g := Vec3(-f.x, -f.y, -f.z);
    var m := [[Zero, f], [g, Zero]];
    VecSumPair(Zero, f);
    VecSumPair(g, Zero);
    assert RowSums(m) == [f, g];
    VecSumPair(f, g);
    MirroredForcesUnbalanced(a, b, sqrt);
    assert f != Zero;
  }

  lemma VecSumPair(u: Vec3, v: Vec3)
    ensures VecSum([u, v]) == Vec3(u.x + v.x, u.y + v.y, u.z + v.z)
  {
    VecSumPrefixStep([u, v], 1);
    assert [u, v][..1] == [u];
    VecSumPrefixStep([u], 0);
    assert [u][..0] == [];
    assert [u, v][..2] == [u, v];
    assert [u][..1] == [u];
  }
}
