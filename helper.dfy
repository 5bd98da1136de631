/**
 * Constants, record types and arithmetic macros shared by the whole
 * simulation (src/helper.h).  C `double` is modelled as `real`.
 */
module Helper {

  // Simulation constants
  const R_STAR: real := 3.0
  const EPSILON_STAR: real := 0.2
  const L: real := 30.0
  const N_SYM: nat := 27
  const TOLERANCE: real := 0.0000001
  const DT: real := 1.0
  const FORCE_CONVERSION: real := 0.0004186
  const FORCE_CONVERSION_x2: real := 0.0008372
  const R_CONSTANT: real := 0.00199
  const M_I: real := 18.0
  const T_0: real := 300.0

  /** The three-component record used for positions, forces, image offsets and momenta. */
  datatype Vec3 = Vec3(x: real, y: real, z: real)

  type Particle = Vec3
  type Force = Vec3
  type TranslationVector = Vec3
  type KineticMoment = Vec3

  const Zero: Vec3 := Vec3(0.0, 0.0, 0.0)

  function Add(a: Vec3, b: Vec3): Vec3 {
    Vec3(a.x + b.x, a.y + b.y, a.z + b.z)
  }

  function Sub(a: Vec3, b: Vec3): Vec3 {
    Vec3(a.x - b.x, a.y - b.y, a.z - b.z)
  }

  /** `u == -v`, component by component. */
  predicate Opposite(u: Vec3, v: Vec3) {
    u.x == -v.x && u.y == -v.y && u.z == -v.z
  }

  function Scale(c: real, a: Vec3): Vec3 {
    Vec3(c * a.x, c * a.y, c * a.z)
  }

  // Power macros: repeated products, exactly as the macros expand them
  function Square(x: real): real { x * x }
  function Cube(x: real): real { x * x * x }
  function Quad(x: real): real { x * x * x * x }
  function Penta(x: real): real { x * x * x * x * x }
  function Hexa(x: real): real { x * x * x * x * x * x }
  function Septa(x: real): real { x * x * x * x * x * x * x }

  /** The higher powers are built from the lower ones. */
  lemma PowerIdentities(x: real)
    ensures Hexa(x) == Cube(x) * Cube(x)
    ensures Septa(x) == Hexa(x) * x
    ensures Quad(x) == Square(x) * Square(x)
  {
  }

  /** A square is never negative. */
  lemma SquareNonNegative(x: real)
    ensures Square(x) >= 0.0
  {
  }

  /** `abs_double(x)` applied to an atomic argument. */
  function AbsDouble(x: real): (r: real)
    ensures r >= 0.0
    ensures r == x || r == -x
    ensures r == x <==> x >= 0.0
  {
    if x < 0.0 then -x else x
  }

  /**
   * `abs_double(a + b + c)` as the preprocessor expands it: the macro does
   * not parenthesise its argument, so the negation applies to `a` only.
   */
  function AbsDoubleOfSum(a: real, b: real, c: real): (r: real)
    ensures a + b + c >= 0.0 ==> r == AbsDouble(a + b + c)
    ensures a + b + c < 0.0 ==> r == AbsDouble(a + b + c) + 2.0 * (b + c)
  {
    if a + b + c < 0.0 then -a + b + c else a + b + c
  }

  /** The unparenthesised expansion can even be negative: it is not an absolute value. */
  lemma AbsDoubleOfSumNotAbsolute()
    ensures AbsDoubleOfSum(1.0, -3.0, 0.0) == -4.0
    ensures AbsDouble(1.0 + -3.0 + 0.0) == 2.0
  {
  }

  /** The doubled force conversion factor is twice the single one. */
  lemma ConstantsConsistent()
    ensures FORCE_CONVERSION_x2 == 2.0 * FORCE_CONVERSION
    ensures N_SYM == 3 * 3 * 3
  {
  }

  /** Row `i` of a two-dimensional array, as a sequence. */
  function Row(f: array2<Vec3>, i: nat): (r: seq<Vec3>)
    requires i < f.Length0
    reads f
    ensures |r| == f.Length1
    ensures forall j {:trigger r[j]} | 0 <= j < f.Length1 :: r[j] == f[i, j]
  {
    seq(f.Length1, j requires 0 <= j < f.Length1 reads f => f[i, j])
  }

  /** The whole contents of a two-dimensional array, row by row. */
  function Rows(f: array2<Vec3>): (m: seq<seq<Vec3>>)
    reads f
    ensures |m| == f.Length0
    ensures forall i | 0 <= i < f.Length0 :: m[i] == Row(f, i)
  {
    seq(f.Length0, i requires 0 <= i < f.Length0 reads f => Row(f, i))
  }
}
