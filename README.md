# ism — a Lennard-Jones molecular-dynamics core, modelled in Dafny

ism simulates N particles interacting through a Lennard-Jones pair
potential. It has two force evaluators:

- the *bare* evaluator visits every unordered pair once, writes the pair
  force at (i, j) and its negation at (j, i), and scales the summed pair
  energies by 4 ε*;
- the *periodical* evaluator visits every ordered pair against each of the
  27 image translations of the box (side L). It skips the diagonal and any
  image beyond the cutoff r_cut, accumulates forces, and scales the energy
  by 2 ε*.

The dynamics are a velocity-Verlet integrator: a half kick of the kinetic
moments, a drift of the positions, a new force evaluation and a second half
kick. Before the first step the initial moments are drawn at random. They
are then recalibrated to the target temperature T₀, shifted so that the
total momentum vanishes, and recalibrated again. A Berendsen thermostat
rescales every moment by 1 + GAMMA·(T/T₀ - 1). The repository also holds an earlier
allocating version of the evaluators (`lennard_jones.c`) and a first
prototype (`main.c`). The prototype has its own tokenizer (`get_field`), its
own force routine (`get_forces`) and a per-particle force check.

The modules follow the source files:

| module | file | source | form |
|---|---|---|---|
| `Helper` | helper.dfy | src/helper.h | constants, `Vec3`, power macros, `abs_double` |
| `Sums` | sums.dfy | — | sums of reals, vectors and matrices, and the lemmas the evaluators need |
| `Common` | common.dfy | common.c | squared distance, translation vectors (method over an array), force check (method) |
| `ForceField` | forcefield.dfy | src/lennard_jones.c | the force matrices and energies both evaluators compute, as functions, with their physical properties |
| `LennardJonesState` | lennard_jones.dfy | src/lennard_jones.c | class `LennardJones` (fields `f`, `sumI`, `sum`, `energy`), in-place evaluators proved against `ForceField` |
| `LegacyLennardJones` | legacy_lennard_jones.dfy | lennard_jones.c | the allocating evaluators (class `Snapshot`) |
| `Momentum` | momentum.dfy | src/velocity_verlet.c | kinetic energy, temperature, recalibration, kick, drift and thermostat as functions on sequences, with their invariants |
| `VelocityVerlet` | velocity_verlet.dfy | src/velocity_verlet.c | class `Ket` and the in-place methods over the moment and position arrays, proved against `Momentum` |
| `Prototype` | prototype.dfy | main.c | `get_field`, `get_forces` and `check_forces` of the prototype |

A C `double` is modelled as a mathematical `real`. `sqrt` is a parameter
that behaves as a square root: `IsSqrt(sqrt)` says that `sqrt(x)` is
non-negative and squares to `x` for every `x >= 0`. The random draws of
`init_velocity_verlet` are a parameter `draws`. They hold six numbers per
particle, a magnitude and a sign draw for each component, in call order.

## Model

| member | source | states |
|---|---|---|
| Helper.AbsDouble | src/helper.h:31 | for an atomic argument the macro returns x or -x; the result is never negative and equals x exactly when x >= 0 |
| Helper.AbsDoubleOfSum | src/main.c:174 | the unparenthesised macro applied to a + b + c negates only `a`: it gives \|a+b+c\| when the sum is non-negative, and \|a+b+c\| + 2(b+c) otherwise |
| Helper.AbsDoubleOfSumNotAbsolute | src/main.c:174 | for a = 1, b = -3, c = 0 the expansion gives -4, while the absolute value of the sum is 2 |
| Helper.ConstantsConsistent | src/helper.h:10-14 | FORCE_CONVERSION_x2 is twice FORCE_CONVERSION, and N_SYM = 3·3·3 |
| Helper.SquareNonNegative | src/helper.h:33 | square(x) is never negative |
| Helper.Square | src/helper.h:33 | square(x): x·x |
| Helper.Cube | src/helper.h:34 | cube(x): x·x·x |
| Helper.Quad | src/helper.h:35 | quad(x): four factors x |
| Helper.Penta | src/helper.h:36 | penta(x): five factors x |
| Helper.Hexa | src/helper.h:37 | hexa(x): six factors x |
| Helper.Septa | src/helper.h:38 | septa(x): seven factors x |
| Helper.PowerIdentities | src/helper.h:33-38 | hexa(x) = cube(x)·cube(x), septa(x) = hexa(x)·x and quad(x) = square(x)·square(x) |
| Common.SquareDistance | common.c:90-98 | the squared distance is non-negative and is zero between equal positions |
| Common.SquareDistanceSymmetric | common.c:90-98 | the squared distance does not depend on argument order |
| Common.TranslationVector | common.c:171-176 | offset number i: its base-3 digits i/9, (i/3)%3 and i%3, each less one, times L |
| Common.InitTranslationVectors | common.c:165-179 | returns a fresh array of n offsets; entry i is ((i/9)-1)L, ((i/3)%3-1)L, ((i%3)-1)L |
| Common.TranslationVectorDigits | common.c:171-176 | index 9a+3b+c (digits in 0..2) yields the offset ((a-1)L, (b-1)L, (c-1)L) |
| Common.TranslationVectorsDistinct | common.c:171-176 | distinct indices below 27 give distinct offsets |
| Common.ZeroOffsetAtCentre | common.c:171-176 | among the 27 offsets, only index 13 is the zero translation (the box itself) |
| Common.CubeOffsetGenerated | common.c:171-176 | every triple over {-L, 0, L} is produced by some index below 27 |
| Common.GeneratedOffsetInCube | common.c:171-176 | every offset with index below 27 is a triple over {-L, 0, L} |
| Common.GeneratedOffsetsCount | common.c:171-176 | the first n ≤ 27 indices give n different offsets |
| Common.GeneratedOffsetsAreCube | common.c:165-179 | the N_SYM generated offsets are exactly the 27 vectors of {-L, 0, L}³ |
| Common.Exceeds | common.c:137-149 | some component of a force has absolute value above the tolerance, the condition under which check_forces reports an error |
| Common.CheckForces | common.c:100-163 | returns 1 iff the sum of every entry of the force matrix exceeds the tolerance in absolute value in some component, and 0 otherwise; the matrix is only read |
| ForceField.PairForceAntisymmetric | src/lennard_jones.c:112-123 | swapping the two particles of a pair negates the pair force (Newton's third law for one pair) |
| ForceField.PairEnergy | src/lennard_jones.c:101-106 | u_ij: with r = R_STAR²/d², hexa(r) - 2·cube(r) |
| ForceField.PairCoefficient | src/lennard_jones.c:112-113 | du_ij: -48·ε*·(septa(r) - quad(r)) |
| ForceField.PairForce | src/lennard_jones.c:116-118 | the force of b on a: du_ij times a - b |
| ForceField.EquilibriumDistance | src/lennard_jones.c:103-113 | at distance R_STAR the reduced pair energy is -1 (-0.8 after the 4ε* factor) and the force coefficient is 0 |
| ForceField.BareForces | src/lennard_jones.c:97-138 | the bare force matrix is N×N, and each entry is the pair force above the diagonal, its mirrored negation below, and zero on it |
| ForceField.PairEnergies | src/lennard_jones.c:101-109 | the N×N matrix of pair energies has a zero diagonal, and each off-diagonal entry is the pair energy of that squared distance (defined since the particles are apart) |
| ForceField.BareEnergy | src/lennard_jones.c:97-147 | the sum of u_ij over i < j, times 4ε* |
| ForceField.BareForcesAntisymmetric | src/lennard_jones.c:116-138 | the bare force matrix is antisymmetric with a zero diagonal |
| ForceField.BareTotalForceZero | src/lennard_jones.c:116-143 | the bare forces add up to zero, so the `sum` the evaluator accumulates is zero (Newton's third law) |
| ForceField.BareForceReference | src/lennard_jones.c:112-123 | every off-diagonal entry (i, j), on either side of the diagonal, equals the force of j on i computed directly |
| ForceField.PairEnergiesSymmetric | src/lennard_jones.c:101-109 | pair energies are symmetric with a zero diagonal |
| ForceField.BareEnergyOrderedPairs | src/lennard_jones.c:245 | 4ε* times the sum over unordered pairs equals 2ε* times the sum over ordered pairs, which justifies the periodic evaluator's factor |
| ForceField.TwoParticleEnergy | src/lennard_jones.c:97-147 | with two particles the bare energy is 4ε* times their single pair energy |
| ForceField.ImageForce | src/lennard_jones.c:190-222 | the contribution of image k of j to f[i][j]: zero when i = j (the skip) or beyond r_cut (the cutoff), else the pair force of the translated image |
| ForceField.ImageEnergy | src/lennard_jones.c:190-213 | the energy contribution of that image, with the same skip and cutoff |
| ForceField.ImageForces | src/lennard_jones.c:184-223 | the contributions to f[i][j], one per translation: zero on the diagonal or beyond the cutoff, otherwise the pair force of the translated image |
| ForceField.PeriodicForces | src/lennard_jones.c:184-223 | the periodic matrix is N×N, and entry (i, j) is the sum over translations of the image contributions |
| ForceField.ImageEnergies | src/lennard_jones.c:201-213 | the energy contributions of one translation for every ordered pair, N×N |
| ForceField.ShellEnergies | src/lennard_jones.c:184-225 | one total energy per translation |
| ForceField.PeriodicEnergy | src/lennard_jones.c:184-245 | the sum over translations and ordered pairs, times 2ε* |
| ForceField.ImageSumIsPrefix | src/lennard_jones.c:184-222 | after the first m translations, f[i][j] holds the sum of their image contributions |
| ForceField.ImageSumComplete | src/lennard_jones.c:184-222 | after every translation, f[i][j] is the periodic force |
| ForceField.PairsEnergyIsPrefix | src/lennard_jones.c:188-213 | for one translation and one row, the energy accumulated over columns j < m is the sum of that row's first m entries |
| ForceField.ShellRowsIsPrefix | src/lennard_jones.c:186-213 | for one translation, the energy accumulated over rows i < m is the sum of those rows |
| ForceField.ShellsIsPrefix | src/lennard_jones.c:184-213 | the energy accumulated over translations k < m is the sum of their shell energies |
| ForceField.ShellsEnergyComplete | src/lennard_jones.c:184-245 | the loop order gives exactly the periodic energy once scaled by 2ε* |
| ForceField.PeriodicDiagonalZero | src/lennard_jones.c:190-192 | the periodic matrix has a zero diagonal |
| ForceField.ZeroTranslationImages | src/lennard_jones.c:194-199 | with the zero translation alone, each image is the particle itself |
| ForceField.ZeroTranslationForce | src/lennard_jones.c:194-222 | with the zero translation alone and every pair within the cutoff, each periodic entry is the bare entry |
| ForceField.ZeroTranslationEnergy | src/lennard_jones.c:201-213 | under the same conditions, each image energy is the bare pair energy |
| ForceField.PeriodicMatchesBare | src/lennard_jones.c:151-246 | with only the zero translation and every pair within the cutoff, the periodic evaluator gives the bare force matrix and the bare energy |
| ForceField.ExtendedImages | src/lennard_jones.c:184-225 | appending a translation leaves the energy contributions of the earlier translations unchanged |
| ForceField.FarTranslationSeparated | src/lennard_jones.c:203-205 | a translation that brings no image within the cutoff keeps the images separated |
| ForceField.FarTranslationForce | src/lennard_jones.c:203-205 | such a translation adds nothing to any f[i][j] |
| ForceField.FarTranslationShell | src/lennard_jones.c:203-205 | such a translation adds nothing to the energy |
| ForceField.FarTranslationIgnored | src/lennard_jones.c:184-245 | a translation that brings no image within the cutoff changes neither the periodic force matrix nor the periodic energy |
| LennardJonesState.LennardJones.constructor | src/lennard_jones.c:8-51 | a fresh N×N force matrix and a fresh N-vector sum_i, all zero, with zero energy and a zero total |
| LennardJonesState.LennardJones.Reset | src/lennard_jones.c:69-94 | zeroes the energy, every force entry, every sum_i and the total |
| LennardJonesState.LennardJones.Evaluate | src/lennard_jones.c:66-148 | the matrix becomes BareForces(p), sum_i its row sums, sum its total, and energy BareEnergy(p) |
| LennardJonesState.LennardJones.EvaluatePairs | src/lennard_jones.c:97-144 | after every row, the matrix, the row sums and the total are those of the bare matrix, and the energy is the sum over unordered pairs |
| LennardJonesState.LennardJones.EvaluateRow | src/lennard_jones.c:99-143 | one pass of the row loop adds row i's pairs j > i to the energy and row i's full sum to the total |
| LennardJonesState.LennardJones.FinishRow | src/lennard_jones.c:135-143 | zeroes f[i][i] and adds the completed sum_i[i] to the total |
| LennardJonesState.LennardJones.StorePair | src/lennard_jones.c:101-132 | writes the pair force at (i, j) and its negation at (j, i); adds them to sum_i[i] and sum_i[j] and the pair energy to the energy; nothing else changes |
| LennardJonesState.LennardJones.EvaluatePeriodic | src/lennard_jones.c:151-246 | the matrix becomes PeriodicForces over the first n translations, sum_i its row sums, sum its total, and energy PeriodicEnergy |
| LennardJonesState.LennardJones.SumRows | src/lennard_jones.c:227-242 | from zeroed sums, sum_i becomes the row sums of the matrix and sum its total |
| LennardJonesState.SumRow | src/lennard_jones.c:231-236 | sum_i[i] becomes the sum of row i; other entries are unchanged |
| LennardJonesState.AccumulateImages | src/lennard_jones.c:184-225 | from a zero matrix, the triple loop leaves PeriodicForces in f and an energy that gives PeriodicEnergy once scaled by 2ε* |
| LennardJonesState.AccumulateShell | src/lennard_jones.c:186-224 | one translation adds its image contributions to every entry and returns its energy |
| LennardJonesState.AccumulateRow | src/lennard_jones.c:188-223 | one row of one translation adds its contributions and returns their energy |
| LennardJonesState.AccumulateImage | src/lennard_jones.c:190-222 | adds one image contribution to f[i][j] only (zero on the diagonal or beyond the cutoff) and returns its energy |
| LennardJonesState.BareRows | src/lennard_jones.c:97-138 | each row of the bare matrix and of the pair energies is what the row loop writes |
| LennardJonesState.RowTotal | src/lennard_jones.c:231-236 | a row read out of the array sums to that row's entry in RowSums |
| LegacyLennardJones.Snapshot.constructor | lennard_jones.c:10-20 | a fresh N×N matrix with zero energy |
| LegacyLennardJones.Snapshot.FillPairs | lennard_jones.c:23-56 | after every row, the matrix is the bare matrix and the energy is the sum over unordered pairs |
| LegacyLennardJones.Snapshot.FillRow | lennard_jones.c:25-55 | one row adds the pair energies j > i and completes row i and column i |
| LegacyLennardJones.Snapshot.StorePair | lennard_jones.c:27-49 | writes the pair force and its negation and adds the pair energy |
| LegacyLennardJones.Snapshot.ZeroForces | lennard_jones.c:87-97 | every entry of the matrix is zero |
| LegacyLennardJones.Bare | lennard_jones.c:7-62 | returns a fresh evaluator holding BareForces(p) and BareEnergy(p) |
| LegacyLennardJones.Periodic | lennard_jones.c:73-150 | returns a fresh evaluator holding PeriodicForces and PeriodicEnergy over the first n translations |
| Momentum.DegreesOfFreedom | src/velocity_verlet.c:103 | 3N - 3 computed in uint64_t: the result always fits in 64 bits |
| Momentum.DegreesOfFreedomValue | src/velocity_verlet.c:103 | for N ≥ 1 the degrees of freedom are 3N - 3 |
| Momentum.DegreesOfFreedomWraps | src/velocity_verlet.c:103 | for N = 0 the subtraction wraps to 2⁶⁴ - 3 |
| Momentum.Norm2 | src/velocity_verlet.c:38 | the squared norm of a moment is non-negative |
| Momentum.SquareSumStep | src/velocity_verlet.c:36-39 | the accumulator after n+1 particles is the one after n plus that particle's squared norm |
| Momentum.SquareSumNonNegative | src/velocity_verlet.c:36-39 | the sum of squared norms is non-negative |
| Momentum.KineticEnergy | src/velocity_verlet.c:34-41 | the kinetic energy is non-negative |
| Momentum.Temperature | src/velocity_verlet.c:44 | the kinetic energy divided by N_DL·R_CONSTANT |
| Momentum.Norm2Scaled | src/velocity_verlet.c:63-65 | scaling a moment by r scales its squared norm by r² |
| Momentum.SquareSumScaled | src/velocity_verlet.c:61-66 | scaling every moment by r scales the sum of squared norms by r² |
| Momentum.KineticEnergyScaled | src/velocity_verlet.c:61-66 | scaling every moment by r scales the kinetic energy by r² |
| Momentum.TemperatureScaled | src/velocity_verlet.c:44 | scaling every moment by r scales the temperature by r² |
| Momentum.Rapport | src/velocity_verlet.c:59 | sqrt(N_DL·R_CONSTANT·T₀ / kinetic energy) |
| Momentum.Recalibrate | src/velocity_verlet.c:59-66 | every moment scaled by the rapport |
| Momentum.RecalibratedTemperature | src/velocity_verlet.c:52-70 | the rapport is positive, and after first_recalibration the temperature is exactly T₀ |
| Momentum.ScaledSum | src/velocity_verlet.c:61-66 | scaling every moment by r scales the total momentum by r |
| Momentum.ScaledSumZero | src/velocity_verlet.c:61-66 | scaling keeps a zero total momentum zero |
| Momentum.CentredSumZero | src/velocity_verlet.c:72-98 | after second_recalibration the total momentum is zero |
| Momentum.Mean | src/velocity_verlet.c:81-90 | the total moment divided by the number of particles |
| Momentum.Centred | src/velocity_verlet.c:81-97 | every moment less the mean moment |
| Momentum.MeanScaled | src/velocity_verlet.c:81-90 | the mean moment of the scaled moments is the scaled mean |
| Momentum.CentredScaled | src/velocity_verlet.c:72-98 | centring commutes with scaling |
| Momentum.ShiftedScaled | src/velocity_verlet.c:92-97 | shifting commutes with scaling when the shift is scaled too |
| Momentum.CentredRecalibratedEnergy | src/velocity_verlet.c:133-135 | if the centred draws have positive kinetic energy, so do the recalibrated, centred moments, so the last recalibration is defined |
| Momentum.InitialisedAtRest | src/velocity_verlet.c:132-135 | after the three passes the temperature is T₀ and the total momentum is zero |
| Momentum.SampledComponentRange | src/velocity_verlet.c:10 | a sampled component is c or -c, lies in [-1, 1], and is negative exactly when s > 0.5 and c > 0 |
| Momentum.SignFunction | src/velocity_verlet.c:10 | sign_function(x, y): -x when y < 0, else x |
| Momentum.SampledComponent | src/velocity_verlet.c:117-129 | one component: sign_function(1, 0.5 - s)·c |
| Momentum.Kick | src/velocity_verlet.c:161-166 | every moment less DT·FORCE_CONVERSION·sum_i[i]·0.5, component by component |
| Momentum.KickTotal | src/velocity_verlet.c:161-166 | a half kick changes the total momentum by -DT·FORCE_CONVERSION·(total force)/2 |
| Momentum.KickConservesMomentum | src/velocity_verlet.c:161-166 | a half kick with zero total force leaves the total momentum unchanged |
| Momentum.DriftTotal | src/velocity_verlet.c:169-174 | the drift moves the sum of positions by DT·(total momentum)/M_I |
| Momentum.Drift | src/velocity_verlet.c:169-174 | every position plus DT·p/M_I, component by component |
| Momentum.DriftKeepsCentre | src/velocity_verlet.c:169-174 | with zero total momentum, the drift keeps the sum of positions |
| Momentum.ThermostatIsScaling | src/velocity_verlet.c:194-203 | the thermostat rescales every moment by the same factor 1 + γ(T/T₀ - 1) |
| Momentum.Damped | src/velocity_verlet.c:199 | one component p plus p·GAMMA·(T/T₀ - 1) |
| Momentum.Thermostat | src/velocity_verlet.c:197-202 | every component of every moment damped |
| Momentum.DampedMoment | src/velocity_verlet.c:199-201 | one moment under the thermostat is that moment scaled by the factor |
| Momentum.DampedIsScaling | src/velocity_verlet.c:199 | one component under the thermostat is that component times the factor |
| Momentum.ThermostatAtTarget | src/velocity_verlet.c:199-201 | at T = T₀ the thermostat leaves every moment unchanged |
| Momentum.ThermostatTemperature | src/velocity_verlet.c:194-203 | the thermostat multiplies the temperature by the square of the factor |
| Momentum.ThermostatKeepsRest | src/velocity_verlet.c:194-203 | the thermostat keeps a zero total momentum zero |
| VelocityVerlet.Ket.constructor | src/velocity_verlet.c:18-27 | kinetic energy and temperature start at zero |
| VelocityVerlet.Ket.Compute | src/velocity_verlet.c:29-45 | the ket gets the kinetic energy of the moments and the temperature for nDl degrees of freedom |
| VelocityVerlet.FirstRecalibration | src/velocity_verlet.c:52-70 | the moments become the recalibrated moments, all scaled by the common rapport; with a true square root their temperature is T₀ (Momentum.RecalibratedTemperature) |
| VelocityVerlet.ScaleMoments | src/velocity_verlet.c:61-66 | every moment is multiplied by r |
| VelocityVerlet.SecondRecalibration | src/velocity_verlet.c:72-98 | the moments become the centred moments, whose total is zero |
| VelocityVerlet.TotalMoment | src/velocity_verlet.c:74-86 | returns the sum of all moments |
| VelocityVerlet.ShiftMoments | src/velocity_verlet.c:92-97 | every moment has m subtracted from it |
| VelocityVerlet.InitVelocityVerlet | src/velocity_verlet.c:100-138 | nDl is 3N - 3; the fresh moments are the draws after the three passes; their temperature is T₀ and their total momentum is zero |
| VelocityVerlet.SampleMoments | src/velocity_verlet.c:106-130 | returns a fresh array whose entry i is built from draws 6i .. 6i+5 with sign_function |
| VelocityVerlet.EvaluateForces | src/velocity_verlet.c:151-158 | the evaluator holds the bare forces, or the periodic forces over the 27 translations when `periodical` is set |
| VelocityVerlet.KickMoments | src/velocity_verlet.c:160-166 | the moments receive a half kick from sum_i |
| VelocityVerlet.DriftPositions | src/velocity_verlet.c:168-174 | the positions drift by DT·p/M_I |
| VelocityVerlet.Step | src/velocity_verlet.c:145-192 | positions and moments become the velocity-Verlet step of the old ones, and the evaluator holds the forces at the new positions |
| VelocityVerlet.BareStepConservesMomentum | src/velocity_verlet.c:145-192 | with the bare evaluator, one step keeps the total momentum and moves the sum of positions by DT·(total momentum)/M_I |
| VelocityVerlet.Berendsen | src/velocity_verlet.c:194-203 | the moments become the thermostat image of the old moments at the ket's temperature |
| Prototype.Word | main.c:42-53 | the first word is the longest space-free prefix; it is non-empty when the line starts with a non-space |
| Prototype.Tokens | main.c:42-53 | the maximal runs of non-space characters of a line, left to right: what successive strtok calls return |
| Prototype.TokensWellFormed | main.c:42-53 | every token is non-empty and holds no space |
| Prototype.TokensCoverLine | main.c:42-53 | the tokens put together are the line with its spaces removed |
| Prototype.WordNonSpaces | main.c:42-53 | the non-space characters of a line are its first word followed by those after it |
| Prototype.Strtok | main.c:45-47 | returns no token exactly when none is left; otherwise the next token and the position after it |
| Prototype.SkipSpaces | main.c:45-47 | skips delimiters up to the next non-space or the end without changing the tokens that remain |
| Prototype.TokenEnd | main.c:45-47 | scans from a non-space to the next space or the end; the span is the word at that position |
| Prototype.WordSpan | main.c:45-47 | a non-space run ending at a space or at the end of the line is the word there |
| Prototype.Pow | main.c:122-124 | pow(x, k) for a whole exponent k, as k factors x |
| Prototype.Distance | main.c:119-127 | compute_distance_3D: sqrt of the sum of the squared coordinate differences |
| Prototype.Coefficient | main.c:146-149 | u_ij of the prototype: with rd = R/distance, -48·EPSILON·(rd¹² - 2·rd⁶) |
| Prototype.ProtoPairForce | main.c:152-154 | the pair force the prototype writes at (i, j): u_ij times p_i - p_j |
| Prototype.ProtoForces | main.c:141-170 | the prototype's matrix: the pair force at i < j, the same value copied at j > i, zero on the diagonal |
| Prototype.ProtoEnergy | main.c:160-172 | the sum over i < j of fx + fy + fz, times 4 |
| Prototype.GetField | main.c:42-53 | returns token num (counting from 1) when 1 ≤ num ≤ the token count; otherwise NULL, including num = 0, where the uint64_t counter wraps around |
| Prototype.DistancePositive | main.c:119-127 | the distance is the square root of the squared distance and is positive between separated particles |
| Prototype.PowTwo | main.c:122-124 | pow(x, 2) is square(x) |
| Prototype.ProtoForcesSymmetric | main.c:152-169 | the prototype's matrix is symmetric (the mirror copies without negating) with a zero diagonal |
| Prototype.ProtoForcesTarget | main.c:141-170 | each pair i < j gets the prototype pair force at (i, j) and the same value at (j, i), and the diagonal is zero |
| Prototype.GetForces | main.c:129-176 | returns a fresh N×N matrix equal to the prototype's force matrix, and energy = 4 × the sum over i < j of fx + fy + fz |
| Prototype.FillRows | main.c:141-170 | every row is filled as described, and the energy is the sum over i < j of the component sums |
| Prototype.FilledRows | main.c:141-170 | a fully filled array reads back as the target matrix |
| Prototype.FillRow | main.c:143-169 | one row pass fills row i and column i and adds the component sums of pairs j > i |
| Prototype.StorePair | main.c:145-163 | writes the pair force at (i, j) and the copy at (j, i), and adds fx + fy + fz to the energy |
| Prototype.CheckForces | main.c:188-235 | returns 1 iff some particle's row sum exceeds 1e-3 in absolute value in some component, and 0 otherwise |
| Prototype.RowTotal | main.c:195-208 | returns the sum of row i |
| Prototype.SqrtOne | main.c:126 | a square root of 1 is 1 |
| Prototype.CoefficientAtUnitDistance | main.c:146-149 | at distance 1 the prototype's coefficient is -5087836.8 |
| Prototype.UnitSquareDistance | main.c:119-127 | the positions (0,0,0) and (1,0,0) are at squared distance 1 |
| Prototype.PairSeparated | main.c:145-146 | two positions at a non-zero distance form a separated system |
| Prototype.PairForceAtUnitDistance | main.c:145-154 | at unit distance the pair force is -5087836.8 times the separation |
| Prototype.UnitPairMatrix | main.c:141-170 | for two particles at unit distance the matrix holds the same force at (0,1) and (1,0) |
| Prototype.LargeComponent | main.c:119-127 | at unit distance some coordinate differs by at least 0.5 |
| Prototype.LargeScaled | main.c:211-223 | -5087836.8 times a difference of at least 0.5 exceeds the tolerance |
| Prototype.MirroredForcesUnbalanced | main.c:156-158 | for two particles at unit distance both rows sum to the same non-zero force F and the total force is 2F rather than zero; the first row exceeds the tolerance, as it would with the negated copy too |
| Prototype.NegatedMirrorStillFlagged | main.c:188-235 | with the negated copy the rows sum to F and -F and the total is zero, yet check_forces still flags the first row; only the second row and the total differ from the as-written matrix |
| Prototype.VecSumPair | main.c:203-208 | the sum of a two-entry row is the sum of its entries |

## Left out

- I/O, parsing of the particle file (`get_particles`, `src/io.c`), timing, printing and every `free_*` routine are not modelled. The prototype's `main` is not modelled either.
- Memory allocation and alignment (`aligned_alloc`, `ALIGN`) become `new` arrays and fresh objects.
- Floating point: doubles are reals. Rounding, NaN and infinities are not modelled. Where the source would divide by zero, the model requires that no such case arises:
  - coincident particles (`Separated`, `ImagesSeparated`);
  - zero kinetic energy (`KineticEnergy(...) > 0.0`);
  - zero degrees of freedom (`nDl > 0`);
  - no particles in `VelocityVerlet.SecondRecalibration` (`km.Length > 0`), where the mean divides by N_PARTICLES_TOTAL.
- `sqrt` and `pow` are not defined here. `sqrt` is a parameter constrained by `IsSqrt`, and `pow` with a whole exponent is the product `Pow`.
- `rand`, `srand` and `time` are not modelled. The random values are the parameter `draws`, each assumed to be rand()/RAND_MAX.
- `CLASSICAL`/`PERIODICAL` compile-time switches: the model has a `periodical` flag instead. With `periodical` false it evaluates the bare forces, as both the `CLASSICAL` build and the default build do.
- `GAMMA` is a parameter `gamma` of `VelocityVerlet.Berendsen`, because none of the headers shown defines it.
- MPI decomposition: N_PARTICLES_LOCAL and N_PARTICLES_TOTAL are both the number of particles N, as with LOCAL_EQUAL_TOTAL.
- `N_DL` is a global variable in the source. The model passes it as `nDl`, and `InitVelocityVerlet` returns the value it sets.
- `src/velocity_verlet.h` and `src/main.c` use a one-argument `compute_kinetic_energy_and_temperature` that returns a new ket. The definition in `src/velocity_verlet.c` takes a ket and fills it. The model follows that definition (`VelocityVerlet.Ket.Compute`).
- `VelocityVerlet.Step`: requires that the positions before and after the drift can be evaluated (no coincident particles or images). The source does not check this and would produce non-finite forces.
- `VelocityVerlet.InitVelocityVerlet`: requires that the drawn moments, and the same moments centred, have positive kinetic energy. It also requires N ≥ 1. Otherwise the source divides by zero.
- The prototype in `main.c` fixes N_PARTICLES_TOTAL at 1000. The model works for any number of particles.
- `Prototype.GetField` models `strtok` on an immutable string with an explicit resume position. It does not model the NUL bytes `strtok` writes into the line, or its hidden static state.
- `Prototype.CheckForces` keeps the tolerance 1e-3 as the constant `CHECK_TOLERANCE`; the source declares it as a local.
- The energy printed by `get_forces` is returned instead of printed.
- `ForceField.PeriodicMatchesBare` relates the two evaluators only for the zero translation with every pair in range. For the full 27 images the periodic result is stated as its own sum, not compared with the bare one.

## Findings

| source | as written | input that shows it | evidently intended | confidence | as-written member | corrected member |
|---|---|---|---|---|---|---|
| src/main.c:174 | `abs_double(plj->sum->fx + plj->sum->fy + plj->sum->fz)` expands to `(fx + fy + fz < 0.0 ? -fx + fy + fz : fx + fy + fz)`, because the macro in src/helper.h:31 does not parenthesise its argument | fx = 1, fy = -3, fz = 0 gives -4 | the absolute value of the sum, 2 | high; not executed | Helper.AbsDoubleOfSumNotAbsolute | Helper.AbsDouble |
| main.c:156-158 | `get_forces` copies f[i][j] to f[j][i] without negating it | two particles at (0,0,0) and (1,0,0) (unit distance, see Prototype.UnitSquareDistance): both rows sum to F = (5087836.8, 0, 0), so the total force is 2F = (10175673.6, 0, 0) instead of zero, and row 1 sums to +F instead of -F. `check_forces` in main.c:188-235 tests each row on its own, so it reports an error with the negated copy as well (Prototype.NegatedMirrorStillFlagged) | f[j][i] = -f[i][j], as in src/lennard_jones.c:121-123, so the forces cancel | high; not executed | Prototype.MirroredForcesUnbalanced | ForceField.BareTotalForceZero |
