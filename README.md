# vawt-cpp core, modelled in Dafny

This project models vawt-cpp, a solver for vertical-axis wind turbines. It
uses the double-multiple-streamtube method: the rotor disc is cut into `n`
streamtubes, and each upstream/downstream pair of tubes is solved for its
induction factor `a`. The model covers three layers and proves properties
about each.

- **The aerofoil data builder** (`vawt/aerofoil.cpp`, module `AerofoilData`).
  - Polar rows are kept sorted by Reynolds number through binary-search
    insertion. A duplicate key is refused.
  - Each row can get a finite-aspect-ratio rewrite:
    - a scan for the stall index;
    - the Lanchester-Prandtl correction of the samples before it;
    - truncation, then Viterna-Corrigan samples at whole degrees.
  - All rows are resampled onto the sorted, deduplicated union of their angles.
  - Two sentinel rows are added, at Reynolds number 0 and at the largest
    double. Then everything is flattened into four parallel columns.
  - The builder is a class whose `data` field `AddData`/`LoadData` update in
    place. The procedures are methods proved equal to specification
    functions, and lemmas give those functions' shape.
- **One streamtube** (`vawt/streamtube.hpp`, `vawt/streamtube.cpp`,
  `vawt/private_stuff.hpp`, modules `Rotation` and `StreamTubes`).
  - The velocity triangle: `rot_vec`, vector difference, `c_0`, `c_1_vec`,
    `w_vec`, `w_alpha_re`.
  - The foil thrust and the momentum/Glauert thrust laws.
  - The 10-step clamped fixed-point fallback.
  - The bisection on [-2, 2], with its bracket invariant and a termination
    measure.
- **The rotor** (`vawt/vawt.hpp`, `vawt/vawt.cpp`, module `Rotor`).
  - The fluent `VAWTSolver` class, its defaults, and the streamtube count
    rounded up to even in 32-bit unsigned arithmetic.
  - The position grid `(2k + 1) pi / n`.
  - The in-place pairing `i <-> n - 1 - i` over four arrays, which carries
    the upstream `a` into the downstream `a_0`.
  - The per-pair solve.
  - The torque sum and `c_power = c_torque * tsr`.

Doubles are modelled as `real`. Some things are not defined in the code at
all: `sin`, `cos`, `atan2`, `sqrt`, the 1-D interpolator, `Aerofoil::cl_cd`
and `ClCd::to_tangential`/`to_global`. The model passes them in as function
values (`Numerics.Trig`, `AerofoilData.Interp1D`, `StreamTubes.Physics`). A
lemma that needs a trigonometric identity asks for it as a precondition at
the angle in question.

The comment at vawt/aerofoil.cpp:151 says the data above the stall point is
computed for each degree up to 90. Lines 152 and 160-161 do something else:
they place sample `i` at `i` degrees, where `i` is the sample index counted
from `stall_idx + 1`. The loop keeps going while
`i < stall_idx + 91 - floor(stall degrees)`. The model follows the code
(`AerofoilData.TransformedRowShape` states it).

## Model

| member | source | states |
|---|---|---|
| Rotation.RotVec | vawt/private_stuff.hpp:15-18 | definition (no contract): (cos a x + sin(-a) y, sin a x + cos a y) |
| Rotation.RotVecOfOrigin | vawt/private_stuff.hpp:15-18 | rotating the origin gives the origin |
| Rotation.RotVecLinear | vawt/private_stuff.hpp:15-18 | rot_vec is linear: rotating a difference gives the difference of the rotations, componentwise |
| Rotation.RotVecPreservesNorm | vawt/private_stuff.hpp:7-18 | given sin(-a) = -sin a and sin^2 + cos^2 = 1, rot_vec keeps x^2 + y^2 |
| Rotation.RotVecByZero | vawt/private_stuff.hpp:15-18 | given cos 0 = 1 and sin 0 = 0, rotation by 0 is the identity |
| AerofoilData.FirstNotBelow | vawt/aerofoil.cpp:171-173 | the lower-bound position: every key before it is below re; the key at it (if any) is at least re |
| AerofoilData.LowerBound | vawt/aerofoil.cpp:171-173 | the binary search over sorted rows returns exactly the lower-bound position |
| AerofoilData.LowerBoundIsFirstNotBelow | vawt/aerofoil.cpp:171-173 | a position satisfying the lower-bound conditions is unique |
| AerofoilData.InsertAtLowerBound | vawt/aerofoil.cpp:169-175 | inserting at the lower bound keeps sorted rows sorted, adds one row, places it at p, and keeps the old rows in order |
| AerofoilData.InsertedKeepsOthers | vawt/aerofoil.cpp:174 | removing the inserted row gives back the old rows |
| AerofoilData.InsertNewKeyKeepsStrictOrder | vawt/aerofoil.cpp:181-196 | with a key not already present, insertion keeps the keys strictly increasing |
| AerofoilData.ParseRow | vawt/aerofoil.cpp:185-196 | the loaded row has equal column lengths, one sample per parsed line, angles converted from degrees to radians |
| AerofoilData.LanchesterPrandtl | vawt/aerofoil.cpp:55-58 | lift unchanged; drag grows by exactly cl^2/(pi ar) and angle by cl/(pi ar); drag never falls for ar > 0 |
| AerofoilData.CdMax | vawt/aerofoil.cpp:68-73 | 2.01 above aspect ratio 50, else 1.1 + 0.018 ar; within [1.1, 2.01] for ar >= 0 |
| AerofoilData.ViternaCorrigan | vawt/aerofoil.cpp:67-78 | the synthesised sample sits at the requested angle |
| AerofoilData.ViternaCorriganMatchesStall | vawt/aerofoil.cpp:74-77 | at the stall angle the extrapolation gives back the stall sample (given non-zero sin and cos and the double-angle identity) |
| AerofoilData.FirstDrop | vawt/aerofoil.cpp:137-142 | the scan returns the first index whose lift exceeds the next one, or none when lift never drops |
| AerofoilData.StallIndexCharacterised | vawt/aerofoil.cpp:137-148 | the stall index found is exactly the first strict drop, and none is found exactly when lift never decreases |
| AerofoilData.PostStallBound | vawt/aerofoil.cpp:152 | definition (no contract): len = s + 91 - floor(corrected stall angle in degrees) |
| AerofoilData.LengthFits | vawt/aerofoil.cpp:152-158 | definition (no contract): len >= 0, the case in which reserve(len) does not throw std::length_error |
| AerofoilData.Rewritable | vawt/aerofoil.cpp:137-158 | definition (no contract): the lift drops somewhere and the post-stall bound at that stall index is non-negative |
| AerofoilData.TransformedRow | vawt/aerofoil.cpp:149-166 | definition (no contract): samples 0..s corrected, then Viterna-Corrigan samples at s + 1, s + 2, ... degrees up to len |
| AerofoilData.TransformRowSpec | vawt/aerofoil.cpp:129-167 | definition (no contract): the asymmetric-profile error, the missing-stall error, the reserve length error, or the rewritten row |
| AerofoilData.TransformedRowShape | vawt/aerofoil.cpp:149-166 | the rewritten row keeps its key and has equal columns of length s + 1 + max(0, 90 - floor(stall deg)); index 0 is kept verbatim; lift is kept up to s and drag does not fall (ar > 0); sample j > s sits at j degrees and is the Viterna-Corrigan sample anchored at the corrected stall |
| AerofoilData.TransformRowSpecShape | vawt/aerofoil.cpp:129-158 | one row is rewritten iff the profile is symmetric, its lift drops somewhere and the post-stall bound is non-negative; otherwise the first failing check names the error (asymmetric, no stall, length); the result keeps the key and equal column lengths |
| AerofoilData.SteepStallRowThrows | vawt/aerofoil.cpp:152-158 | a symmetric row stalling at 95 degrees at index 0 gives len = -4, and transform_row fails with the length error |
| AerofoilData.TransformRowsSucceeds | vawt/aerofoil.cpp:121-158 | rewriting all rows succeeds iff there are no rows, or the profile is symmetric and every row has a stall index with a non-negative post-stall bound |
| AerofoilData.TransformRows | vawt/aerofoil.cpp:121-126 | definition (no contract): transform_row applied to the rows in order; the first error wins |
| AerofoilData.TransformedSetSpec | vawt/aerofoil.cpp:112-127 | definition (no contract): the data unchanged when the correction is off or the aspect ratio is at least 98, otherwise every row rewritten |
| AerofoilData.TransformRowsRowwise | vawt/aerofoil.cpp:121-126 | on success there are as many output rows as input rows, and row i is the rewrite of input row i |
| AerofoilData.TransformRowsShape | vawt/aerofoil.cpp:121-126 | on success: same row count, order and keys; every row well formed and equal to its transformed row |
| AerofoilData.TransformRowsFailurePersists | vawt/aerofoil.cpp:122-125 | once a prefix of rows throws, the whole rewrite fails with that same error |
| AerofoilData.TransformedSetKeepsKeys | vawt/aerofoil.cpp:112-127 | data returned unchanged when correction is off or ar >= 98; otherwise on success the same number of rows with the same keys and equal columns |
| AerofoilData.InsertUnique | vawt/aerofoil.cpp:92-94 | inserting into a strictly increasing sequence keeps it strictly increasing, and the values are the old ones plus x |
| AerofoilData.SortedUnique | vawt/aerofoil.cpp:92-94 | sort + unique + erase: strictly increasing, and exactly the values of the input |
| AerofoilData.AllAlphas | vawt/aerofoil.cpp:86-91 | the gathered angles are exactly those present in some row |
| AerofoilData.Grid | vawt/aerofoil.cpp:86-94 | definition (no contract): the sorted, duplicate-free angles of all rows |
| AerofoilData.Resampled | vawt/aerofoil.cpp:96-109 | definition (no contract): every row interpolated onto the common grid |
| AerofoilData.ResampledShape | vawt/aerofoil.cpp:85-110 | after resampling every row has the same strictly increasing grid, made of exactly the angles some row had; cl and cd have its length; row count and keys unchanged |
| AerofoilData.Flattened | vawt/aerofoil.cpp:212-223 | definition (no contract): the rows' samples concatenated into four columns, each tagged with its row's key |
| AerofoilData.FlattenedSize | vawt/aerofoil.cpp:212-223 | flattening rows of g samples gives four columns of rows * g entries |
| AerofoilData.FlattenedEntry | vawt/aerofoil.cpp:212-223 | flat entry b*g + j is sample j of row b, tagged with row b's key |
| AerofoilData.BuildFromShape | vawt/aerofoil.cpp:204-223 | four columns of (rows + 2) * grid entries; block 0 is the lowest resampled row with key 0, the last block the highest with key max double, the blocks between the rows in order at the grid angles |
| AerofoilData.BuildSpec | vawt/aerofoil.cpp:200-225 | definition (no contract): the rewrite's error, or the resampled rows between sentinel copies keyed 0 and DBL_MAX, flattened |
| AerofoilData.BuildShape | vawt/aerofoil.cpp:200-224 | build succeeds iff the rewrite does; the result then has the shape above in terms of the input keys |
| AerofoilData.ResampleSet | vawt/aerofoil.cpp:85-110 | the gathering and per-row interpolation loops compute the resampled data set |
| AerofoilData.FlattenRows | vawt/aerofoil.cpp:213-223 | the push_back loops compute the flat columns |
| AerofoilData.CorrectPreStall | vawt/aerofoil.cpp:137-148 | the scan returns the stall index (or none) and leaves samples 0..stall equal to their Lanchester-Prandtl corrected values (index 0 untouched) |
| AerofoilData.ExtendPostStall | vawt/aerofoil.cpp:149-166 | a negative post-stall bound gives the reserve length error; otherwise the row becomes exactly the transformed row |
| AerofoilData.PushPostStall | vawt/aerofoil.cpp:153-166 | truncation plus the post-stall push_back loop yields exactly the transformed row |
| AerofoilData.AerofoilBuilder.constructor | vawt/aerofoil.hpp:69-73 | an empty builder, asymmetric, with infinite aspect ratio and the correction off |
| AerofoilData.AerofoilBuilder.SetAspectRatio | bench.cpp:16 | sets only the aspect ratio and returns the same builder |
| AerofoilData.AerofoilBuilder.UpdateAspectRatio | bench.cpp:17 | sets only the correction flag and returns the same builder |
| AerofoilData.AerofoilBuilder.Symmetric | bench.cpp:18 | sets only the symmetry flag and returns the same builder |
| AerofoilData.AerofoilBuilder.AddData | vawt/aerofoil.cpp:169-175 | the row is inserted at the lower bound in place: still sorted, one longer, old rows in their order |
| AerofoilData.AerofoilBuilder.LoadData | vawt/aerofoil.cpp:177-198 | a duplicate key fails and leaves the data unchanged; otherwise the parsed row is inserted at the lower bound; keys stay strictly increasing |
| AerofoilData.AerofoilBuilder.TransformRow | vawt/aerofoil.cpp:129-167 | asymmetric profile, missing stall and a negative post-stall bound (reserve's std::length_error) are the three errors; otherwise the rewritten row |
| AerofoilData.AerofoilBuilder.TransformedSet | vawt/aerofoil.cpp:112-127 | returns the transformed-set specification; the builder's data is not modified (no modifies clause) |
| AerofoilData.AerofoilBuilder.Build | vawt/aerofoil.cpp:200-225 | returns the build specification (rewrite, resample, sentinels, flatten) without modifying the builder |
| StreamTubes.FromTangential | vawt/streamtube.cpp:12-15 | definition (no contract): rot_vec of (x, y) by theta as a velocity |
| StreamTubes.ToFoil | vawt/streamtube.cpp:18-20 | definition (no contract): rot_vec of the velocity by -theta - beta |
| StreamTubes.Minus | vawt/streamtube.hpp:82-84 | velocity subtraction is componentwise |
| StreamTubes.ToFoilOfDifference | vawt/streamtube.cpp:18-20 | the change to the foil frame commutes with subtraction |
| StreamTubes.ToFoilKeepsMagnitude | vawt/streamtube.cpp:18-24 | given the rotation identities at -theta - beta, the speed in the foil frame is the global speed |
| StreamTubes.C0 | vawt/streamtube.hpp:70 | c_0 = 1 - 2 a_0 |
| StreamTubes.C1Vec | vawt/streamtube.hpp:95-97 | the wind at the foil has no x part, is zero at a = 1, and points along -y for a < 1 and c_0 > 0 |
| StreamTubes.WVec | vawt/streamtube.hpp:106-109 | definition (no contract): c_1 minus the blade velocity from_tangential(0, tsr, theta) |
| StreamTubes.WVecComponents | vawt/streamtube.hpp:106-109 | w = c_1 - rot(0, tsr, theta) = (tsr sin theta, -c_0 (1 - a) - tsr cos theta) |
| StreamTubes.WVecAtFullStop | vawt/streamtube.hpp:95-109 | at a = 1 the relative speed is the blade speed: \|w\|^2 = tsr^2 |
| StreamTubes.WAlphaRe | vawt/streamtube.cpp:26-33 | the local Reynolds number is case.re times the relative speed |
| StreamTubes.CTan | vawt/streamtube.cpp:35-39 | definition (no contract): the tangential coefficient of cl_cd at the tube's alpha and re |
| StreamTubes.IgnoresSolidity | vawt/streamtube.cpp:26-39 | w_alpha_re and c_tan do not depend on the solidity |
| StreamTubes.FoilThrust | vawt/streamtube.cpp:55-62 | definition (no contract): -F_y (w / c_0)^2 solidity / (pi \|sin theta\|), with a zero divisor giving 0 |
| StreamTubes.FoilThrustScaling | vawt/streamtube.cpp:55-62 | with c_0 and sin theta non-zero: thrust times pi\|sin theta\| equals -Fy (w/c_0)^2 solidity; it is 0 at solidity 0, and positive iff Fy < 0 for positive solidity and w != 0 |
| StreamTubes.WindThrust | vawt/streamtube.cpp:64-70 | definition (no contract): 4a(1 - a) below 0.4, 26/15 a + 4/15 from 0.4 on |
| StreamTubes.WindThrustJoins | vawt/streamtube.cpp:64-70 | both branches give 0.96 at a = 0.4, and the line reaches 2 at a = 1 |
| StreamTubes.WindThrustMonotone | vawt/streamtube.cpp:64-70 | the thrust law never decreases in a |
| StreamTubes.WindThrustRange | vawt/streamtube.cpp:64-70 | on [0, 1] the thrust coefficient is in [0, 2] |
| StreamTubes.ThrustError | vawt/streamtube.hpp:28-30 | definition (no contract): foil thrust minus wind thrust |
| StreamTubes.StricklandClamp | vawt/streamtube.cpp:41-53 | every update is at most 1; there is no lower clamp (negative thrust at a = 0 gives a negative iterate) |
| StreamTubes.StricklandFixedPointIsRoot | vawt/streamtube.cpp:44-50 | an unclamped fixed point solves 4a(1 - a) = c_s, and below 0.4 is a root of thrust_error |
| StreamTubes.AStrickland | vawt/streamtube.cpp:41-53 | exactly ten clamped updates from 0; the result is at most 1 |
| StreamTubes.HalvingShrinks | vawt/streamtube.cpp:82-83 | halving a bracket wider than epsilon lowers the termination measure |
| StreamTubes.ProductSign | vawt/streamtube.cpp:79-86 | the product test x * y <= 0 holds iff x and y do not share a strict sign |
| StreamTubes.BisectKeepsSignChange | vawt/streamtube.cpp:82-93 | from a sign-change bracket, bisection ends inside it with a sign-change sub-bracket no wider than epsilon |
| StreamTubes.SolveABracket | vawt/streamtube.cpp:72-95 | same-sign ends give the fallback; otherwise the result is in [-2, 2], within epsilon/2 of both ends of a final bracket across which the residual changes sign |
| StreamTubes.SolveA | vawt/streamtube.cpp:72-95 | solve_a returns the specification: the a_strickland value or the bisection midpoint |
| StreamTubes.BisectionLoop | vawt/streamtube.cpp:82-94 | the while loop keeps -2 <= lo < hi <= 2, the cached residuals and a sign change, terminates for epsilon > 0, and returns the midpoint of the bisection bracket |
| StreamTubes.SolutionAgreesWithTube | vawt/streamtube.hpp:143-199 | the accessors return the stored a, a_0, beta and theta; w, alpha and re are the w_alpha_re triple, and re = w * case.re |
| Rotor.RoundUpToEven | vawt/vawt.hpp:60-65 | definition (no contract): n + 1 modulo 2^32 for odd n, n otherwise |
| Rotor.RoundUpToEvenProperties | vawt/vawt.hpp:60-65 | the stored count is even and at most n + 1; an even n is kept, an odd n raised by one, the largest uint wraps to 0 |
| Rotor.ThetaAt | vawt/vawt.cpp:34-45 | definition (no contract): position k is (2k + 1) pi / n, a zero count giving 0 |
| Rotor.ThetaInRange | vawt/vawt.cpp:34-45 | every position (2k + 1) pi / n lies in (0, 2 pi) |
| Rotor.ThetaIncreasing | vawt/vawt.cpp:34-45 | the positions strictly increase |
| Rotor.ThetaPairSum | vawt/vawt.cpp:49-53 | the positions of a pair add up to 2 pi |
| Rotor.PairingCoversAll | vawt/vawt.cpp:49-50 | for even n, i <-> n - 1 - i maps the upstream half one-to-one onto the downstream half |
| Rotor.AfterStep | vawt/vawt.cpp:57-61 | storing pair i changes indices i and n - 1 - i and nothing else |
| Rotor.MappedSolution | vawt/vawt.cpp:30-65 | definition (no contract): the positions and, for each upstream index i < n / 2, the pair results stored at i and n - 1 - i with a_0[n - 1 - i] = a[i] |
| Rotor.MappedSolutionShape | vawt/vawt.cpp:30-65 | four arrays of length n; positions on the grid; for each pair the four values solve_fn returned; a_0 is 0 upstream and the upstream a downstream |
| Rotor.SolvePair | vawt/vawt.cpp:17-28 | each tube pitched at its own position; the upstream tube solved with a_0 = 0, the downstream one with a_0 = a_up |
| Rotor.SolvePairAsWritten | vawt/vawt.cpp:20-21 | as written, the downstream pitch is the pitch function at an indeterminate value |
| Rotor.SolvePairAsWrittenWrongPitch | vawt/vawt.cpp:21 | for beta(x) = x the as-written downstream pitch differs from the intended one |
| Rotor.ConstantPitchUnaffected | vawt/vawt.cpp:13-21 | for a constant pitch the as-written and intended pair solves agree |
| Rotor.PitchedSolution | vawt/vawt.cpp:17-65 | for an even count every tube is pitched at its own position; each upstream tube is solved with a_0 = 0 and each downstream one with its partner's a as a_0 |
| Rotor.ConstantPitchSolution | vawt/vawt.cpp:13-28 | solve(beta) stores beta everywhere; upstream tubes are solved with a_0 = 0, downstream ones with their partner's a |
| Rotor.NewSolution | vawt/vawt.hpp:147-151 | definition (no contract): the constructor storing every argument, the count included (corrected; see Findings) |
| Rotor.NewSolutionAsWritten | vawt/vawt.hpp:147-151 | definition (no contract): the constructor as written: every argument stored except the count, which holds an indeterminate value |
| Rotor.NewSolutionKeeps | vawt/vawt.hpp:147-151 | the constructor keeps the case, theta, beta, a, a_0 and epsilon; epsilon() returns the stored accuracy (corrected; see Findings) |
| Rotor.TorqueSum | vawt/vawt.cpp:80-89 | definition (no contract): the sum of c_tan w^2 over the first k stored samples |
| Rotor.CTorqueSpec | vawt/vawt.cpp:79-91 | definition (no contract): solidity times the sum of c_tan w^2 divided by the stored count, a zero count giving 0 |
| Rotor.TorqueSumIgnoresSolidity | vawt/vawt.cpp:81-89 | the sum of c_tan w^2 does not depend on the solidity |
| Rotor.SampleTorqueIgnoresSolidity | vawt/vawt.cpp:82-88 | one sample's c_tan w^2 does not depend on the solidity |
| Rotor.CTorqueLinearInSolidity | vawt/vawt.cpp:79-91 | c_torque is the solidity times the unit-solidity torque, so 0 at solidity 0 |
| Rotor.CTorqueOfCounted | vawt/vawt.cpp:79-91 | with the count equal to the number of samples, c_torque = solidity * (sum of c_tan w^2) / samples |
| Rotor.AsWrittenTorqueDiffers | vawt/vawt.cpp:90 | dividing by a stray count different from the real one changes a non-zero torque |
| Rotor.DistinctCounts | vawt/vawt.cpp:90 | same case and non-zero sum, different non-zero counts: different torque coefficients |
| Rotor.CTorque | vawt/vawt.cpp:79-91 | the accumulation loop computes solidity / n times the sum of c_tan w^2 over the stored samples |
| Rotor.CPower | vawt/vawt.hpp:166 | c_power = c_torque * tsr |
| Rotor.VAWTSolver.constructor | vawt/vawt.hpp:14-18 | defaults: 50 streamtubes, tsr 2, re 60 000, solidity 0.1, epsilon 0.01; the aerofoil kept |
| Rotor.VAWTSolver.NStreamtubes | vawt/vawt.hpp:60-65 | stores the count rounded up to even (with uint wrap) and returns the same solver |
| Rotor.VAWTSolver.Tsr | vawt/vawt.hpp:73-76 | changes only the tip-speed ratio and returns the same solver |
| Rotor.VAWTSolver.Re | vawt/vawt.hpp:84-87 | changes only the Reynolds number and returns the same solver |
| Rotor.VAWTSolver.Solidity | vawt/vawt.hpp:95-98 | changes only the solidity and returns the same solver |
| Rotor.VAWTSolver.Epsilon | vawt/vawt.hpp:100-103 | changes only the accuracy and returns the same solver |
| Rotor.VAWTSolver.GetCase | vawt/vawt.cpp:67-69 | the case carries the solver's re, tsr, solidity and aerofoil unchanged |
| Rotor.VAWTSolver.MapStreamtubes | vawt/vawt.cpp:30-65 | the generate and pairing loops over four arrays compute the mapped solution (corrected; see Findings) |
| Rotor.VAWTSolver.Solve | vawt/vawt.cpp:13-15 | constant pitch: the mapped solution of the pair solve with that pitch everywhere, and every stored pitch equals it |
| Rotor.VAWTSolver.SolveWith | vawt/vawt.cpp:17-28 | the mapped solution of the pair solve, each tube pitched at its own position; for an even count, upstream tubes are solved with a_0 = 0 and each downstream one with its partner's a (corrected; see Findings) |

## Left out

- CSV reading and `to_double` (vawt/aerofoil.cpp:38-41, 178-195): this is file I/O. `LoadData` takes the parsed lines as a sequence of `Sample`s.
- Floating point: doubles are `real`.
  - Rounding is not modelled. `Pi` and `MaxDouble` are the exact values of the double constants, and the theta grid is exact.
  - A division by zero, which gives an infinity or a NaN in the source, yields 0 through `Numerics.FDiv`. Some lemmas about a quotient ask for a non-zero divisor (`StreamTubes.FoilThrustScaling`, `Rotor.DistinctCounts`). The torque lemmas below do not; at a zero count they state the model's 0.
- Trigonometry, `sqrt`, `Aerofoil::cl_cd` (with its symmetric folding), `ClCd::to_tangential`/`to_global`, and both interpolators are not defined in the code shown. They are parameters, not definitions, so nothing is proved about their values. The bilinear surfaces built over the flat columns are represented only by those columns.
- `contains_re` is not shown; it is modelled as membership of the key among the row keys.
- The `VAWTSolution` point queries (vawt/vawt.cpp:71-111) are thin wrappers around the 1-D interpolator, so they are not modelled. `StreamTubeSolution` and its accessors are modelled, and `c_torque` is built on them.
- `std::sort` with `std::unique` (vawt/aerofoil.cpp:92-94) is modelled as a function on values, `SortedUnique`. Its contract is the one those calls promise: strictly increasing, with the same set of values.
- Vectors inside rows are `seq` values that are reassigned. `DataPoint` references (vawt/aerofoil.cpp:43-47) become reads and writes of the corresponding sequence elements.
  - `transform_row` has a defect: its `DataPoint stall` refers into vectors that `reserve` may reallocate (vawt/aerofoil.cpp:149-158), so the later reads of the stall sample can go through dangling references. This undefined behaviour is not modelled. The model reads the stall sample before truncating, which is what the code evidently intends.
- `AerofoilData.AerofoilBuilder.TransformRow`: its `int len` (vawt/aerofoil.cpp:152) is an unbounded integer here, so overflow is not modelled.
- `AerofoilData.AerofoilBuilder.Build` requires at least one row. For a builder with no data, `build` calls `front()` and `back()` on an empty deque (vawt/aerofoil.cpp:205-210), which is undefined behaviour, so that case is excluded here.
- `Rotor.VAWTSolver.Solve` and `Rotor.VAWTSolver.SolveWith` require epsilon > 0. Otherwise the bisection need not terminate. The pair solve uses `solve_a` through its specification function `SolveTube`, since a function value cannot run a method; `StreamTubes.SolveA` is proved equal to that specification.
- `AerofoilData.AerofoilBuilder.constructor`: the setters (`set_aspect_ratio`, `update_aspect_ratio`, `symmetric`) are not shown in the code; they are modelled from their use in bench.cpp:16-18. The stale header declares no update flag, so the flag is assumed to start false.
- `StreamTubes.SolveABracket` does not claim a root within epsilon/2. It claims the result is within epsilon/2 of a bracket across which the residual changes sign, because without continuity nothing stronger holds.
- `StreamTubes.FoilThrustScaling` asks for `c_0 != 0` and `sin(theta) != 0`. In those cases the source's quotient is an infinity or a NaN (NaN when the numerator is also 0).
- `Rotor.CTorqueLinearInSolidity`, `Rotor.CTorqueOfCounted` and `Rotor.CTorqueSpec` allow a stored count of 0. That count is reachable through `n_streamtubes(0)` or the wrap at `UINT_MAX`. There the source's `ct * solidity / 0` is an infinity, or a NaN when `ct * solidity` is 0, while the model gives 0. So at that count, "0 at solidity 0" and the proportionality describe the model, not the source.
- `Rotor.VAWTSolver.MapStreamtubes`: `std::generate` accumulates positions by repeated double addition; here that accumulation is exact.
- The drivers and tests (main.cpp, bench.cpp, tests.cpp) are not modelled. Their tolerance check against reference data is a numerical claim.
- `shared_ptr` ownership of the aerofoil is not modelled; the aerofoil is a value.

## Findings

| source | as written | input that shows it | evidently intended | confidence | as-written member | corrected member |
|---|---|---|---|---|---|---|
| vawt/vawt.cpp:21 | `beta_down` is initialised with `beta(beta_down)`, which reads the variable before it has a value | pitch function beta(x) = x, theta_down = 1, stray value 0: the downstream tube is pitched at 0 instead of 1 | `beta(theta_down)`, as in the constant-pitch overload | high (not executed) | Rotor.SolvePairAsWrittenWrongPitch | Rotor.SolvePair |
| vawt/vawt.hpp:147-151 | the `VAWTSolution` constructor's initialiser list skips `n_streamtubes`, which `c_torque` divides by (vawt/vawt.cpp:90) | a solution of 50 samples with a non-zero torque sum and solidity, whose count field holds any other non-zero value: the returned torque differs from solidity * sum / 50 | store the count passed in, which equals the number of samples | high (not executed) | Rotor.AsWrittenTorqueDiffers | Rotor.CTorqueOfCounted |
