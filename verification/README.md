# Verified models of the FHE Mamba planning and certification core

This project models, in Dafny, the exact-arithmetic and discrete parts of the repository: the certifiers that decide
whether a polynomial approximation is safe, the slot programs that compute on encrypted vectors with rotations and
masks only, the planners that schedule such programs, and the algebraic rewrites of the state-space recurrence. Every
file holds one module, named after the component it follows.

* **Certified polynomials.** `Chebyshev`, `Bernstein` and `PolynomialCertificate` give the mathematics and the basis
  conversions. `BernsteinProver` is the rational subdivision prover, sound and, with a margin, complete, and
  `IntegerProver` the integer one, which returns the same verdict on every input; `ProverVerdicts` says what the nodes,
  the depth and the place of a verdict mean. `DissipativeGate` derives the state bound of the recurrence over whole
  runs, `NewtonInitializer` the safe basin of a first guess, and `JointGates` shows that the recursive evaluator with
  its memoised basis computes the same series as the Clenshaw loop within its depth budget; `JointBlocks` finds which
  coefficients make it rescale or refuse.
* **Slot layouts.** `Slots` and `RotationSum` are vectors under cyclic rolls. `BsgsLayout` and `StateLayout` prove the
  rotate/mask/add programs equal to a matrix product, a broadcast and a head expansion, and find the exact geometry in
  which they are. `PackedRouting` does the same for radix routing, `RotationSteps` for signed-digit rotations,
  `RotationBatch` for rotations that share prefixes, and `PackedDiagonals` for the baby/giant choice. `PackedGather`
  and `PackedRepeat` are what the executor runs for a routed node: it moves the right elements, and takes exactly as
  many mask levels as the depth planner charges.
* **Planning.** `PackedProgram` states which programs are accepted. `PackedLifetime` and `PackedSchedule` cover operand
  edges and the ready frontier with epoch barriers; `PackedDepth` covers levels, refreshes, the live set and what the
  greedy search for hoisted refreshes finds, and `PackedGreedy` each decision of a pass. `PackedRefresh` and
  `PackedRefreshLog` say without the simulation when a program needs no refresh, and how many it takes otherwise.
* **Inverse square root.** `Normalization` proves the interval certificate sound and its evaluation orders equal,
  `NormalizationTight` that its intervals are no wider than one rounding step and its refusals real;
  `InverseBound` finds when the public bound on its iterates holds, over recipes of the finite numbers of `Binary64`.
* **Recurrences.** `Scan`, `Mamba3` and `SsmAlgebra` prove a parallel scan, a factored history and deferred rank-one
  updates equal to one sequential dense recurrence.

Floating-point numbers and rationals are real numbers here; a place where the program rounds takes the rounded value
as a parameter, with the inequality the proof needs of it where there is one. An operation that raises an error returns
`None` or an error case.

Where the code and what it promises differ, the code was followed and the exact condition was proved:

* `replicated_state_blocks` equals its dense reference exactly when `group_block >= 2 * state_size`, which its geometry
  check does not ask for (`StateLayout.BroadcastsIffWide`; two states in blocks of two are the smallest failure,
  `StateLayout.NarrowBlocksExample`).
* `shared_grouped_head_expansion` accepts every geometry the direct form accepts but overruns its batch exactly when
  `heads * head_dim > batch` (`StateLayout.SharedGroupedHeadExpansion`; four heads of two slots in a batch of four,
  `StateLayout.OverrunExample`).
* `replicated_matmul` accepts geometries in which it is not the product. It is the product for all matrices of a shape
  exactly when no replica's outputs meet the mask of another replica and every diagonal read is aligned
  (`BsgsLayout.MultipliesIffAligned`, for every geometry). For at most one replica per column the first condition is
  `r == 1` or `m <= window + 1` (`BsgsLayout.SeparateIffStrideHolds`); the second, for any number of replicas, is that
  the windows fill the whole batch or the highest read is a filled slot (`BsgsLayout.ReadsAlignedIff`), which together
  give one closed form (`BsgsLayout.MultipliesIff`). `BsgsLayout.TightWindowFails` breaks only the second condition and
  `BsgsLayout.OverlapFails` only the first.
* `normalization_inverse_bound` steps up once from the rounded reciprocal of a rounded root. The result is safe for
  every certified recipe that can be read exactly when it is not below `1/sqrt(lo)` (`InverseBound.InverseBoundExact`);
  below it, ten Newton stages seeded by a power of two exceed it (`InverseBound.LowRootFails`). One step is not always
  enough: for `lo = 75` it is too low, and a recipe of three Newton stages on [75, 75.25] is certified and exceeds the
  bound (`InverseBound.OneStepTooLow`).
* `certify_bounds` certifies every bound that the polynomial meets with a margin, given enough depth and nodes
  (`BernsteinProver.ProveCompletes`), but not every true bound: no limits certify that `(t - 1/3)^2` is never negative
  (`BernsteinProver.TouchingNeverCertified`).
* A frontier schedule drains exactly when its live set is closed under operands (`PackedSchedule.Drain`; a live set that
  is not closed is in `PackedSchedule.OpenLiveSetStalls`).
* `naf_steps` reports an overflow exactly for inputs above 0x55555555 (`RotationSteps.NafSteps`).
* `chunked_scan` has nothing to concatenate for an empty sequence, so that input is an error (`Scan.ChunkedScan`).

## Model

| member | source | states |
|---|---|---|
| Chebyshev.ProductRule | native/fideslib_stage0/include/stage1_joint_gates.hpp:77-85 | The identity behind every doubling step: 2 T_a T_b = T_(a+b) + T_(a-b), for every real argument. |
| Chebyshev.Pell | src/fhemamba/polynomial_certificate.py:206-229 | T_n squared plus (1 - x^2) times the companion squared is one for every real x, the step that bounds the basis. |
| Chebyshev.SeriesBound | src/fhemamba/polynomial_certificate.py:206-214 | On [-1, 1] a Chebyshev series never exceeds the sum of its absolute coefficients. |
| Chebyshev.NormAttained | src/fhemamba/polynomial_certificate.py:206-214 | That norm is no larger than needed: the series with the same magnitudes and no signs attains it at 1. |
| Bernstein.Linear | src/fhemamba/polynomial_certificate.py:41-49 | A Bernstein value is linear in its coefficients. |
| Bernstein.HullLower | src/fhemamba/polynomial_certificate.py:85-89 | A lower bound on all coefficients bounds the polynomial on [0, 1]. |
| Bernstein.HullUpper | src/fhemamba/polynomial_certificate.py:85-89 | An upper bound on all coefficients bounds the polynomial on [0, 1]. |
| Bernstein.EndpointValue | src/fhemamba/polynomial_certificate.py:90-94 | The end coefficients are exact values of the polynomial. |
| Bernstein.LeftHalfValue | src/fhemamba/polynomial_certificate.py:52-59 | The left half of a midpoint subdivision denotes the polynomial on [0, 1/2]. |
| Bernstein.RightHalfValue | src/fhemamba/polynomial_certificate.py:52-59 | The right half denotes it on [1/2, 1]. |
| Bernstein.BasisChange | src/fhemamba/polynomial_certificate.py:41-49 | Converting power coefficients to Bernstein coefficients keeps the polynomial, at every degree and point. |
| PolynomialCertificate.PolynomialProduct | src/fhemamba/polynomial_certificate.py:16-21 | The in-place double loop returns a list whose polynomial is the product of the two. |
| PolynomialCertificate.ProductValue | src/fhemamba/polynomial_certificate.py:16-21 | Convolving coefficient lists multiplies the values they denote. |
| PolynomialCertificate.ChebyshevUnitPower | src/fhemamba/polynomial_certificate.py:24-38 | The list recurrence returns the power coefficients of the series; it refuses exactly the empty list. |
| PolynomialCertificate.UnitPowerValue | src/fhemamba/polynomial_certificate.py:24-38 | Those power coefficients evaluate to sum c_k T_k(2t - 1) for every real t. |
| BernsteinProver.SubdivideMidpoint | src/fhemamba/polynomial_certificate.py:52-59 | The averaging loop returns both halves of the subdivision. |
| BernsteinProver.CertifyBounds | src/fhemamba/polynomial_certificate.py:62-111 | The work-queue loop returns the verdict of the search specification, counts included, for all limits; the ProverVerdicts rows say what those counts mean. |
| BernsteinProver.SearchSound | src/fhemamba/polynomial_certificate.py:77-111 | A certified search proves every queued segment; a counterexample refutes one of them. |
| BernsteinProver.ProveSound | src/fhemamba/polynomial_certificate.py:62-111 | Certified means the bound holds on all of [0, 1]; a counterexample verdict means some point violates it. |
| BernsteinProver.ProveCounts | src/fhemamba/polynomial_certificate.py:77-111 | Node and depth limits are respected, and a certified run has nodes = 2 * leaves - 1. |
| BernsteinProver.HalvesSmooth | src/fhemamba/polynomial_certificate.py:52-59 | One subdivision halves the differences between neighbouring coefficients, in both halves. |
| BernsteinProver.ProveCompletesAt | src/fhemamba/polynomial_certificate.py:62-111 | That depth is any at which (number of coefficients) * (total coefficient variation) / 2^depth is within the margin. |
| BernsteinProver.ProveCompletes | src/fhemamba/polynomial_certificate.py:62-111 | Completeness: bounds met with a margin on all of [0, 1] are certified by some depth, and by all limits that allow a full tree of that depth. |
| BernsteinProver.TouchingNeverCertified | src/fhemamba/polynomial_certificate.py:77-111 | The margin is needed: (t - 1/3)^2 is never negative, and no limits certify it. |
| ProverVerdicts.RefusedInputs | src/fhemamba/polynomial_certificate.py:62-76 | Exactly the empty polynomial, a negative depth limit, a node limit below one, missing bounds and crossed bounds are refused. |
| ProverVerdicts.RootDecides | src/fhemamba/polynomial_certificate.py:77-103 | One certified node means that all Bernstein coefficients of the interval meet the bounds, and a counterexample at depth 0 that the polynomial breaks them at 0 or 1; both exactly. |
| ProverVerdicts.NodesNeeded | src/fhemamba/polynomial_certificate.py:77-111 | The recorded node count is exact: any node limit from there on gives the very same verdict and any smaller one the refusal at that limit. |
| ProverVerdicts.DepthNeeded | src/fhemamba/polynomial_certificate.py:77-111 | The recorded depth of a certified run is exact: with the same node limit a depth limit certifies if and only if it is at least that depth, and then the verdict is the very same. |
| ProverVerdicts.CounterexampleLies | src/fhemamba/polynomial_certificate.py:77-111 | A counterexample of depth d breaks the bounds at an odd multiple of 2^-d (or at 0), and they hold on all of [0, 1] up to the multiple before it. |
| IntegerProver.LeastCommonMultiple | src/fhemamba/polynomial_certificate.py:138-155 | Returns the positive common multiple that divides every other common multiple. |
| IntegerProver.IntegerPower | src/fhemamba/polynomial_certificate.py:140-152 | The integer list recurrence is the rational power form over one denominator. |
| IntegerProver.IntegerBernstein | src/fhemamba/polynomial_certificate.py:153-160 | The integer Bernstein coefficients are the rational ones over one denominator. |
| IntegerProver.SplitIntegers | src/fhemamba/polynomial_certificate.py:187-196 | One integer subdivision is the rational one with the divisor scaled by 2^degree. |
| IntegerProver.HullMeans | src/fhemamba/polynomial_certificate.py:169-178 | Cross-multiplied tests of the extreme and end integers are the rational hull and endpoint tests. |
| IntegerProver.SearchIntegers | src/fhemamba/polynomial_certificate.py:160-203 | The integer queue loop returns the rational search's verdict, by a shared-denominator invariant on the queue. |
| IntegerProver.CertifyChebyshevBounds | src/fhemamba/polynomial_certificate.py:114-203 | For every input and limits the integer prover returns the verdict, node count, leaves and depth of the rational prover on the same series, so that the ProverVerdicts rows hold of them too. |
| IntegerProver.ChebyshevVerdictSound | src/fhemamba/polynomial_certificate.py:114-203 | That verdict is about the series itself: certified bounds hold for every t in [0, 1], and a counterexample is a real violation. |
| IntegerProver.ChebyshevCompletes | src/fhemamba/polynomial_certificate.py:114-203 | A series that keeps a margin inside its bounds on the whole interval is certified by all large enough limits. |
| DissipativeGate.Clenshaw | src/fhemamba/selective_gates.py:126-132 | The Clenshaw loop returns sum c_k T_k(t), for every coefficient list and argument. |
| DissipativeGate.EvaluateGate | src/fhemamba/selective_gates.py:113-135 | Write and decay are p^2 q^2 and 1 - p^2 of the two series at the position x whose image under the affine map of [-1, 1] onto the domain is the argument, in or outside the domain. |
| DissipativeGate.NormalizeInverts | src/fhemamba/selective_gates.py:124 | Normalising inverts the affine map that sends -1 to lo and 1 to hi, so lo goes to -1 and hi to 1. |
| DissipativeGate.DomainMaps | src/fhemamba/selective_gates.py:124 | Arguments inside a head's domain are normalised into [-1, 1]. |
| DissipativeGate.CertifyDissipativeGate | src/fhemamba/polynomial_certificate.py:206-229 | The gain is the nearest double of the exact squared coefficient norm, or its successor when that lies below the norm, so never below it; the gate is certified exactly when the dissipation root is proved in [-1, 1]; empty roots and an overflowing gain are refused. |
| DissipativeGate.CertifiedRoot | src/fhemamba/polynomial_certificate.py:206-214 | A certified dissipation root is at most one in magnitude on the whole domain. |
| DissipativeGate.CertifiedStateBound | src/fhemamba/polynomial_certificate.py:206-229 | For every run with raw gate arguments in the head's domain and inputs bounded by V, a state that starts within gain * V stays there. |
| NewtonInitializer.CertifyNewtonInitializer | src/fhemamba/polynomial_certificate.py:232-265 | Returns the verdicts on the initializer's sign and on variance * initializer^2 <= 3, certified exactly when both hold. |
| NewtonInitializer.BasinIsBounded | src/fhemamba/polynomial_certificate.py:247-257 | The two polynomial bounds together are exactly the Newton basin condition, at every point. |
| NewtonInitializer.InitializerSound | src/fhemamba/polynomial_certificate.py:232-265 | A certified initializer is in the basin on the whole interval; a counterexample is a variance where it is not. |
| NewtonInitializer.StepContracts | src/fhemamba/polynomial_certificate.py:233-238 | From the basin one Newton step gives y >= 0 and v y^2 <= 1. |
| NewtonInitializer.NewtonNonExpansive | src/fhemamba/polynomial_certificate.py:233-238 | So does every later number of steps. |
| NewtonInitializer.CertifiedNonExpansive | src/fhemamba/polynomial_certificate.py:232-265 | End to end: a certified initializer gives y >= 0 and v y^2 <= 1 after every positive number of steps, for every variance in the interval. |
| JointGates.SplitSeries | native/fideslib_stage0/include/stage1_joint_gates.hpp:112-120 | Splitting a series at k keeps it: left + T_k * right is the whole, for k at least half the length. |
| JointGates.RescaleDenotes | native/fideslib_stage0/include/stage1_joint_gates.hpp:89-110 | Scaling a block by a power of two and undoing it after accumulation keeps every head's series. |
| JointGates.SplitDenotes | native/fideslib_stage0/include/stage1_joint_gates.hpp:112-120 | Combining both parts slot by slot denotes the whole coefficient matrix. |
| JointGates.Evaluator.Get | native/fideslib_stage0/include/stage1_joint_gates.hpp:77-85 | The memo map always holds T_n at key n, at most ceil(log2 n) multiplications deep, and old entries are kept. |
| JointGates.Evaluator.EvaluateBlock | native/fideslib_stage0/include/stage1_joint_gates.hpp:86-111 | A block denotes its coefficient rows for any rounded exponent, one level deeper when it is rescaled; it is refused exactly when the exponent leaves the supported range. |
| JointGates.Evaluator.Evaluate | native/fideslib_stage0/include/stage1_joint_gates.hpp:86-121 | The recursion terminates and returns the series of every head within depth ceil(log2 rows) + 1, and one more only if some block is rescaled. |
| JointGates.EvaluateJointRoots | native/fideslib_stage0/include/stage1_joint_gates.hpp:68-126 | Both roots are the Chebyshev series of their columns within that depth, rescales included; refused exactly when invalid or not encodable. |
| JointBlocks.MinimumMeans | native/fideslib_stage0/include/stage1_joint_gates.hpp:89-96 | The block minimum is at most one, every row that is not zero has an entry of at least its magnitude, and it is one or the largest magnitude of some row. |
| JointBlocks.ShiftIsLeast | native/fideslib_stage0/include/stage1_joint_gates.hpp:89-102 | When the exponent rounds the difference of logarithms up, a block's shift is the least number of doublings after which every row that is not zero has an entry of at least 1e-8: none if all have one already. |
| JointBlocks.BlockRefused | native/fideslib_stage0/include/stage1_joint_gates.hpp:97-102 | A block is refused exactly when fifty doublings do not lift all its rows, and rescaled exactly when some row needs lifting. |
| JointBlocks.BlocksDecide | native/fideslib_stage0/include/stage1_joint_gates.hpp:86-121 | A whole series is refused exactly when fifty doublings do not lift some block of the recursion, and spends the rescale level exactly when some block needs lifting. |
| JointBlocks.BabyIsLeast | native/fideslib_stage0/include/stage1_joint_gates.hpp:73-75 | The block length is the least power of two from two on whose square covers the longer coefficient list. |
| RotationSum.RotationSumSchedule | src/fhemamba/bsgs_layout.py:58-77 | Every schedule builds the requested count, with floor(log2 n) + popcount(n) - 1 rotations, or n - 1 when linear. |
| RotationSum.RotationSum | src/fhemamba/bsgs_layout.py:80-87 | Either schedule returns the sum of the requested number of consecutive shifts. |
| RotationSum.Tiling | src/fhemamba/bsgs_layout.py:218-220 | Summing shifts of a vector that is zero past its window tiles the window. |
| RotationSum.ReplicateInput | src/fhemamba/bsgs_layout.py:201-220 | All windows, guards included, hold the input with period n and the rest is zero; every refusal is listed. |
| BsgsLayout.DiagonalMask | src/fhemamba/bsgs_layout.py:223-231 | The mask holds one wrapped diagonal from its base slot and zero elsewhere. |
| BsgsLayout.CombinedMask | src/fhemamba/bsgs_layout.py:234-241 | One mask holds the diagonals of all replicas of a group. |
| BsgsLayout.ReplicatedMatmul | src/fhemamba/bsgs_layout.py:250-278 | Returns the slots of the specified program for every matrix and vector, whatever their lengths, and refuses exactly the geometries that do not fit. |
| BsgsLayout.ReplicatedBsgsMatmul | src/fhemamba/bsgs_layout.py:281-323 | Returns the very same slots for every baby step, default included; refuses the same geometries, matrices without columns and baby steps below one. |
| BsgsLayout.MatmulReads | src/fhemamba/bsgs_layout.py:271-278 | When no two replicas meet, each output slot is the sum of its n diagonal reads, for any slot contents. |
| BsgsLayout.AlignedComputes | src/fhemamba/bsgs_layout.py:250-278 | With separate replicas and aligned reads slots [0, m) are the plain product for every matrix and vector. |
| BsgsLayout.MisreadFails | src/fhemamba/bsgs_layout.py:250-278 | One misaligned read is exposed by a unit matrix and a unit vector. |
| BsgsLayout.MeetingFails | src/fhemamba/bsgs_layout.py:234-278 | Two replicas that meet, also after wrapping, are exposed by a unit matrix and the vector of ones. |
| BsgsLayout.MultipliesIffAligned | src/fhemamba/bsgs_layout.py:250-278 | For every geometry: the program is the product for all inputs exactly when it is accepted, no two replicas meet and all reads are aligned. |
| BsgsLayout.SeparateIffStrideHolds | src/fhemamba/bsgs_layout.py:223-247 | With at most one replica per column they never meet exactly when there is one replica or one stride holds all m outputs. |
| BsgsLayout.ReadsAlignedIff | src/fhemamba/bsgs_layout.py:250-278 | All reads are aligned exactly when the windows fill the batch or the highest slot read is filled, for any number of replicas. |
| BsgsLayout.MultipliesIff | src/fhemamba/bsgs_layout.py:250-278 | The whole condition in closed form for at most one replica per column: one stride holds all outputs, and the windows fill the batch or reach past the highest read. |
| BsgsLayout.TightWindowFails | src/fhemamba/bsgs_layout.py:99-108 | An accepted geometry, two by two in three slots, that does not compute the product. |
| BsgsLayout.OverlapFails | src/fhemamba/bsgs_layout.py:223-247 | An accepted geometry with every read aligned, four outputs at stride three, that does not compute the product. |
| BsgsLayout.GeometryMultiplies | src/fhemamba/bsgs_layout.py:111-138 | Both documented geometries, wide windows or a guard window, multiply every matrix correctly. |
| BsgsLayout.ChooseWindow | src/fhemamba/bsgs_layout.py:111-120 | Returns a correct geometry without guard and with as many windows as fit, up to n; refuses exactly when none fits. |
| BsgsLayout.ChooseInterleavedWindow | src/fhemamba/bsgs_layout.py:123-138 | Returns the largest interleaved replica count that fits with one guard, in a correct geometry, and falls back only when there is none. |
| StateLayout.StateBlockReference | src/fhemamba/state_layout.py:69-81 | The dense loop broadcasts source value n over block n; refuses exactly the bad geometries. |
| StateLayout.ReplicatedStateBlocks | src/fhemamba/state_layout.py:84-124 | The doubling loops compute the specified sums of shifts; refuses exactly the bad geometries and bases. |
| StateLayout.BlockReceives | src/fhemamba/state_layout.py:105-124 | A block is the sum of the shifts that its seed slot sees, for every accepted geometry. |
| StateLayout.NoCollision | src/fhemamba/state_layout.py:110-119 | With wide blocks no foreign shift reaches a seed slot, also after wrapping. |
| StateLayout.NarrowBlocksCollide | src/fhemamba/state_layout.py:110-119 | With narrower blocks a unit source already breaks the broadcast, for both bases. |
| StateLayout.BroadcastsIffWide | src/fhemamba/state_layout.py:69-124 | The program equals the dense broadcast for all sources exactly when group_block >= 2 * state_size. |
| StateLayout.NarrowBlocksExample | src/fhemamba/state_layout.py:60-66 | The smallest accepted geometry that does not broadcast: two states in blocks of two. |
| StateLayout.DirectGroupedHeadExpansion | src/fhemamba/state_layout.py:170-186 | Repeating and tiling gives every group's slots. |
| StateLayout.SharedGroupedHeadExpansion | src/fhemamba/state_layout.py:189-214 | One shared expansion gives the same slots as the direct form; it overruns exactly when heads * head_dim > batch. |
| StateLayout.OverrunExample | src/fhemamba/state_layout.py:155-214 | A head geometry the direct form expands and the shared form overruns. |
| PackedRouting.PositionsIncrease | native/fideslib_stage0/include/packed_routing.hpp:94-102 | After every stage the live positions are strictly increasing, so nothing collides. |
| PackedRouting.MonotoneRouting | native/fideslib_stage0/include/packed_routing.hpp:77-104 | Builds stages that move every element by the next bits of its distance, as few as cover the largest distance; refuses exactly the invalid indices and radices. |
| PackedRouting.RoutingCorrect | native/fideslib_stage0/include/packed_routing.hpp:54-104 | For all indices, radices and inputs the stages gather x[indices[i]] to slot i, or scatter x[i] to indices[i], and clear every other slot. |
| PackedRouting.PackedRoutingMasks | native/fideslib_stage0/include/packed_routing.hpp:61-75 | One destination mask per rotation; refused exactly when a move leaves the slot range. |
| PackedRouting.DestinationFormMatches | native/fideslib_stage0/include/packed_routing.hpp:58-60 | Masking after the rotation equals masking before it, for any stage in range and any input. |
| PackedRouting.RoutingInRange | native/fideslib_stage0/include/packed_routing.hpp:61-104 | No stage of a routing into the slots is ever refused. |
| PackedGather.DirectMasks | native/fideslib_stage0/src/packed_fideslib.cpp:337-344 | The loop builds one destination mask per distance, with ones exactly where an element moved by it belongs. |
| PackedGather.DirectRoutes | native/fideslib_stage0/src/packed_fideslib.cpp:288-344 | Adding the masked rotations of those masks gathers or scatters every vector and clears every other slot, for lists in any order, with repeated sources for a gather. |
| PackedGather.PlanGather | native/fideslib_stage0/src/packed_fideslib.cpp:294-344 | Each form the executor chooses routes every vector, and its mask stages are exactly the levels that the depth planner charges for the same list. |
| PackedRepeat.RepeatCopies | native/fideslib_stage0/src/packed_fideslib.cpp:644-653 | Scattering with the repeat list and adding the shifts by whole blocks puts the requested copies of every block in a row, for every outer, inner and repeat count that fits. |
| PackedRepeat.AddNeighbours | native/fideslib_stage0/src/packed_fideslib.cpp:655-657 | The doubling loop adds exactly width neighbours, for every accepted width. |
| PackedRepeat.SumRuns | native/fideslib_stage0/src/packed_fideslib.cpp:654-661 | Gathering those sums with the sum list gives the total of every run. |
| PackedRepeat.RouteNode | native/fideslib_stage0/src/packed_fideslib.cpp:633-661 | For every gather, scatter, repeat and sum node of an accepted program: its index list is routed correctly, in exactly as many mask levels as the planner charges for the node. |
| PackedDiagonals.SplitReaches | native/fideslib_stage0/include/packed_routing.hpp:25-47 | Every diagonal of a progression is the sum of one listed baby rotation and one listed giant rotation of the split. |
| PackedDiagonals.SplitCostIs | native/fideslib_stage0/include/packed_routing.hpp:15-47 | The cost of a split is the total cost of its list of baby rotations and its list of giant rotations, each once. |
| PackedDiagonals.SplitUses | native/fideslib_stage0/include/packed_routing.hpp:25-47 | No baby or giant is superfluous: every one that is listed is used by some diagonal of the progression. |
| PackedDiagonals.PlanPackedDiagonals | native/fideslib_stage0/include/packed_routing.hpp:28-47 | The recorded cost is the plan's real cost, never above the direct visit, and minimal over all splits of both directions; of equal costs the direct visit wins, then the given direction, then the smaller baby step. |
| RotationSteps.NafTotal | native/fideslib_stage0/include/rotation_steps.hpp:13-29 | The signed digits sum to the input. |
| RotationSteps.NafNonAdjacent | native/fideslib_stage0/include/rotation_steps.hpp:13-29 | They are signed powers of two in ascending order with no two neighbouring powers. |
| RotationSteps.NafShortest | native/fideslib_stage0/include/rotation_steps.hpp:11-29 | No list of signed powers of two with the same sum is shorter. |
| RotationSteps.NearestIsLightest | native/fideslib_stage0/include/rotation_steps.hpp:31-43 | Among all numbers congruent modulo 2^t the one nearest zero has the fewest digits. |
| RotationSteps.OverflowThreshold | native/fideslib_stage0/include/rotation_steps.hpp:20-21 | Some digit leaves the 32-bit range exactly when the input exceeds 0x55555555. |
| RotationSteps.NafSteps | native/fideslib_stage0/include/rotation_steps.hpp:13-29 | The loop returns the non-adjacent form, or the overflow error exactly above that threshold. |
| RotationSteps.CanonicalRotation | native/fideslib_stage0/include/rotation_steps.hpp:31-38 | Congruent to the offset within half a turn, with C++ remainders; at exactly half a turn it keeps the offset's sign; refuses exactly the slot counts that are no power of two. |
| RotationSteps.Steps | native/fideslib_stage0/include/rotation_steps.hpp:40-48 | The steps sum to the offset modulo the slots, each at most half a turn, without overflow; signed-digit lists are shortest modulo the slot count, and binary lists are distinct powers of two of one sign in ascending order. |
| RotationBatch.Build | native/fideslib_stage0/include/rotation_batch.hpp:22-37 | Building the trie names every node by a distinct step prefix and hangs every output at its own steps. |
| RotationBatch.PrefixesAreNames | native/fideslib_stage0/include/rotation_batch.hpp:22-37 | The trie has one node per distinct step prefix. |
| RotationBatch.Visit | native/fideslib_stage0/include/rotation_batch.hpp:41-60 | A visit charges each node below once and fills exactly the outputs below, when sibling batches agree with single rotations. |
| RotationBatch.RotatePrefixBatch | native/fideslib_stage0/include/rotation_batch.hpp:18-63 | Each result is its own steps folded over the input; edges grow by the distinct non-empty prefixes, preparations by the continued ones and sibling batches by the forks. |
| PackedLifetime.ConsumerEdges | native/fideslib_stage0/include/packed_lifetime.hpp:18-25 | A live reader is listed once per operand edge, so x*x counts twice. |
| PackedLifetime.PlanPackedUses | native/fideslib_stage0/include/packed_lifetime.hpp:12-22 | Consumer lists are the live operand edges; last is the final live reader, or past the end for outputs. |
| PackedSchedule.PackedReadySchedule.constructor | native/fideslib_stage0/include/packed_schedule.hpp:13-32 | The initial counters, epochs and frontier are exact. |
| PackedSchedule.PackedReadySchedule.Complete | native/fideslib_stage0/include/packed_schedule.hpp:45-54 | Completing a node keeps every counter exact, changes nothing unless the node was ready, and always advances on a closed live set. |
| PackedSchedule.PackedReadySchedule.ActivateEpoch | native/fideslib_stage0/include/packed_schedule.hpp:56-61 | The next unfinished epoch becomes active with exactly its ready nodes. |
| PackedSchedule.PackedReadySchedule.FinalUseMeans | native/fideslib_stage0/include/packed_schedule.hpp:36-39 | final_use holds exactly when the parent is no output and no other unfinished node reads it. |
| PackedSchedule.PackedReadySchedule.ReleasableMeans | native/fideslib_stage0/include/packed_schedule.hpp:40 | releasable holds exactly when nobody will read the node again and it is no output. |
| PackedSchedule.PackedReadySchedule.NextConsumer | native/fideslib_stage0/include/packed_schedule.hpp:41-44 | Returns the first unfinished reader, or -1 exactly when there is none. |
| PackedSchedule.FrontierNonempty | native/fideslib_stage0/include/packed_schedule.hpp:45-61 | While a node is unfinished some node is ready, on every topological program and closed live set. |
| PackedSchedule.PackedReadySchedule.FinishedRun | native/fideslib_stage0/include/packed_schedule.hpp:45-61 | A finished run has completed each live node once, after its operands, with epochs never decreasing. |
| PackedSchedule.Drain | native/fideslib_stage0/include/packed_schedule.hpp:45-61 | Any order of picks finishes exactly when the live set is closed under operands. |
| PackedSchedule.OpenLiveSetStalls | native/fideslib_stage0/include/packed_schedule.hpp:13-61 | A live set without an operand it needs: the schedule over it never finishes. |
| PackedDepth.PackedRoutingDepth | native/fideslib_stage0/include/packed_depth.hpp:22-38 | The scan returns the routing depth of the specification. |
| PackedDepth.DepthCountsStages | native/fideslib_stage0/include/packed_depth.hpp:22-38 | For a multi-stage routing that depth is the number of stages really built at radix 3. |
| PackedDepth.PackedNodeDepth | native/fideslib_stage0/include/packed_depth.hpp:45-70 | The cost of every accepted node, with the Chebyshev loop's exponent the least that covers the degree. |
| PackedDepth.NodeDepthBound | native/fideslib_stage0/include/packed_depth.hpp:45-70 | No node of an accepted program costs more than thirteen levels. |
| PackedDepth.SimulatePackedDepth | native/fideslib_stage0/include/packed_depth.hpp:72-98 | The in-place simulation returns the specified refresh count and produced levels. |
| PackedDepth.NeverAboveCeiling | native/fideslib_stage0/include/packed_depth.hpp:72-98 | When every cost fits above a refresh, no node of any program computes or records a level above the ceiling. |
| PackedRefresh.RefreshFree | native/fideslib_stage0/include/packed_depth.hpp:72-98 | Nothing is refreshed exactly when no operand chain, from -1 and again at feedback nodes, costs more than the ceiling where it is read or more than the refresh level where a refresh is planned; and then every recorded level is the cost of the largest chain. |
| PackedRefreshLog.RefreshTotal | native/fideslib_stage0/include/packed_depth.hpp:72-98 | In general the total is the number of operand reads whose current level plus cost passes the ceiling plus the refreshes after nodes, and the recorded levels are those of that log, the only one the program and the plan have. |
| PackedRefreshLog.LogUnique | native/fideslib_stage0/include/packed_depth.hpp:72-98 | What the refreshes before each read and each node leave determines the next one, so there is exactly one log. |
| PackedDepth.LiveNodes | native/fideslib_stage0/include/packed_depth.hpp:110-112 | The live set is exactly the outputs and their ancestors, and it is closed under operands. |
| PackedDepth.DeferredMasks | native/fideslib_stage0/include/packed_depth.hpp:114-122 | A mask is deferred exactly for a linear node that is no output and only feeds gathers. |
| PackedDepth.TryHoist | native/fideslib_stage0/include/packed_depth.hpp:128-139 | Keeps an eligible attempt exactly when the whole simulation needs fewer refreshes, and then records its count and levels; otherwise the plan is unchanged. |
| PackedDepth.HoistRefreshes | native/fideslib_stage0/include/packed_depth.hpp:125-140 | The search is exactly the greedy passes, at most eight and stopped by the first that changes nothing; it ends with no eligible attempt that needs fewer refreshes, or at least eight refreshes are saved. |
| PackedDepth.SearchConverges | native/fideslib_stage0/include/packed_depth.hpp:125-140 | Any number of passes either reaches a plan that no single eligible refresh improves or saves at least one refresh each. |
| PackedGreedy.PassDecides | native/fideslib_stage0/include/packed_depth.hpp:125-140 | A pass refreshes after a node exactly when it was so before, or when the node is live, read at least twice and the refresh lowers the total, given the pass's decisions for earlier nodes and the old ones for the rest. |
| PackedDepth.IdleRefresh | native/fideslib_stage0/include/packed_depth.hpp:128-139 | A refresh after a node whose level is not above the refreshed level changes no count, which is why the search may skip it. |
| PackedDepth.PlanPackedDepth | native/fideslib_stage0/include/packed_depth.hpp:100-142 | The costs, live set, refresh count and refresh sites are exact, the sites being those of the greedy passes from the unhoisted plan, under the same convergence alternative. |
| PackedDepth.PlannedNeverAboveCeiling | native/fideslib_stage0/include/packed_depth.hpp:72-142 | With thirteen levels above the refresh level no planned node of any accepted program computes or records a level above the ceiling. |
| PackedRefresh.PlannedRefreshFree | native/fideslib_stage0/include/packed_depth.hpp:72-142 | A plan has no refreshes exactly when no operand chain of its program costs more than the ceiling, whatever the search did. |
| PackedDepth.PlannedLiveCloses | native/fideslib_stage0/include/packed_depth.hpp:110-112 | A plan's live set is what a frontier schedule needs to drain. |
| Normalization.OutwardContains | src/fhemamba/normalization.py:18-24 | Rounding endpoints to dyadics never loses a point of the interval. |
| Normalization.ImageBounds | src/fhemamba/normalization.py:27-36 | Over an interval the image u(a - bu)^2 lies between the end values, and below the peak when that is inside. |
| Normalization.ImageSound | src/fhemamba/normalization.py:27-36 | The computed interval contains the image of every point of the given one. |
| NormalizationTight.OutwardTight | src/fhemamba/normalization.py:18-24 | Outward rounding moves each end by less than 2^-bits. |
| NormalizationTight.StartTight | src/fhemamba/normalization.py:173-183 | Each end of the start interval is less than one step from v * seed^2 at that end of the declared interval. |
| NormalizationTight.AcceptedMeans | src/fhemamba/normalization.py:27-33 | An image is refused exactly when the interval is empty or not positive, the slope is not positive, or the factor a - b*u fails to be positive somewhere in it. |
| NormalizationTight.ImageTight | src/fhemamba/normalization.py:27-36 | Each end of an image interval is less than one step from the image of some point of the given interval. |
| Normalization.CertifySchedule | src/fhemamba/normalization.py:173-210 | The verdict is exactly what the recorded interval trace says, for each of its reasons. |
| NormalizationTight.RefusalMeans | src/fhemamba/normalization.py:173-210 | Every refusal is real up to one rounding step: a value comes within a step of leaving (0, 1], an update factor is not positive, or a value stays below the target plus a step. |
| Normalization.TraceContains | src/fhemamba/normalization.py:173-210 | Along a trace every reachable v*y^2 lies in the recorded interval and y stays positive. |
| Normalization.CertificateSound | src/fhemamba/normalization.py:173-210 | If certified, for every v in the interval y > 0 and (1 - tol)^2 <= v*y^2 <= 1. |
| Normalization.EvaluateCoupled | src/fhemamba/normalization.py:69-79 | The coupled loop computes the recipe's polynomial. |
| Normalization.EvaluateWeighted | src/fhemamba/normalization.py:119-139 | For any rounded ratios the weighted loop computes the recipe with the effective coefficients; it is refused exactly when a ratio divides by zero. |
| Normalization.CertifyWeightedSchedule | src/fhemamba/normalization.py:213-227 | The weighted certificate is the certificate of exactly those effective coefficients, refused when a ratio divides by zero or the precision is out of range. |
| Normalization.WeightedSound | src/fhemamba/normalization.py:119-139 | End to end: if the weighted certificate holds, the value the weighted evaluation returns is positive with (1 - tol)^2 <= v*y^2 <= 1, for any rounded ratios and every v in the interval. |
| Normalization.EvaluateBalancedNormalization | native/fideslib_stage0/include/stage1_normalization.hpp:67-87 | The balanced loop recomputes v*y^2 from v after every checkpoint, whatever the checkpoint returns. |
| Normalization.BalancedMeans | src/fhemamba/normalization.py:93-106 | Without checkpoints the balanced polynomial is the coupled one. |
| Normalization.EvaluateNormalization | native/fideslib_stage0/include/stage1_normalization.hpp:91-138 | All three modes return the recipe's value and the value before the last step; only the ambiguous mode is refused. |
| InverseBound.NormalizationInverseBound | native/fideslib_stage0/include/stage1_normalization.hpp:49-62 | Returns the smaller of the upward-rounded product and the rounded root; refuses exactly the bad stage counts. |
| InverseBound.UpwardProductNear | native/fideslib_stage0/include/stage1_normalization.hpp:49-62 | The rounded product lies between the exact product and the exact product times one rounding factor per stage. |
| InverseBound.InverseBoundSound | native/fideslib_stage0/include/stage1_normalization.hpp:49-62 | For a certified recipe y never exceeds that bound after any completed stage, if the stepped root is not below 1/sqrt(lo). |
| InverseBound.LowRootFails | native/fideslib_stage0/include/stage1_normalization.hpp:49-62 | A stepped root below 1/sqrt(lo) is exceeded by a certified readable recipe of ten Newton stages, for every finite lo but the largest. |
| InverseBound.InverseBoundExact | native/fideslib_stage0/include/stage1_normalization.hpp:49-62 | That condition is exact over the certified recipes of finite binary64 numbers: below 1/sqrt(lo) one of them exceeds the bound. |
| InverseBound.OneStepTooLow | native/fideslib_stage0/include/stage1_normalization.hpp:57-61 | For lo = 75 the nearest double of the root, the nearest double of its reciprocal and one step up give a bound that a certified readable recipe, three Newton stages on [75, 75.25], exceeds. |
| Scan.AffineScan | src/fhemamba/reference.py:69-85 | After the doubling rounds entry t is the product and the state of the first t + 1 steps. |
| Scan.ChunkedScan | src/fhemamba/reference.py:88-113 | All states of the sequential recurrence, for every length, chunk size and initial state. |
| Scan.FoldSplit | src/fhemamba/reference.py:69-85 | Composing steps is associative over any split, which is what a doubling round uses. |
| Mamba3.FactoredStep | src/fhemamba/mamba3.py:132-143 | One factored step returns the specified history and readout; refuses exactly mismatched shapes. |
| Mamba3.StepRepresents | src/fhemamba/mamba3.py:132-150 | A step keeps the dense state equal to the sum of weighted writes and its k and v equal to the newest ones, from the empty history on. |
| Mamba3.ReadoutsAgree | src/fhemamba/mamba3.py:140-149 | Related states read out the same value in every channel. |
| Mamba3.HistoriesAgree | src/fhemamba/mamba3.py:132-150 | After every token sequence both states represent each other and the last outputs agree. |
| SsmAlgebra.StepMaterialized | src/fhemamba/ssm_algebra.py:42-44 | Decaying the factor and weights and appending a write is one dense step of the materialised state. |
| SsmAlgebra.ReadoutDense | src/fhemamba/ssm_algebra.py:45-48 | The deferred readout is the readout of the materialised state. |
| SsmAlgebra.NewState | src/fhemamba/ssm_algebra.py:22-31 | A new state stands for its initial tensor; empty shapes and windows below one are refused. |
| SsmAlgebra.DeferredMamba2State.Materialize | src/fhemamba/ssm_algebra.py:53-58 | The loop adds every pending write to the decayed checkpoint. |
| SsmAlgebra.DeferredMamba2State.Flush | src/fhemamba/ssm_algebra.py:60-66 | Flushing keeps the dense state, empties the pending list and counts itself only when there was one. |
| SsmAlgebra.DeferredMamba2State.Step | src/fhemamba/ssm_algebra.py:33-51 | Every step is the dense step and reads out the dense state; fewer than window writes stay pending, and mismatched shapes change nothing. |

## Left out

- GPU, OpenFHE and FIDESlib code, ring maps, serialization and the client/server probe: calls whose behaviour these files do not show.
- CKKS noise, binary64 rounding of tensor values, BF16 packing and encoder range checks: arithmetic is exact here, and non-finite numbers do not exist.
- Fitting code (Chebyshev fits, calibration, square-root planning): numerical heuristics whose results the certifiers decide.
- certify_affine_state_invariant and certify_bernstein_state_invariant: the same prover applied to other polynomials.
- Cost functions of the layouts, packed_rotation_cost apart: they count what the programs do and add only easy members.
- consume_or_clone, rotate_plaintext_mask and packed_diagonal_pre_mask: handle ownership and a plain rotation.
- Parsing of packed programs, including node bounds, reference vectors and compact weights: only the accepted-program rules that the planners rely on are kept.
- Projections, convolutions, rotary phases and norms of the reference layers: their results are inputs of the recurrences.
- Batches, heads and lanes that never interact: Scan, Mamba3 and SsmAlgebra model one of them.
- Flat coefficient vectors of the joint gates are modelled as rows of one value per head, so their divisibility check has no counterpart.
- PackedReadySchedule.constructor: it asks for a topologically numbered program, outputs inside it and one live flag per node, which the program reader and the depth planner provide.
- EvaluateJointRoots: the exponent of a rescaled block, a rounded difference of logarithms, is an arbitrary function of the block's minimum.
- EvaluateWeighted: the rounded ratio is an arbitrary function of the two coefficients; ratios beyond binary64 are not modelled.
- ProveCompletes: a strict bound is covered once it has some margin; that every strict bound on [0, 1] has one follows from compactness of the reals, which Dafny's ordered-field reals do not give.
- CertifyDissipativeGate: the nearest double, which may overflow, and its successor are parameters, assumed to satisfy what rounding to nearest gives.
- NormalizationInverseBound: the upward rounding and the rounded root are parameters; OneStepTooLow computes them for one input.
- NodeDepth: the constant costs of sums, products, linear maps and Chebyshev nodes are the source's cost table; only those of routed nodes are compared with what the executor runs.
- PlanGather: refreshes between routing stages and the baby/giant form of a stage are not modelled, nor is the legacy routing mode.
- ShiftIsLeast: that the exponent is the difference of logarithms rounded up is a condition on that function; the rounding of the logarithms themselves is not modelled.
- RefreshFree: it asks for costs and a refresh level that are not negative, which every plan has.
- NafSteps: 64-bit intermediates are unbounded integers.
- RotatePrefixBatch: callbacks are pure functions, so the lifetime of intermediate values is not modelled.
