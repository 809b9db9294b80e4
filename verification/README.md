# Hilbert ordering and line fitting, verified

A Dafny model of two pieces of computation in this repository, and proofs of what they promise.

**The Hilbert curve transform** (`slurm/contribs/skilling.c`; the same code serves Slurm's 3D torus
plugin as `slurm/src/plugins/topology/3d_torus/hilbert.c`). `AxestoTranspose` and `TransposetoAxes`
overwrite an array of axis words in place, by exclusive or, masked exchanges, a Gray code and a
log-step parity loop. The model keeps the arrays and the loops (`Skilling.dfy`), proves each phase equal
to a function on word sequences (`Transform.dfy`), and shows that these functions compute the
n-dimensional Hilbert curve, for every number of axes n >= 1 and every number of bits b >= 1:

- `Words.dfy`, `Packing.dfy`, `Interleaving.dfy`: words as naturals read bit by bit; the interleaving of
  the transposed words into one integer, generalised from the 3 x 5 bits that `main` writes out; the
  Gray code of that integer.
- `Curve.dfy`: the curve defined by self-similarity alone, without words or masks, and its end points
  and unit steps. `Refinement.dfy`: the C code computes that curve. `Symmetry.dfy`: its parts are
  copies of the coarser curve under signed axis permutations.
- `Nesting.dfy`, `Ordering.dfy`: bijection, Hamiltonian path, nesting of cubes and blocks, locality.
- `Nodes.dfy`: the sample program's integer, and the ranking of cluster nodes by the coordinates in
  their names, with its three fatal errors.

Two claims are sharper than "for b-bit coordinates". The round trips are characterised on all words: the
log-step loop reaches a window of `Window(1, b)` bits, the first power of two not below b, and a round
trip restores the words exactly when a certain word has no bits beyond that window (the exclusive or of
all axes in one direction, the last axis in the other). `OutsideTheWindow` gives concrete words for both
outcomes. b-bit coordinates always satisfy the condition.

**Batch gradient descent** (`gradientDescentCalcu` in
`DockerUnifiedUIMAInterface/performance_test_visualiser/visualizer.py`), over the reals, with the number
of passes and the step size as parameters of the specification and as the original constants in the
method (`Descent.dfy`). The code uses the step size 0.01 whatever the data are. Whether a step size is
good is decided exactly, by conditions on the sums of 1, x and x^2: the loss never grows from any line
exactly when the step size fits the data (`StepFits`, `LossDescent.dfy`), the distance to a solution never
grows exactly then too, and, unless all x are equal, the run converges to the least-squares line from
every start exactly when it fits strictly (`StepFitsStrictly`, `Convergence.dfy`).
`BuiltInStepCanAscend` is a data set where the built-in step size does not fit.

## Model

| member | source | states |
|---|---|---|
| Words.MaskTest | slurm/contribs/skilling.c:57 | Testing a word against Q = 1 << k reads exactly bit k. |
| Words.InvertIsFlipLow | slurm/contribs/skilling.c:57 | `X ^= P` with P = Q - 1 complements the k low bits and nothing else. |
| Words.ExchangeIsSplice | slurm/contribs/skilling.c:58 | The masked exchange copies the low k bits of one word into the other. |
| Skilling.Invert | slurm/contribs/skilling.c:59 | The lone invert line, in place, is the step for axis 0. |
| Skilling.InvertOrExchange | slurm/contribs/skilling.c:57-58 | The loop body shared by both transforms, in place, is one step: invert or exchange by bit k of axis i; the array beyond n is untouched. |
| Skilling.XorDownwards | slurm/contribs/skilling.c:47-48 | The downward loop puts each axis's predecessor, as it was, onto it. |
| Skilling.GrayDecodePhase | slurm/contribs/skilling.c:45-49 | The in-place Gray decoding loop yields the decoded words. |
| Skilling.UndoPass | slurm/contribs/skilling.c:55-59 | One pass of "undo excess work" performs the steps n-1 down to 0. |
| Skilling.TransposeToAxes | slurm/contribs/skilling.c:37-61 | The whole in-place transform yields `AxesOf` of the old words. |
| Skilling.RedoPass | slurm/contribs/skilling.c:73-77 | One pass of "inverse undo" performs the steps 0 up to n-1. |
| Skilling.XorUpwards | slurm/contribs/skilling.c:81-82 | The prefix loop leaves in each axis the exclusive or of all axes up to it. |
| Skilling.FoldLastAxis | slurm/contribs/skilling.c:84-85 | The doubling loop folds the last axis and changes nothing else. |
| Skilling.XorOntoOthers | slurm/contribs/skilling.c:87-88 | Every axis but the last takes in t. |
| Skilling.GrayEncodePhase | slurm/contribs/skilling.c:80-88 | The in-place Gray encoding yields the encoded words. |
| Skilling.AxesToTranspose | slurm/contribs/skilling.c:62-89 | The whole in-place transform yields `TransposeOf` of the old words. |
| Skilling.RoundTrip | slurm/contribs/skilling.c:119-123 | Running both transforms in place restores the array exactly when the exclusive or of all axes has no bits beyond the window; always for b-bit coordinates. |
| Transform.PassZero | slurm/contribs/skilling.c:53 | Starting at Q = 2 (and stopping above 1) skips nothing: the pass for Q = 1 would change nothing. |
| Transform.StepKeepsHighBits | slurm/contribs/skilling.c:57-58 | A step for Q = 1 << k keeps bits k and above of every word. |
| Transform.PassKeepsHighBits | slurm/contribs/skilling.c:53-60 | So does a whole pass, in either direction. |
| Transform.PassesInverse | slurm/contribs/skilling.c:71-78 | The passes of the two transforms for the same Q undo each other, on all words, both ways round. |
| Transform.PassesKeepHighBits | slurm/contribs/skilling.c:71-78 | All passes together keep bits b-1 and above of every word. |
| Transform.UndoRedo | slurm/contribs/skilling.c:71-78 | "Undo excess work" and "inverse undo" are two-sided inverses on all words. |
| Transform.WindowIsPower | slurm/contribs/skilling.c:84 | The doubling loop stops at the first power of two that is not below b. |
| Transform.FoldBit | slurm/contribs/skilling.c:83-85 | Bit j after the doubling loop is the parity of the original bits from j on, as far as the window reaches. |
| Transform.FoldInvertsGray | slurm/contribs/skilling.c:83-86 | t equals the new last axis shifted right by one, exactly when the old one has no bits beyond the window. |
| Transform.FoldOfGray | slurm/contribs/skilling.c:84-85 | The doubling loop recovers y from y ^ (y >> 1) exactly when y has no bits beyond the window. |
| Transform.DecodeEncode | slurm/contribs/skilling.c:80-88 | Gray decoding after encoding restores all axes exactly when their exclusive or stays within the window. |
| Transform.EncodeDecode | slurm/contribs/skilling.c:45-49 | Gray encoding after decoding restores all axes exactly when the last one stays within the window. |
| Transform.AxesRoundTrip | slurm/contribs/skilling.c:119-123 | TransposetoAxes after AxestoTranspose is the identity exactly when the exclusive or of the axes stays within the window. |
| Transform.TransposeRoundTrip | slurm/contribs/skilling.c:37-89 | AxestoTranspose after TransposetoAxes is the identity exactly when the last word stays within the window. |
| Transform.TransformsInverse | slurm/contribs/skilling.c:37-89 | On b-bit words the two transforms are two-sided inverses. |
| Transform.TransformsKeepRange | slurm/contribs/skilling.c:37-89 | w-bit words stay w-bit words (w + 1 >= b), so no machine word overflows. |
| Transform.OutsideTheWindow | slurm/contribs/skilling.c:84 | For b = 5 and three axes: 256 is not restored in either direction, 32 is. |
| Packing.PackRange | slurm/contribs/skilling.c:109-113 | The interleaved integer is below the number of grid points. |
| Packing.PackUnpack | slurm/contribs/skilling.c:109-113 | Interleaving the words taken out of H gives back H. |
| Packing.UnpackPack | slurm/contribs/skilling.c:109-113 | Every b-bit word sequence is recovered from its interleaving. |
| Interleaving.PackBit | slurm/contribs/skilling.c:109-113 | Bit k of axis i is bit n*k + (n-1-i) of the integer. |
| Interleaving.GrayPhase | slurm/contribs/skilling.c:45-49 | The decode phase computes H ^ (H >> 1) of the interleaved integer, as its comment says. |
| Interleaving.GrayPhaseOneBit | slurm/contribs/skilling.c:45-49 | After it, consecutive integers differ in exactly one bit of one axis. |
| Refinement.PassIsTurn | slurm/contribs/skilling.c:53-60 | A pass acts on the bits below Q as the symmetry of the cube fixed by bit k of the words. |
| Refinement.UndoLo | slurm/contribs/skilling.c:53-60 | The low bits after the passes depend on the low bits before them only. |
| Refinement.GrayTop | slurm/contribs/skilling.c:45-49 | The decoded top bits are the corner of the top digit. |
| Refinement.GrayRest | slurm/contribs/skilling.c:45-49 | Below them, decoding gives the Gray code of the rest, counted backwards when the top digit is odd. |
| Refinement.UnpackBackwards | slurm/contribs/skilling.c:109-113 | The words of the integer counted from the other end are the complements. |
| Refinement.ComputesHilbert | slurm/contribs/skilling.c:37-61 | TransposetoAxes on the words of H gives point H of the self-similar Hilbert curve, for all n, b and H. |
| Curve.HilbertInRange | slurm/contribs/skilling.c:37-61 | The curve stays in the cube of side 2^b. |
| Curve.EndPoints | slurm/contribs/skilling.c:37-61 | It runs from the origin to (2^b - 1, 0, ..., 0). |
| Curve.NextCorner | slurm/contribs/skilling.c:45-49 | Subcubes of consecutive digits differ along one axis, with the bit pattern that the crossing needs. |
| Curve.Crossing | slurm/contribs/skilling.c:53-60 | The last point of a part and the first point of the next one are neighbours. |
| Curve.Adjacent | slurm/contribs/skilling.c:37-61 | Consecutive points differ along exactly one axis, by exactly one. |
| Symmetry.SelfSimilar | slurm/contribs/skilling.c:45-60 | Part h of the order-(k+1) output is the order-k output, forward for even h and backward for odd h, under one signed axis permutation that depends on h alone, placed in the subcube of h. |
| Nesting.Nested | slurm/contribs/skilling.c:37-61 | Dropping k low bits of the coordinates corresponds to dropping n*k low bits of the position. |
| Nesting.CloseOnCurve | slurm/contribs/skilling.c:93 | Positions less than 2^(n*k) apart give coordinates less than 2^(k+1) apart. |
| Nesting.NoFurtherThanAlongCurve | slurm/contribs/skilling.c:93 | The Manhattan distance of two points is at most their distance along the curve. |
| Nesting.SumParity | slurm/contribs/skilling.c:37-61 | The coordinate sum has the parity of the position. |
| Ordering.PointOfRank | slurm/contribs/skilling.c:108-113 | Every grid point has a rank in range and is the point of its rank. |
| Ordering.RankOfPoint | slurm/contribs/skilling.c:108-113 | Every integer in range has a grid point and is the rank of it. |
| Ordering.UnitStep | slurm/contribs/skilling.c:37-61 | The points of H and H + 1 are grid neighbours. |
| Ordering.Ends | slurm/contribs/skilling.c:37-61 | The first point is the origin, the last is the far end of axis 0. |
| Ordering.HamiltonianPath | slurm/contribs/skilling.c:37-61 | Listing all points by rank visits each point of [0,2^b)^n exactly once, by unit steps, between those ends. |
| Ordering.RankParity | slurm/contribs/skilling.c:108-113 | The rank has the parity of the coordinate sum. |
| Ordering.Locality | slurm/contribs/skilling.c:93 | Points whose ranks are less than 2^(n*k) apart are less than 2^(k+1) apart along every axis. |
| Ordering.RankGapBoundsDistance | slurm/contribs/skilling.c:93 | The Manhattan distance of two points is at most the gap of their ranks. |
| Ordering.RankOfCube | slurm/contribs/skilling.c:70-88 | The transform with b-k bits on coordinates shifted right by k gives the rank divided by 2^(n*k). |
| Ordering.CubesAreBlocks | slurm/contribs/skilling.c:70-88 | Points share an aligned cube of side 2^k exactly when their ranks share an aligned block of 2^(n*k). |
| Ordering.OneDimension | slurm/contribs/skilling.c:45-88 | For n = 1 both transforms are the identity on b-bit words. |
| Nodes.PackFiveLevels | slurm/contribs/skilling.c:109-113 | The 15 written-out terms are the general interleaving for 5 bits and 3 axes. |
| Nodes.HilbertInteger | slurm/contribs/skilling.c:108-113 | The sample computes the rank; in range, it numbers the given point on the curve. |
| Nodes.CharToCoordIsPlace | slurm/src/interfaces/select.c:224-231 | The value of a coordinate character is its place in 0-9A-Z, and -1 for every other character. |
| Nodes.ValidNameSpelled | slurm/src/plugins/topology/3d_torus/hilbert_slurm.c:72-92 | The names that are ranked are those that end in three characters out of 0-9 and A-V. |
| Nodes.PositionSpelled | slurm/src/plugins/topology/3d_torus/hilbert_slurm.c:78-80 | Coordinates 0, 1, 2 are the places of the third-last, second-last and last character of the name. |
| Nodes.ReadNode | slurm/src/plugins/topology/3d_torus/hilbert_slurm.c:72-88 | Reads one name's three coordinates and keeps the maximum; the suffix is bad exactly when one of the last three characters is outside 0-9 and A-Z. |
| Nodes.ReadCoordinates | slurm/src/plugins/topology/3d_torus/hilbert_slurm.c:70-92 | Succeeds exactly when every name ends in 0-9 and A-V; otherwise reports the first name without three coordinate characters, or the largest coordinate if that is beyond 31. |
| Nodes.AssignRanks | slurm/src/plugins/topology/3d_torus/hilbert_slurm.c:94-118 | Every node gets the Hilbert rank of its coordinates. |
| Nodes.NodesToHilbertCurve | slurm/src/plugins/topology/3d_torus/hilbert_slurm.c:52-119 | All nodes are ranked, and the curve point of a node's rank is spelled by the last three characters of its name; or an error is reported and no rank has changed. |
| Nodes.RanksSeparateNodes | slurm/src/plugins/topology/3d_torus/hilbert_slurm.c:102-117 | Ranks fit into 15 bits, and nodes share a rank exactly when their names share the three-character suffix. |
| Nodes.ConsecutiveRanksAreLinked | slurm/src/plugins/topology/3d_torus/hilbert_slurm.c:49-51 | Nodes with consecutive ranks are neighbours in the torus grid. |
| Descent.SumGradient | DockerUnifiedUIMAInterface/performance_test_visualiser/visualizer.py:221-225 | The inner loop returns m*Sum(x) + c*lx - Sum(y) and m*Sum(x^2) + c*Sum(x) - Sum(xy), over the first lx entries of the two lists. |
| Descent.PassOnLists | DockerUnifiedUIMAInterface/performance_test_visualiser/visualizer.py:221-227 | One outer pass in terms of the two lists, alpha and lx. |
| Descent.RunAdds | DockerUnifiedUIMAInterface/performance_test_visualiser/visualizer.py:219-220 | A run counts single passes: none, one, and j + k passes as j and then k. |
| Descent.ExactFit | DockerUnifiedUIMAInterface/performance_test_visualiser/visualizer.py:221-227 | If the y lie on a line over the x, both sums vanish at that line and no pass moves it. |
| Descent.GradientDescent | DockerUnifiedUIMAInterface/performance_test_visualiser/visualizer.py:215-230 | The method returns the line after 4000 passes from (0.1, 0.01), or the Python error, for every lx and lists of any lengths. |
| Descent.GradientByMoments | DockerUnifiedUIMAInterface/performance_test_visualiser/visualizer.py:221-225 | Both sums depend on the data through the count and the sums of x, x^2, y and xy only. |
| Descent.LossAtZero | DockerUnifiedUIMAInterface/performance_test_visualiser/visualizer.py:224 | The loss of the line 0 is the sum of y^2; with LossShift this fixes the loss of every line. |
| Descent.LossShift | DockerUnifiedUIMAInterface/performance_test_visualiser/visualizer.py:224-227 | The two sums are half the gradient of the squared error: the exact effect of moving the line. |
| LossDescent.PassIsAgainst | DockerUnifiedUIMAInterface/performance_test_visualiser/visualizer.py:226-227 | A pass moves the line against the gradient by alpha / n. |
| LossDescent.Descends | DockerUnifiedUIMAInterface/performance_test_visualiser/visualizer.py:220-227 | If the step size fits the data, no pass increases the loss. |
| LossDescent.Ascends | DockerUnifiedUIMAInterface/performance_test_visualiser/visualizer.py:220-227 | If the step size does not fit, a pass from some line, which the proof constructs, increases the loss. |
| LossDescent.DescentCriterion | DockerUnifiedUIMAInterface/performance_test_visualiser/visualizer.py:220-227 | For alpha > 0, no pass from any line increases the loss exactly when the step size fits the data. |
| LossDescent.RunDescends | DockerUnifiedUIMAInterface/performance_test_visualiser/visualizer.py:220-227 | If the step size fits, the loss never increases over runs of any length. |
| LossDescent.SmallStepFits | DockerUnifiedUIMAInterface/performance_test_visualiser/visualizer.py:218-227 | alpha * (1 + mean of x^2) <= 2 is enough for the step size to fit, and to fit strictly unless alpha is 0 or all x are equal. |
| LossDescent.BuiltInStepCanAscend | DockerUnifiedUIMAInterface/performance_test_visualiser/visualizer.py:216-227 | One sample with x = 20 where the first pass with the built-in constants increases the loss. |
| LossDescent.FixedPoints | DockerUnifiedUIMAInterface/performance_test_visualiser/visualizer.py:221-227 | A pass leaves the line alone exactly when it solves the normal equations, exactly when it minimises the squared error over all lines. |
| LossDescent.DetZero | DockerUnifiedUIMAInterface/performance_test_visualiser/visualizer.py:224-225 | The determinant on which the uniqueness and convergence results rest vanishes exactly when all x are equal. |
| LossDescent.SolutionExists | DockerUnifiedUIMAInterface/performance_test_visualiser/visualizer.py:220-227 | The normal equations always have a solution, and only one unless all x are equal. |
| LossDescent.OrderIndependence | DockerUnifiedUIMAInterface/performance_test_visualiser/visualizer.py:220-230 | Permuting the samples leaves the result of a run of any length unchanged. |
| Convergence.DistAfterPass | DockerUnifiedUIMAInterface/performance_test_visualiser/visualizer.py:221-227 | The exact change of the squared distance to a solution in one pass. |
| Convergence.RateBounds | DockerUnifiedUIMAInterface/performance_test_visualiser/visualizer.py:220-227 | The share `Rate` lies between 0 and 1; it is positive when the step size fits strictly and the x differ. |
| Convergence.Contracts | DockerUnifiedUIMAInterface/performance_test_visualiser/visualizer.py:220-227 | If the step size fits, a pass reduces the squared distance to every solution by at least the share `Rate`, which is alpha^2 times the variance of x for small steps. |
| Convergence.RunContracts | DockerUnifiedUIMAInterface/performance_test_visualiser/visualizer.py:220-227 | If the step size fits, the squared distance to a solution after k passes is at most (1 - Rate)^k of the first one. |
| Convergence.MovesAway | DockerUnifiedUIMAInterface/performance_test_visualiser/visualizer.py:220-227 | If the step size does not fit, a pass from some line, which the proof constructs, moves away from the solution. |
| Convergence.DistanceCriterion | DockerUnifiedUIMAInterface/performance_test_visualiser/visualizer.py:220-227 | For alpha > 0, no pass from any line increases the distance to any solution exactly when the step size fits the data. |
| Convergence.Converges | DockerUnifiedUIMAInterface/performance_test_visualiser/visualizer.py:220-227 | If the step size fits strictly and the x differ, the run from every line converges to the solution. |
| Convergence.StaysAway | DockerUnifiedUIMAInterface/performance_test_visualiser/visualizer.py:220-227 | From a line where a pass does not shorten the distance, the run never comes closer. |
| Convergence.ConvergenceCriterion | DockerUnifiedUIMAInterface/performance_test_visualiser/visualizer.py:220-227 | Unless all x are equal and for alpha > 0, the run converges to the least-squares line from every start exactly when the step size fits strictly. |

## Left out

- Machine integers: words are unbounded naturals. `TransformsKeepRange` shows that no word outgrows its
  machine word, but the signed shifts `2 << (b - 1)` and `1 << (b - 1)`, defined in C for b <= 30, are not limited.
- b <= 0 and n <= 0 are preconditions of the methods: the C code then shifts by a negative amount or reads outside the array.
- The loop index i of the doubling loop is an unbounded natural; in C it stays below twice b.
- Argument parsing, `atoi`, printing and exit codes of `main`: input and output. A negative argument, which C turns into a large unsigned word, is not modelled.
- Floating-point rounding in the gradient descent: the model is over the reals.
- Python's negative `lx`: the caller passes `len(x_train)`.
- The rest of the visualizers (database reading, choosing the run with the middle slope, plotting, `train_test_split`, the bare `except`).
- `fatal` in the node ranking ends the process; here it is an outcome after which no rank has changed.
- The static flag `first_run` of the node ranking: it is never cleared in the source, so it guards nothing.
- The table of nodes and `next_node`: a sequence of nodes. Sorting the table by rank afterwards is not modelled.
- The copy of the C code under `Abschlussprojekt_no_GPU` and the other copies of the gradient descent: the same code.
