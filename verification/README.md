# oneDNN for VE: verified models of its core algorithms

This project models, in Dafny, the self-contained algorithms of the repository and proves what they
are for. `dafny verify dfyconfig.toml` checks all of it.

| file | models |
|---|---|
| `MixedRadix.dfy`, `NestedLoops.dfy`, `Odometer.dfy`, `Coords.dfy` | the batch iterators of `dev/thr.cpp`: classes `CoordsVP`, `CoordsForNd`, `CoordsFor`, the odometer `my_nd_iterator_step`, and the plain loop nest that all of them have to reproduce |
| `VecPos.dfy` | `dev/v.cpp`: logical offsets to coordinates and back, in wrapping 64-bit arithmetic |
| `BlockSize.dfy` | `dev/stack_friendly_blksz.cpp`: the choice of a block size |
| `InvSqrt.dfy` | `dev/vrsqrt.cpp`: the bit trick of the fast inverse square root and its Newton steps |
| `Scales.dfy` | `dev/has_def.cpp`: `scales_t`, with its inline buffer, heap blocks and NaN sentinel |
| `Execution.dfy`, `Networks.dfy`, `Training.dfy`, `NetData.dfy` | `examples/cnn_inference_f32.c` and `examples/cpu_cnn_training_f32.c`: building nets with reorders, executing them, training |
| `Grid.dfy`, `States.dfy`, `Attention.dfy`, `CopyContext.dfy`, `ContextStep.dfy`, `Decoder.dfy` | `examples/cpu_rnn_inference_f32.cpp`: attention, the parallel copy of the context, the sliding decoder |
| `DebugText.dfy` | `scripts/generate_dnnl_debug.py`: the enum printer and parser that the script writes |

## Main results

- **Iterators.** Over every list of ranges and every start, the lanes of all batches put end to end
  are the loop nest from that position on, in order, in full batches except the last (`Coords.Collect`).
  The loop count is a 64-bit product; the run is complete exactly when the true product fits, and
  batches stay inside the nest exactly when no batch end wraps; where one does, the next step goes back.
  Odometers, the lane-by-lane and the dimension-by-dimension fills all agree with the same nest.
- **`extend`** does not continue gap-free in general; `Coords.Coords.ExtendThenStep` states exactly when it does.
- **Offsets.** The round trip through coordinates is exact modulo the true product of the dimensions,
  although every product and sum in it wraps modulo 2^64.
- **Inverse square root.** For every positive normal `float` and `double` the guess is within 7%, one
  Newton step within 0.4%, two within 0.00125%.
- **Scales.** Over any run of operations on any number of objects, with failing allocations, no block
  is shared, dangling, leaked or freed twice. What the operations read is live and initialised, with two
  exceptions, both stated exactly. A direct `set` that is refused memory leaves a null pointer, and
  copying or assigning from such an object reads through it. And constructors and `operator=` end with a
  report (the `MSG` lines), which reads through null if and only if their own allocation was refused.
- **Networks.** A primitive takes the contents of its memories to be in the layout its descriptor
  asked for. Whatever those layouts are, the reorders make every memory have the layout that is asked
  for, the inference net computes pool(lrn(relu(conv))), and any number of training iterations
  computes what the mathematics says.
- **Attention** weights sum to one, so contexts stay within the annotations. **`copy_context`** gives the
  same cells under every interleaving. **The decoder** runs both on its states in every iteration,
  reads what it wrote one iteration before, and all its outputs survive.
- **Printer and parser** are inverse exactly where the name that answers to a text has the value
  printed, which for well-formed enums means readable names; the `format_tag_last` sentinel is not one.

Where the code and its comments differ, the model follows the code: the clamps of the `CoordsVP`
constructor assign parameters that shadow the fields, and a counter limit of 0 in
`my_nd_iterator_step` acts as a limit of 1.

## Model

| member | source | states |
|---|---|---|
| `MixedRadix.NumberOfDigits` | dev/v.cpp:56-74 | taking a position apart into coordinates and putting them together again gives the position modulo the product of the spans |
| `MixedRadix.DigitsOfNumber` | dev/v.cpp:264-293 | coordinates within the spans are recovered from their linear position |
| `MixedRadix.DigitsPeriodic` | dev/thr.cpp:514-523 | the division chain repeats with the product of the spans as its period |
| `MixedRadix.DigitFromCarry` | dev/thr.cpp:517-523 | each coordinate is the remainder of what the chain carries when it reaches that dimension |
| `MixedRadix.WrapTimes` | dev/v.cpp:71-71 | wrapping a factor before the product loses only multiples of 2^64 |
| `NestedLoops.NestLength` | dev/thr.cpp:588-589 | the loop nest runs its body once per cell of the box, so the product of the spans is the loop count |
| `NestedLoops.NestIsDecode` | dev/thr.cpp:514-523 | the p-th body execution of the nest sees exactly the coordinates that division and remainder give for p |
| `NestedLoops.NestIsOrdered` | dev/thr.cpp:572-582 | the nest goes through coordinates in strictly increasing lexicographic order, hence never repeats one |
| `Odometer.AdvanceInNest` | dev/thr.cpp:857-867 | one odometer step goes from each body execution to the next, and from the last to the first, where alone it reports a wrap |
| `Odometer.TurnsDecode` | dev/thr.cpp:854-867 | k steps from the start give the division decode of k modulo the product of the bounds, and a step reports a wrap exactly when it returns to the start |
| `Odometer.WrapsCount` | dev/thr.cpp:854-867 | wraps times the size of the nest, plus the position in the current pass, is the number of steps taken |
| `Odometer.NdIteratorStep` | dev/thr.cpp:854-867 | the recursion over counters in place: a counter moves if all behind it carry, restarts at its limit, and the step reports whether all carry; earlier counters are untouched |
| `Odometer.SteppedIs` | dev/thr.cpp:857-867 | the rules of a step in numbers: when a counter moves, restarts or stays; counters stay below their limits; with limit 0 a counter stays 0 and passes every carry on |
| `Odometer.AdvanceByLimits` | dev/thr.cpp:857-867 | the odometer step over ranges is that rule over limits |
| `Odometer.NdIterate` | dev/thr.cpp:854-867 | k calls from all zeros leave the digits of k to the base of the limits and report k divided by their product wraps; a limit of 0 counts as 1 |
| `Odometer.NdIterateExample` | dev/thr.cpp:857-867 | with limits 3 and 2: (1, 0) after two steps, (0, 0) and one wrap after six |
| `Odometer.StepsDecode` | dev/thr.cpp:854-867 | the same for arbitrary lower bounds: coordinates by decode, number of wraps by division |
| `Coords.Coords.constructor` | dev/thr.cpp:451-451 | an empty iterator satisfies the invariant |
| `Coords.Coords.Sized` | dev/thr.cpp:49-61 | the fields keep what was passed, so the invariant holds exactly if the caller stayed within both limits |
| `Coords.Coords.SetRanges` | dev/thr.cpp:559-570 | the ranges of the object become the ranges given |
| `Coords.Coords.TotalSize` | dev/thr.cpp:588-589 | the running product in wrapping arithmetic is the true loop count modulo 2^64 |
| `Coords.Coords.FillByDimension` | dev/thr.cpp:514-523 | the vectorised fill puts the coordinates of consecutive positions, as 64-bit sums, in the lanes and changes no other cell; no span is zero when it divides |
| `Coords.FillDimension` | dev/thr.cpp:518-522 | one dimension of that fill turns every lane's carry into its coordinate and the next carry |
| `Coords.Coords.FillLane` | dev/thr.cpp:193-200 | the scalar carry loop puts the coordinates of position p in one lane and changes no other |
| `Coords.Coords.DecodedInNest` | dev/thr.cpp:514-523 | lanes filled from positions inside the nest hold the nest's executions |
| `Coords.WordIsSum` | dev/thr.cpp:509-516 | the sums of positions are those of 64-bit words |
| `Coords.Coords.FillByLane` | dev/thr.cpp:154-164 | the loops exchanged give the same lanes as the vectorised fill |
| `Coords.Coords.Place` | dev/thr.cpp:501-513 | position and batch length: full, cut at the end, or exhausted; the batch ends within the nest if and only if `pos + vl` does not wrap |
| `Coords.Coords.InitNd` | dev/thr.cpp:500-525 | for every position, the lanes hold the coordinates decoded from lin on, or the iterator is exhausted; unless `pos + vl` wraps that is the batch of the nest; true exactly if there is something to do |
| `Coords.Coords.InitByLane` | dev/thr.cpp:139-164 | the disabled variant reaches the same state |
| `Coords.Coords.InitAt` | dev/thr.cpp:583-599 | any ranges and start: the size is the 64-bit loop count and the first batch is in place, as for InitNd |
| `Coords.Coords.Step` | dev/thr.cpp:607-612 | moves on by exactly the current batch, in 64-bit arithmetic; goes back if and only if that sum wraps; an exhausted iterator stays exhausted |
| `Coords.StepBack` | dev/thr.cpp:607-612 | a step whose sum wraps starts over near the front of the nest |
| `Coords.Overrun` | dev/thr.cpp:500-612 | in any nest of 2^64 - 1 executions a full batch stays full at the last position, and the step goes back to the front |
| `Coords.OverrunExample` | dev/thr.cpp:500-612 | a nest of 2^64 - 1 executions: the batch at its last position keeps seven lanes, and the step goes back to position 5 |
| `Coords.Coords.TakeBatch` | dev/thr.cpp:629-636 | one turn of the client loop hands out the next slice of the nest |
| `Coords.Coords.Drain` | dev/thr.cpp:607-612 | the client loop hands out all that is left of the nest and ends exhausted |
| `Coords.Collect` | dev/thr.cpp:500-612 | a whole run is the nest from p on, complete if and only if the loop count fits 64 bits; every batch but the last is full and their number is the rounded-up quotient |
| `Coords.WholeNest` | dev/thr.cpp:588-589 | up to the wrapped size is the whole nest exactly if the product did not wrap |
| `Coords.WrappedNest` | dev/thr.cpp:588-589 | three 32-bit spans whose product is 2^64: the nest has that many executions, the size is zero |
| `Coords.UnwrappedExactly` | dev/thr.cpp:507-512 | the condition under which a run is proved is exactly that no batch start of it makes `pos + vl` wrap |
| `Coords.CutNext` | dev/thr.cpp:507-512 | cutting one more batch keeps all batches but the last full and the count right |
| `Coords.Coords.Fill1d` | dev/thr.cpp:231-233 | the one-dimensional variant fills the same lanes |
| `Coords.Coords.FillLane2d` | dev/thr.cpp:273-282 | one lane of the two-dimensional variant takes both digits of the division chain |
| `Coords.Coords.Fill2d` | dev/thr.cpp:271-287 | the two-dimensional variant fills the same lanes |
| `Coords.Coords.Extend` | dev/thr.cpp:184-204 | appends executions from lin on behind the lanes kept, up to the maximum, and reports whether any were added |
| `Coords.Coords.ExtendThenStep` | dev/thr.cpp:184-215 | the step after an extend resumes at lin plus old and new lanes, which is gap-free if and only if there were no old lanes or the extend reached the end |
| `Coords.GapExample` | dev/thr.cpp:184-215 | over [0, 10) with seven lanes, extending the batch at 8 from 0 and stepping goes on at 7 although only 0 to 4 were appended |
| `Coords.Coords.Odometer1d` | dev/thr.cpp:76-91 | the counter that starts one below lo, wrapping at 0, fills lane i with execution i modulo the size |
| `Coords.Coords.Odometer2d` | dev/thr.cpp:92-113 | the same for two nested counters |
| `VecPos.VecPos.constructor` | dev/v.cpp:43-44 | the object is set up with the given counts |
| `VecPos.VecPos.Coords` | dev/v.cpp:46-53 | the coordinates of a position, padded with zeros |
| `VecPos.VecPos.L2Pos` | dev/v.cpp:264-293 | every lane's coordinates are the digits of its offset |
| `VecPos.VecPos.Vpos2Phys` | dev/v.cpp:56-74 | every lane's offset is the number its coordinates stand for, modulo 2^64, though the stride itself wraps |
| `VecPos.OffsetIsNumber` | dev/v.cpp:62-72 | coordinate times running stride, summed, is the linear position |
| `VecPos.WrapStep` | dev/v.cpp:68-68 | wrapping the sum, and the stride in it, loses only multiples of 2^64 |
| `VecPos.RoundTrip` | dev/v.cpp:56-293 | offsets come back modulo the true product of the dimensions, even when that exceeds 2^64, hence unchanged when in range |
| `VecPos.CoordinatesRecovered` | dev/v.cpp:56-293 | all coordinates come back through their offsets if and only if the product of the dimensions is at most 2^64 |
| `VecPos.CoordinatesLost` | dev/v.cpp:56-293 | beyond that, the coordinates of offset 2^64 come back as those of offset 0 |
| `BlockSize.StackFriendlyBlksz` | dev/stack_friendly_blksz.cpp:21-77 | a usable size results exactly if hi is positive and the rounding sum does not wrap; it fits the buffer, needs as many blocks as the largest size, exceeds half the buffer for large hi, its last block is no smaller than the naive one, and where the remainder is below 4096 no size smaller by MVL needs so few blocks |
| `BlockSize.BestBlocks` | dev/stack_friendly_blksz.cpp:21-37 | no size that fits needs fewer blocks |
| `BlockSize.BlocksMonotone` | dev/stack_friendly_blksz.cpp:26-29 | larger blocks never need more of them |
| `BlockSize.EqualSplit` | dev/stack_friendly_blksz.cpp:28-30 | the rounded-up equal split covers hi, with less than one block of slack, within the buffer and above half of it |
| `BlockSize.WrapExample` | dev/stack_friendly_blksz.cpp:30-30 | a size for which the rounding sum does wrap |
| `BlockSize.OneTooMany` | dev/stack_friendly_blksz.cpp:28-34 | 16385 channels are split into blocks of 8224 and 8161 |
| `InvSqrt.FormatsAreUsable` | dev/vrsqrt.cpp:30-30 | both constants, and that they have the exponent and mantissa fields the proofs rest on |
| `InvSqrt.ValueStep` | dev/vrsqrt.cpp:29-31 | what patterns stand for: zero for 0, and from each pattern to the next one unit of the last place of its binade |
| `InvSqrt.EqualSteps` | dev/vrsqrt.cpp:29-31 | steps within a binade are equal |
| `InvSqrt.ValueOne` | dev/vrsqrt.cpp:29-31 | the bias in the exponent field stands for one |
| `InvSqrt.ValueDoubles` | dev/vrsqrt.cpp:29-31 | one more in the exponent field doubles |
| `InvSqrt.ValueIncreases` | dev/vrsqrt.cpp:29-31 | larger patterns stand for larger numbers, subnormal ones included |
| `InvSqrt.GuessFields` | dev/vrsqrt.cpp:30-30 | the subtraction field by field, with and without a borrow |
| `InvSqrt.GuessIsNormal` | dev/vrsqrt.cpp:29-31 | every finite non-negative pattern has a positive normal guess |
| `InvSqrt.GuessClass` | dev/vrsqrt.cpp:29-31 | every positive normal pattern falls into one of three classes with known exponent sum and mantissa sum |
| `InvSqrt.GuessQuality` | dev/vrsqrt.cpp:29-31 | for every positive normal x the guess y has x*y*y between 0.93 and 1.07 |
| `InvSqrt.NewtonStep` | dev/vrsqrt.cpp:32-34 | one step turns the error h into h*h*(3+h)/4, so it never overshoots |
| `InvSqrt.Newton` | dev/vrsqrt.cpp:28-35 | the error after one and two steps, exactly, for every guess; from one within 7% it is in [0, 0.004] and [0, 0.0000125] |
| `InvSqrt.InvSqrt` | dev/vrsqrt.cpp:23-36 | the error of the result in terms of the guess for every finite pattern; for every positive normal input the result is positive, not above the true value, and within those bounds |
| `InvSqrt.FourExample` | dev/vrsqrt.cpp:23-36 | at 4.0f the guess is 0x3ef759df and two steps come within 0.0001 of one half |
| `Scales.SetMeans` | dev/has_def.cpp:240-261 | a set that succeeds makes the object mean its arguments whatever it was before; it fails exactly if more than one known scale is to be stored and memory is refused |
| `Scales.SetKeeps` | dev/has_def.cpp:240-261 | set keeps every object sound and every block owned once, on success and on failure, and disturbs no other object |
| `Scales.CleanupKeeps` | dev/has_def.cpp:231-237 | cleanup gives the object's block back and leaves every other block owned |
| `Scales.DestroyKeeps` | dev/has_def.cpp:174-174 | destroying an object leaks nothing |
| `Scales.CopySettable` | dev/has_def.cpp:169-172 | the copy constructor reads only live initialised cells of its source if and only if the source is not null |
| `Scales.AssignSettable` | dev/has_def.cpp:176-183 | assignment never reads the block it is about to free, and reads only live initialised cells if and only if its source is not null |
| `Scales.OwnBlockIsGone` | dev/has_def.cpp:240-246 | an object's own block is the source that must not be passed to set: it is freed before it is read |
| `Scales.StepKeeps` | dev/has_def.cpp:157-183 | every operation keeps the invariant over all objects and blocks; where it reads a null source, all blocks and all other objects are still in order |
| `Scales.RunIsSafe` | dev/has_def.cpp:157-261 | over any run, also one that ends in a read through null, every block is owned by exactly one object; if it does not, the invariant holds, and when all objects are gone the heap is empty |
| `Scales.RunCrashes` | dev/has_def.cpp:157-261 | a run ends early exactly at an operation that reads a null source or, with reports, ran out of memory |
| `Scales.UnusableIsNull` | dev/has_def.cpp:196-218 | an object has lost its scales if and only if its pointer is null, and exactly then there is no cell for defined and has_default_values to read |
| `Scales.NullSourceExample` | dev/has_def.cpp:240-261 | a set refused memory, which completes, and then an assignment from that object, which reads through null |
| `Scales.EqualIsSymmetricAndTransitive` | dev/has_def.cpp:187-194 | equality is symmetric and transitive |
| `Scales.SelfEqual` | dev/has_def.cpp:187-194 | an object equals itself exactly if it holds the sentinel or no NaN among its scales |
| `Scales.FloatEqDecides` | dev/has_def.cpp:97-97 | float equality, section 5.11 of IEEE 754-2008: finite patterns are equal if and only if they stand for the same number, an infinity equals only itself, a NaN nothing |
| `Scales.PatternClasses` | dev/has_def.cpp:131-142 | which 32-bit patterns are finite and which are NaN |
| `Scales.EqualAre` | dev/has_def.cpp:187-194 | equality in terms of the cells held: count, mask, both pointers, both or neither the sentinel, every scale |
| `Scales.AllOnesAre` | dev/has_def.cpp:196-216 | default values in terms of the cells held |
| `Scales.HeldIs` | dev/has_def.cpp:223-236 | what an object holds: its own buffer of 16, its block, or nothing |
| `Scales.ConstantsAre` | dev/has_def.cpp:132-142 | the sentinel is a NaN, the default scale stands for one |
| `Scales.ComparisonExample` | dev/has_def.cpp:187-216 | an object holding 2.0f has no default values and differs from a default object, which equals itself |
| `Scales.AssignMeans` | dev/has_def.cpp:176-183 | assignment from a source that is not null makes the target mean what the source means, or unusable exactly if memory was needed and refused; the source is unchanged |
| `Scales.CopyMeans` | dev/has_def.cpp:169-172 | so does the copy constructor |
| `Scales.CopyEquals` | dev/has_def.cpp:169-194 | a copy that is made equals its source if and only if memory was not refused and the source is the sentinel or holds no NaN |
| `Scales.DefaultMeans` | dev/has_def.cpp:157-160 | the default constructor's assertions hold: one defined scale of 1.0 |
| `Scales.ReportIsSafe` | dev/has_def.cpp:146-182 | copy and assignment find a live initialised source cell if and only if the source is not null; past that, the report of an operation reads a live initialised cell if and only if its set did not run out of memory |
| `Scales.ReportExample` | dev/has_def.cpp:163-167 | two scales and no memory: the constructor's report reads through null |
| `Scales.Memory.constructor` | dev/has_def.cpp:144-144 | no objects and no blocks satisfy the invariant |
| `Scales.Memory.Release` | dev/has_def.cpp:232-232 | only a live block may be freed, and it is gone afterwards |
| `Scales.Memory.Load` | dev/has_def.cpp:246-257 | a read needs a live initialised cell |
| `Scales.Memory.CleanUp` | dev/has_def.cpp:231-237 | carries out cleanup |
| `Scales.Memory.FillBuffer` | dev/has_def.cpp:101-105 | the whole inline buffer gets the value, although the value is read through a reference each time |
| `Scales.Memory.FillBlock` | dev/has_def.cpp:253-257 | the new block holds the first count scales of the source |
| `Scales.Memory.StoreScales` | dev/has_def.cpp:243-260 | the three ways of storing, and running out of memory |
| `Scales.Memory.StoreBlock` | dev/has_def.cpp:253-257 | a block of its own with the scales copied, or null when memory is refused |
| `Scales.Memory.SetScales` | dev/has_def.cpp:240-261 | carries out set |
| `Scales.Memory.Report` | dev/has_def.cpp:148-152 | the report reads the first scale, whether it is the sentinel and whether all scales are defaults, from live cells only |
| `Scales.Memory.SetFrom` | dev/has_def.cpp:169-183 | set from another object gets past its first read if and only if the pointer is not null |
| `Scales.Memory.CopyConstruct` | dev/has_def.cpp:169-172 | the delegating copy constructor carries out its step |
| `Scales.Memory.Change` | dev/has_def.cpp:157-183 | each constructor, assignment and destructor carries out its step, up to the read of a null source |
| `Scales.Memory.Perform` | dev/has_def.cpp:157-183 | an operation completes if and only if its source is not null and, where it reports, it did not run out of memory; if it completes it keeps the invariant |
| `Scales.Memory.Defined` | dev/has_def.cpp:218-218 | true exactly if the scales are known |
| `Scales.Memory.HasDefaultValues` | dev/has_def.cpp:196-216 | true exactly if all scales are known and equal 1, cell by cell; nothing behind the sentinel is read, whatever the count |
| `Scales.Memory.Equals` | dev/has_def.cpp:187-194 | decides equality, of meanings and cell by cell, without reading through null or past a sentinel |
| `Scales.Memory.ArrayCmp` | dev/has_def.cpp:94-99 | true exactly if all elements are equal as floats |
| `Execution.Net.constructor` | examples/cnn_inference_f32.c:169-171 | all slots empty |
| `Execution.Net.Append` | examples/cnn_inference_f32.c:269-275 | fills the next slot, which was empty, and no other |
| `Execution.Net.PrepareReorder` | examples/cnn_inference_f32.c:118-162 | a reorder in the asked direction is added exactly if the descriptors differ |
| `Execution.Net.ReserveBeforeReorder` | examples/cnn_inference_f32.c:401-405 | the reorder is prepared one slot ahead and the slot before it stays free |
| `Execution.Net.FillReserved` | examples/cnn_inference_f32.c:413-420 | the primitive goes into the free slot, its reorder follows, and no slot is skipped or filled twice |
| `Execution.Net.Execute` | examples/cnn_inference_f32.c:424-427 | executing the slots runs the plan they hold |
| `Execution.ExecIsLogical` | examples/cnn_inference_f32.c:425-426 | with matching descriptors, executing and decoding is decoding and computing |
| `Execution.PlanIsLogical` | examples/cnn_inference_f32.c:424-427 | the same for whole plans: raw memories follow the logical tensors |
| `Execution.RunsIsRunPlan` | examples/cnn_inference_f32.c:424-427 | a step-by-step run that reads nothing undefined is what the loop computes |
| `Networks.BuildForward` | examples/cnn_inference_f32.c:168-420 | for all layouts the ten slots hold exactly the forward plan, each slot below n filled once |
| `Networks.BuildConv` | examples/cnn_inference_f32.c:244-275 | the convolution is given the internal memories where reorders were made and the user's elsewhere |
| `Networks.BuildPool` | examples/cnn_inference_f32.c:393-420 | the pooling writes the internal memory exactly if a reorder follows it |
| `Networks.ReorderIn` | examples/cnn_inference_f32.c:250-264 | the memory chosen holds what the user's holds |
| `Networks.ReorderOut` | examples/cnn_inference_f32.c:403-408 | the user's memory gets what the primitive's holds |
| `Networks.ForwardComputes` | examples/cnn_inference_f32.c:246-420 | the forward plan reads nothing undefined, leaves the prediction, activations and workspaces, and keeps all other memories |
| `Networks.ForwardTyped` | examples/cnn_inference_f32.c:246-420 | every argument is in the layout that its primitive's descriptor asked for, and the memory passed has exactly that descriptor |
| `Networks.ForwardReordersNeeded` | examples/cnn_inference_f32.c:132-159 | the plan without reorders would give every argument the layout asked for if and only if all layouts agree, and exactly then it is the plan that is built |
| `Networks.ForwardRequired` | examples/cnn_inference_f32.c:239-400 | which queried descriptor each argument of each forward primitive carries |
| `Networks.ForwardOnStore` | examples/cnn_inference_f32.c:424-427 | the same on raw memories, decoded by each primitive in the layout it asked for |
| `Networks.UserDataGiven` | examples/cnn_inference_f32.c:202-210 | writing the user's data makes it readable through the user's descriptors |
| `Networks.Infer` | examples/cnn_inference_f32.c:164-427 | from user data to user data, for all layouts, the result is pool(lrn(relu(conv(src, weights, bias)))) |
| `NetData.InitNetData` | examples/cnn_inference_f32.c:73-88 | with one axis or four, every cell of the product gets its own index modulo 1637 and the rest is unchanged; other ranks change nothing |
| `NetData.PeriodExample` | examples/cnn_inference_f32.c:83-85 | cell 1636 holds 1636, cell 1637 holds 0 |
| `NetData.FillLine` | examples/cnn_inference_f32.c:82-86 | the innermost loop continues where the previous line ended |
| `NetData.IndexIsNested` | examples/cnn_inference_f32.c:83-84 | the index expression is the row-major position |
| `Training.BuildBackward` | examples/cpu_cnn_training_f32.c:457-665 | for all layouts the ten slots hold exactly the backward plan, each slot below n filled once |
| `Training.BuildConvBwd` | examples/cpu_cnn_training_f32.c:590-665 | the weights gradient is given internal memories exactly where reorders were made |
| `Training.PrepareConvBwd` | examples/cpu_cnn_training_f32.c:596-621 | the two reorders in front of the weights gradient, and the memories it then reads |
| `Training.BackwardComputes` | examples/cpu_cnn_training_f32.c:457-665 | from the activations and workspaces of the forward pass the backward plan computes both gradients and reads nothing undefined |
| `Training.BackwardTyped` | examples/cpu_cnn_training_f32.c:457-665 | every argument is in the layout its primitive's descriptor asked for, and the memory passed has exactly that descriptor |
| `Training.BackwardReordersNeeded` | examples/cpu_cnn_training_f32.c:457-665 | the same for the backward plan |
| `Training.BackwardRequired` | examples/cpu_cnn_training_f32.c:440-644 | which queried descriptor each argument of each backward primitive carries |
| `Training.BackwardOnStore` | examples/cpu_cnn_training_f32.c:687-689 | the same on raw memories |
| `Training.HandOver` | examples/cpu_cnn_training_f32.c:676-684 | after the forward pass and the user's update all that the backward pass reads is in place |
| `Training.NextModel` | examples/cpu_cnn_training_f32.c:687-699 | after the backward pass and the user's update the memories hold the next model |
| `Training.TrainOnce` | examples/cpu_cnn_training_f32.c:675-700 | one turn of the loop is one mathematical iteration |
| `Training.TrainLoop` | examples/cpu_cnn_training_f32.c:675-700 | from memories that hold the first of a sequence of models, each the iteration of the one before, the loop ends with memories that hold the last |
| `Training.IterateIs` | examples/cpu_cnn_training_f32.c:676-699 | one iteration written out in the primitives and the user's updates |
| `Training.TrainingDataLoaded` | examples/cpu_cnn_training_f32.c:428-437 | writing the user's data, output gradient included, loads the model |
| `Training.Train` | examples/cpu_cnn_training_f32.c:150-700 | from user data to user data, for all layouts: the result is that of the last of iterations + 1 models, each the iteration of the one before; for one iteration written out |
| `Attention.SharesSumToOne` | examples/cpu_rnn_inference_f32.cpp:118-134 | normalised exponentials are positive and sum to one |
| `Attention.SharesAreUnique` | examples/cpu_rnn_inference_f32.cpp:118-134 | they are the only weights in the same proportions that do |
| `Attention.Exponentiate` | examples/cpu_rnn_inference_f32.cpp:119-129 | every alignment becomes its exponential and every sum that of its batch item's column |
| `Attention.Normalize` | examples/cpu_rnn_inference_f32.cpp:131-134 | every entry is divided by its batch item's sum, which is never zero |
| `Attention.Softmax` | examples/cpu_rnn_inference_f32.cpp:118-134 | each batch item's column becomes the shares of its exponentials |
| `Attention.ClearContext` | examples/cpu_rnn_inference_f32.cpp:137-142 | context halves are zero, hidden halves unchanged |
| `Attention.MixItem` | examples/cpu_rnn_inference_f32.cpp:145-151 | one batch item's context is its annotations mixed with its weights |
| `Attention.MixContext` | examples/cpu_rnn_inference_f32.cpp:144-151 | the same for all batch items, hidden halves unchanged |
| `Attention.MixtureWithin` | examples/cpu_rnn_inference_f32.cpp:144-151 | a mixture with such weights lies between the least and the greatest of what it mixes |
| `Attention.Attend` | examples/cpu_rnn_inference_f32.cpp:118-152 | all of this together: weights sum to one, contexts are the mixtures and lie within their annotations, hidden halves and later layers are unchanged |
| `CopyContext.TargetsDiffer` | examples/cpu_rnn_inference_f32.cpp:158-164 | no two iterations write the same cell |
| `CopyContext.TargetsAreNotRead` | examples/cpu_rnn_inference_f32.cpp:158-164 | no iteration writes a cell that an iteration reads |
| `CopyContext.TargetsAreNotHidden` | examples/cpu_rnn_inference_f32.cpp:158-164 | no iteration writes a hidden half |
| `CopyContext.CopiedIsUnique` | examples/cpu_rnn_inference_f32.cpp:154-165 | the outcome is determined by the input, cell by cell |
| `CopyContext.Keeps` | examples/cpu_rnn_inference_f32.cpp:157-164 | what every load and every store keeps, in any interleaving |
| `CopyContext.EveryOrderKeeps` | examples/cpu_rnn_inference_f32.cpp:157-164 | so it holds after any part of any schedule |
| `CopyContext.EveryOrderCopies` | examples/cpu_rnn_inference_f32.cpp:157-164 | however loads and stores are interleaved, once all iterations have stored every layer has the first layer's context and all hidden halves are unchanged |
| `CopyContext.CopiedInNumbers` | examples/cpu_rnn_inference_f32.cpp:161-164 | the copy in terms of the index expressions |
| `CopyContext.OrderDoesNotMatter` | examples/cpu_rnn_inference_f32.cpp:157-164 | any two complete schedules leave the same cells |
| `CopyContext.CopyContext` | examples/cpu_rnn_inference_f32.cpp:154-165 | the loops in program order do the same |
| `States.HalvesAre` | examples/cpu_rnn_inference_f32.cpp:161-164 | where hidden and context halves lie |
| `ContextStep.PrepareStates` | examples/cpu_rnn_inference_f32.cpp:740-754 | attention and copy one after the other: every layer's context half is the batch item's mixture, no hidden half has changed, and so every cell of the states is known |
| `ContextStep.PreparedIs` | examples/cpu_rnn_inference_f32.cpp:740-754 | contexts and hidden halves determine the states |
| `ContextStep.PreparedHas` | examples/cpu_rnn_inference_f32.cpp:740-754 | the prepared states have those contexts and hidden halves |
| `Decoder.Decoder.constructor` | examples/cpu_rnn_inference_f32.cpp:542-543 | both handles start at the beginning of their buffers |
| `Decoder.Decoder.ClearSource` | examples/cpu_rnn_inference_f32.cpp:723-724 | the first source window is zero |
| `Decoder.Decoder.Score` | examples/cpu_rnn_inference_f32.cpp:740-745 | the attention starts from the scores of the current source window |
| `Decoder.Decoder.Prepare` | examples/cpu_rnn_inference_f32.cpp:740-754 | every layer's contexts become the mixtures for the scores of the current source window, hidden halves stay |
| `Decoder.Decoder.Fire` | examples/cpu_rnn_inference_f32.cpp:764-765 | the target window, and nothing else, is written from the source window and the states, which stay intact meanwhile |
| `Decoder.Decoder.Renew` | examples/cpu_rnn_inference_f32.cpp:621-630 | the cell writes the hidden halves of the states and no context half |
| `Decoder.Decoder.RunCell` | examples/cpu_rnn_inference_f32.cpp:764-765 | window, hidden halves and cell states all come from the same prepared states |
| `Decoder.Decoder.Compute` | examples/cpu_rnn_inference_f32.cpp:740-765 | attention, copy and cell together are one step of the recurrence |
| `Decoder.Decoder.Step` | examples/cpu_rnn_inference_f32.cpp:740-777 | one pass: one step of the recurrence, and both handles move on by one window |
| `Decoder.Decoder.Iterate` | examples/cpu_rnn_inference_f32.cpp:729-779 | iteration i writes window i from what iteration i-1 wrote and leaves all earlier windows alone |
| `Decoder.Decoder.Loop` | examples/cpu_rnn_inference_f32.cpp:729-779 | for any number of iterations every access is in bounds and every output survives |
| `Decoder.TurnIs` | examples/cpu_rnn_inference_f32.cpp:729-779 | every turn of the recurrence in terms of scores, contexts, hidden halves and the cell |
| `Decoder.Decoder.Run` | examples/cpu_rnn_inference_f32.cpp:723-779 | in every iteration the attention and the copy have run on the states and the cell on what they left; inputs are the previous outputs, states the previous states; all outputs are in the buffer in order, and the handle ends one past it |
| `DebugText.FuncToStr` | scripts/generate_dnnl_debug.py:211-221 | one comparison per name, in order, each returning the sanitized name |
| `DebugText.StrToFunc` | scripts/generate_dnnl_debug.py:232-261 | the generated parser, or no parser when no name is an undefined value |
| `DebugText.First` | scripts/generate_dnnl_debug.py:199-201 | the leftmost occurrence, at which the text is split |
| `DebugText.SanitizeStrips` | scripts/generate_dnnl_debug.py:194-202 | sanitizing strips exactly the longest known prefix, and no "dnnl_" is left |
| `DebugText.LastSurvives` | scripts/generate_dnnl_debug.py:194-202 | stripping a prefix never cuts into the word last |
| `DebugText.CasesAre` | scripts/generate_dnnl_debug.py:244-252 | the CASE lines are the texts of the names without any of the three words |
| `DebugText.SpecialsAre` | scripts/generate_dnnl_debug.py:244-251 | the other comparisons are for the names with one of them |
| `DebugText.UndefIs` | scripts/generate_dnnl_debug.py:245-247 | there is an undefined value to fall back on exactly if some name contains the word, and it is the last such name |
| `DebugText.ListsInOrder` | scripts/generate_dnnl_debug.py:244-258 | CASE lines and other comparisons keep the order of the names |
| `DebugText.ContainsIs` | scripts/generate_dnnl_debug.py:195-197 | the in operator: a piece of the string |
| `DebugText.LastPieceIs` | scripts/generate_dnnl_debug.py:199-201 | the last piece of a split: no separator in it, and one just before it if there was any |
| `DebugText.ShortIsLeftmost` | scripts/generate_dnnl_debug.py:255-255 | the short word is the leftmost of the three |
| `DebugText.CompilesExactly` | scripts/generate_dnnl_debug.py:237-258 | the parser names existing enumerators only, if and only if every name that loses a longer prefix still names one |
| `DebugText.PrintIs` | scripts/generate_dnnl_debug.py:216-218 | the printer answers with the first listed name of that value |
| `DebugText.ReadBackExactly` | scripts/generate_dnnl_debug.py:194-261 | what the parser makes of every printed text, for any enum whose parser compiles: the name that answers decides |
| `DebugText.RoundTripExactly` | scripts/generate_dnnl_debug.py:194-261 | for any such enum, parsing a printed value gives the value if and only if the name that answers has it |
| `DebugText.ReadBack` | scripts/generate_dnnl_debug.py:194-261 | for well-formed enums, the text of a name with one of the three words is read back exactly if it is that name's short word |
| `DebugText.RoundTrip` | scripts/generate_dnnl_debug.py:194-261 | parsing a printed value gives the value, aliases included, if and only if the printed name has none of the three words or prints as its short word |
| `DebugText.ReadableNames` | scripts/generate_dnnl_debug.py:253-258 | names with at most one of undef and any and without last are readable; a name with last alone is readable only if it is dnnl_last |
| `DebugText.FullNamesExactly` | scripts/generate_dnnl_debug.py:237-258 | the full name of a listed value parses to that value if and only if it has one of the three words or a CASE line, and is unknown otherwise |
| `DebugText.FullNames` | scripts/generate_dnnl_debug.py:237-258 | without the two longer prefixes the full name of every listed value parses to that value |
| `DebugText.ParsedIsListed` | scripts/generate_dnnl_debug.py:232-261 | the parser returns listed values only, also when it gives up, as long as its CASE lines name listed values |
| `DebugText.KnownStrings` | scripts/generate_dnnl_debug.py:237-258 | the strings the parser knows: texts and full names of CASE lines, short words and full names of the others |
| `DebugText.NormalIsIdempotent` | scripts/generate_dnnl_debug.py:194-261 | print after parse is idempotent exactly where the name it prints is readable or stands for the undefined value |
| `DebugText.IdempotentExactly` | scripts/generate_dnnl_debug.py:194-261 | for a whole enum: idempotent on all strings if and only if every name the printer can pick is readable or an alias of the undefined value |
| `DebugText.SentinelIsLost` | scripts/generate_dnnl_debug.py:194-258 | every other name with last prints as a text that the parser does not know |
| `DebugText.FormatTagLast` | scripts/generate_dnnl_debug.py:253-258 | the format tag sentinel is one |

## Left out

- Coords.Coords.Odometer1d: says what the lanes hold for nonempty ranges only, as with an empty range there is no execution to put in a lane.
- Coords.Coords.Odometer2d: likewise; ranges with hi below lo are excluded, as in the other variants.
- Coords.Collect: runs in which `pos + vl` wraps are excluded, as they go back instead of ending (Step, UnwrappedExactly).
- Coords.Coords.Drain: likewise.
- Coords.Coords.Extend: a remaining length so large that `vl + addvl` wraps is excluded, as the code then writes past its registers.
- Coords.Coords.ExtendThenStep: needs the size plus the batch length to fit 64 bits.
- InvSqrt.InvSqrt: states bounds for positive normal inputs; negative, infinite and NaN inputs are not modelled, and zero and small subnormals have no accuracy to state. Rounding of the Newton multiplications is left out: they are exact reals.
- Scales.Memory.SetScales: a count below 1, a source that is the object's own block, and a pointer argument that is null or does not hold what is read are excluded, as all of them make the code read cells that are not there.
- Networks.BuildForward: the engines passed to prepare_reorder, the status checks and the destruction of primitives are not modelled.
- Networks.Infer: the bodies of the primitives are parameters, any functions on tensors; memory layouts are abstract, with decoding after encoding the identity.
- Training.Train: the user's updates between the passes are any functions of the tensors they are given.
- Training.HandOver: the comment in the loop speaks of updating the buffer `net_diff_dst`, which the memory of the output gradient only copied (examples/cpu_cnn_training_f32.c:436, 683); the model updates the memory, without which the update would have no effect.
- Attention.Attend: starts from given alignment scores; the matrix products and the hyperbolic tangent before line 118 are not modelled, the exponential is any positive function, sums are exact, and the loops run sequentially because parallel iterations share their accumulators.
- Decoder.Decoder.Step: the alignment scores and the LSTM cell are any functions of the source window, the prepared states and the cell states.
- DebugText.RoundTrip: leaves out names that start with "dnnl_scratchpad_mode_" or "dnnl_format_kind_", and several names with last beside "dnnl_last"; RoundTripExactly covers both.
- DebugText.NormalIsIdempotent: likewise.
- DebugText.IdempotentExactly: likewise.
- `product` of the convolution examples: the same wrapping product as the iterator's size.
- `hoist_ApiB` (dev/hoi.cpp, dev/hoi2.cpp): the function itself is not part of this model.
- Blocked layouts, reshape, permute and the primitive cache: only declared in the headers.
- The int8 RNN example: its compensation sums hold for the example's constant weights only.
- Printing, OpenMP queries, OpenCL interop, inline assembly and the accuracy tables of dev/: input and output, or dependent on hardware.
