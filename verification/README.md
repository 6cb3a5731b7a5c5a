# Verified model of Dittosuite

Dittosuite is a small workload language for storage and CPU benchmarks.  A parser and a factory
compile a benchmark, whose instructions share named variables, into executable instructions that
refer to numbered slots; an interpreter runs trees of instructions with nested repetitions;
`multithreading` runs children in threads or in forked processes; results are regrouped,
serialised and printed; and a tracer turns strace logs back into workloads.

This project models those parts in Dafny and proves what they are for:

- **Fork, pipes and barriers** (`Multiprocessing`, `MultiprocessingInvariant`,
  `MultiprocessingSafety`, `MultiprocessingProgress`, `MultiprocessingProgram`): a step relation over
  N children and a manager, for every interleaving and every pattern of short reads and writes.
  Payloads arrive complete, end of file is seen exactly when it should be, phases are separated, no
  schedule deadlocks and every schedule is finite; and, read off the schedule alone, every process
  takes the steps of its program in order, each as often as it should.  `Multithreading` and
  `MultithreadingProgram` have the thread version with repeated rounds.  Both are state machines over
  atomic steps, because what matters about their loops is how they interleave.
- **Names to slots** (`Scopes`, `Workload`, `Factory`, `Declarations`, `Interpreter`,
  `NameResolution`, `Parser`, `Spawning`, `Siblings`, `Footprint`, `LeafEffects`): the compiler pass,
  its scope invariant, which benchmarks parse to their end, how many threads are spawned and what each
  runs, non-interference between sibling threads, what executing compiled code can touch, the calls
  and the effect of every single instruction, and the theorem that the compiled benchmark makes the same calls and leaves the
  same values as interpreting names directly.  `SharedVariables`, `InstructionFactory` and
  `Dittobench` are the classes and loops of the program, each proved against those functions.
- **Block plans and file contents** (`BlockPlan`, `ReadWriteFile`, `FileTransfer`): the wrapping
  sequential offsets in closed form, reseeding over nested rounds, and the bytes a write leaves.
  `FileRuns` ties the interpreter to those plans call by call; `Resizing`, `Iterating` and
  `Repetition` say what random resizing, iterating over a list and nested repetition amount to.
- **Sample regrouping** (`Results`, `SampleRuns`, `Regrouping`, `RegroupingLimits`): the index
  arithmetic that collects the durations of a set agrees with the nested loops that recorded them,
  and exactly when it does.
- **Tracing** (`Strings`, `TraceText`, `TraceRoundTrip`, `PidColumn`, `DittoTrace`, `Replay`,
  `ReplayCalls`): reading strace text undoes printing it, sessions are grouped without loss,
  replaying a traced workload issues the traced transfers exactly when they fit in the replayed file,
  and each session keeps to the descriptor that its own open returned.
- **Time and result arithmetic** (`Doubles`, `Timespec`, `Nanoseconds`, `Periodic`, `ResultTree`,
  `Histogram`): time conversions through rounded doubles, wakeups without drift, the serialised
  result tree and the histogram bins.

Conventions.  A place where the program exits, throws or is undefined is a `None`, a halted
machine, or a precondition where the program checks nothing and its caller must see to it.
System calls, clocks, the random generator and the file system are parameters: an abstract kernel
function for the interpreter, an abstract generator for plans, an interleaving for protocols.
Bounds of random draws are narrowed to 32-bit ints as in the program; what a draw between reversed
bounds gives is left open, as the C++ standard leaves it.

Differences from what the repository intends, each stated as a theorem:

- The tracer drops one character after the absolute path (dittotrace.cpp:154), so the path a
  replay opens is never the traced one (`Replay.ReplayedPathDiffers`).
- An instruction set below the root that iterates over a list of two or more items spoils the
  collected durations.  `CollectResults` writes past its vector if some child of a set has more
  groups (entries per repetition) than the first child, and otherwise stays inside but reports
  more entries than repetitions (`RegroupingLimits.NestedIterationFails`; the conditions are in
  `RegroupingLimits.InBoundsExactly` and `RegroupingLimits.RegroupingAgreesExactly`).
- Random offsets in a file of more than 2 GiB, and random sizes beyond 2 GiB, are drawn between
  narrowed bounds: transfers may lie outside the file, parts of it may never be reached, and a
  resize may exit (`FileTransfer.RandomOutside`, `Resizing.ResizeRandomFails`; the conditions are
  in `FileTransfer.RandomInsideExactly`, `FileTransfer.RandomCoversExactly` and
  `Resizing.ResizeRandomExactly`).
- A descriptor that is opened again while it has transfers pending loses them
  (`Replay.NothingLostExactly`).
- The calls of a process are read only if exactly two blanks follow its number
  (`PidColumn.RecoveredExactly`).
- The histogram's bin size is a 32-bit int; a wider range wraps it around and the greatest sample
  has no bin (`Histogram.WrappedExample`; `Histogram.BinsExactly` has the condition).
- From 2^53 + 1 nanoseconds on `TimespecToNanos` can lose the last bits, and beyond 2^62 even times
  that a double can hold (`Timespec.ToNanosBound`, `Nanoseconds.RoundedTwice`;
  `Nanoseconds.ToNanosExactly` has the condition).
- After an unfinished call the tracer takes the next line of the process for its other half, whatever
  it is, and loses the call in it or throws (`TraceRoundTrip.UnfinishedTakesNext`).
- The tracer does not look at what a transfer returned.  One that failed at a negative offset is kept
  and ends the replay (`Replay.FailedTransferReplayed`; `Replay.ReplayIsExact` has the condition).

## Model

| member | source | states |
|---|---|---|
| Multiprocessing.Apply | src/multiprocessing.cpp:73-204 | every step of the N + 1 processes keeps program counters and pipe positions within range |
| MultiprocessingInvariant.WritersStep | src/multiprocessing.cpp:73-95 | after any step, a process holds a pipe's write end exactly if it inherited it and its close loop has not reached it |
| MultiprocessingInvariant.LocksStep | src/multiprocessing.cpp:97-130 | after any step, mutex and barriers agree with where each child is: one owner, arrivals are exactly the children past the barrier, nobody passes before all have arrived |
| MultiprocessingInvariant.BarrierOpen | src/multiprocessing.cpp:122-132 | a full barrier means every child has arrived |
| MultiprocessingInvariant.PipesStep | src/multiprocessing.cpp:152-204 | any step keeps received ++ in pipe ++ unsent equal to the payload, for any short read or write |
| MultiprocessingInvariant.InvStep | src/multiprocessing.cpp:73-216 | the whole invariant is kept by every step |
| MultiprocessingInvariant.Reachable | src/multiprocessing.cpp:33-217 | the invariant holds in every state of every schedule |
| MultiprocessingSafety.Delivery | src/multiprocessing.cpp:152-204 | over every run nothing is lost, duplicated or reordered on a pipe, pipes stay within capacity, and a completed result is the child's payload |
| MultiprocessingSafety.EofExactly | src/multiprocessing.cpp:160-173 | end of file is possible exactly when the child has closed its end and the manager holds its whole payload |
| MultiprocessingSafety.PhaseSafety | src/multiprocessing.cpp:90-140 | at most one child is in set-up; none runs before all are past it and hold no foreign write end; none collects before all have finished running; `MultiprocessingProgram` ties these places to the steps taken |
| MultiprocessingSafety.DestroySafe | src/multiprocessing.cpp:206-216 | when mutex and barriers are destroyed nobody uses them, no write end is open and all payloads are in, in child order |
| MultiprocessingProgress.MeasureFalls | src/multiprocessing.cpp:73-216 | every step lowers a natural measure |
| MultiprocessingProgress.Terminates | src/multiprocessing.cpp:73-216 | the length of every schedule is bounded by the initial measure |
| MultiprocessingProgress.Progress | src/multiprocessing.cpp:152-204 | in every reachable state that is not final some process can move, although the manager drains pipes in index order while later children block |
| MultiprocessingProgress.NoDeadlock | src/multiprocessing.cpp:33-217 | a schedule can be extended exactly until all processes have finished, and then every payload has been collected |
| MultiprocessingProgram.ChildFollowsProgram | src/multiprocessing.cpp:90-209 | in every schedule the steps of a child are the first of its program: N turns of the close loop, lock, unlock, arrive, leave, arrive, leave, writes of its payload, close, exit; when all processes have finished it is complete with the whole payload written |
| MultiprocessingProgram.SetUpOnce | src/multiprocessing.cpp:97-125 | in every schedule a child that has arrived at the first barrier has locked and unlocked the mutex exactly once each before, in that order; in every state between the two it owns the mutex, and no child locks it |
| MultiprocessingProgram.RunOnce | src/multiprocessing.cpp:122-132 | when all processes have finished, every child has arrived at and left the first barrier and then arrived at and left the second, each exactly once and in this order |
| MultiprocessingProgram.BarriersInOrder | src/multiprocessing.cpp:122-132 | in every schedule a child leaves either barrier only after every child has arrived at it |
| MultiprocessingProgram.ManagerFollowsProgram | src/multiprocessing.cpp:73-216 | in every schedule the manager forks N times, drops N write ends, reads at most 100 bytes at a time and meets the end of at most N pipes, and destroys the shared objects last and only after the N-th |
| Multithreading.Reachable | src/multithreading.cpp:26-53 | the round invariant holds in every state of every schedule |
| Multithreading.BarrierOpen | src/multithreading.cpp:36-38 | the start barrier is full exactly when every thread of the round has arrived |
| Multithreading.PhaseSafety | src/multithreading.cpp:26-53 | in every round all set-ups precede the first run and all tear-downs follow the last join, counted per child |
| Multithreading.Terminates | src/instruction.cpp:42-48 | every schedule of all repetitions is finite |
| Multithreading.NoDeadlock | src/multithreading.cpp:35-53 | the join loop never waits for ever, and at the end every child has had exactly `repeat` set-ups, runs and tear-downs |
| MultithreadingProgram.FollowPrograms | src/multithreading.cpp:26-53 | in every schedule the owner's steps are the first of `repeat` rounds of n set-ups, n spawns, n joins and n tear-downs, and a thread's are the first of `repeat` turns of arriving, leaving and ending; when the owner has finished all are complete |
| MultithreadingProgram.RunsInRound | src/multithreading.cpp:26-53 | every step of a thread in round r falls after all set-ups and its own spawn of that round and before its own join, and it leaves the barrier only after every thread of the round has arrived |
| Scopes.DoKeepsInv | src/shared_variables.cpp:39-53 | allocating a key or a thread id keeps the scope invariant: keys in range, no two (scope, name) pairs share a slot, ids form a tree of paths |
| Scopes.TreePrefix | src/instruction_factory.cpp:214-218 | if a path passes through another's last id it extends that path |
| Scopes.LookupStable | src/shared_variables.cpp:39-53 | no single request changes an answer already given |
| Scopes.AnswerIsFinal | src/shared_variables.cpp:39-53 | over a whole parse, GetKey keeps answering the same slot for a path and name |
| Scopes.SameSlot | src/shared_variables.cpp:39-53 | two answers are the same slot exactly when the names are equal and one common ancestor scope binds them |
| Scopes.NewNameIsPrivate | src/shared_variables.cpp:48-52 | a name a thread introduces is visible in its own scope and below, and changes nothing for any other path |
| SharedVariables.SharedVariables.Exists | src/shared_variables.cpp:21-29 | true exactly when the lookup along the path finds the name |
| SharedVariables.SharedVariables.GetKey | src/shared_variables.cpp:39-53 | the visible slot with nothing changed, or one new slot bound in the innermost scope that reads as integer 0 |
| SharedVariables.SharedVariables.Get | src/shared_variables.cpp:62-67 | the value last stored under the key |
| SharedVariables.SharedVariables.Set | src/shared_variables.cpp:74-79 | changes that slot only |
| SharedVariables.SharedVariables.ClearKeys | src/shared_variables.cpp:86-88 | forgets all names and keeps all slots |
| Factory.ExtendsKeeps | src/instruction_factory.cpp:47-239 | whatever the factory compiles, earlier answers, paths and bindings stay and new slots are fresh |
| Factory.CompileExtends | src/instruction_factory.cpp:75-239 | compiling an instruction is a sequence of legal key and id requests |
| Factory.KeysBind | src/instruction_factory.cpp:83-190 | after compilation every variable an instruction names is visible from its path |
| Factory.CompileReaches | src/instruction_factory.cpp:206-239 | code compiled for a path uses only slots of scopes on that path or generated below it |
| InstructionFactory.InstructionFactory.GetAbsolutePath | src/instruction.cpp:112-114 | the value bound to the absolute path |
| InstructionFactory.InstructionFactory.GenerateThreadId | src/instruction_factory.cpp:359-361 | a new id each time, extending the tree of paths |
| InstructionFactory.InstructionFactory.CreateFromProtoInstruction | src/instruction_factory.cpp:75-239 | allocates slots and ids exactly as the compilation function says, for every instruction tree, and the program exits on the way exactly if it meets an undeclared lock or unlock |
| InstructionFactory.InstructionFactory.CreateLeaf | src/instruction_factory.cpp:86-204 | the cases without children, in the order in which they allocate |
| InstructionFactory.InstructionFactory.CreateChildren | src/instruction_factory.cpp:47-54 | the loop over the children of a set, in the scope of the set |
| InstructionFactory.InstructionFactory.CreateThreads | src/instruction_factory.cpp:212-218 | the two nested loops over threads and spawned copies compile exactly the list of all copies in spawn order, each in a scope of its own; `Spawning` says how many copies these are and of what |
| Spawning.ExpandAt | src/instruction_factory.cpp:212-218 | copy k of thread t, for k below its spawn count, comes after the sum of the spawn counts before it and is thread t's instruction |
| Spawning.SpawnsAll | src/instruction_factory.cpp:206-240 | a compiled `multithreading` instruction keeps its repetitions and its choice between threads and processes, and has as many entries as the sum of the spawn counts, where a negative one counts as 0 |
| Spawning.SpawnsEach | src/instruction_factory.cpp:212-218 | its entry number (sum of the earlier spawn counts) + k is thread t's instruction compiled under the path extended by the entry's own id |
| Spawning.FreshIds | src/instruction_factory.cpp:215-216 | the ids of the entries were not in use before and increase from entry to entry |
| NameResolution.CompileResolves | src/instruction_factory.cpp:75-204 | compiled code is the source tree with every name replaced by the slot it denotes in the final table |
| NameResolution.SetSim | src/shared_variables.cpp:74-79 | setting a variable by slot and by name keeps the two stores related, so no other name changes |
| NameResolution.LeafSim | src/instruction_factory.cpp:86-204 | one cycle of any leaf makes the same calls on slots as on names |
| NameResolution.IterationsSim | src/instruction_set.cpp:64-99 | iterating over a snapshot of a list agrees on slots and names |
| NameResolution.PerformSim | src/instruction_set.cpp:101-107 | a whole instruction tree with all its repetitions agrees on slots and names |
| LeafEffects.OpenNamed | src/open_file.cpp:55-95 | on any kernel open_file with a given or variable name makes one open of that name; -1 ends the program, any other answer is stored in the output variable, and nothing else changes |
| LeafEffects.OpenRandom | src/open_file.cpp:55-95 | with a random name the same, after one draw of an unused name below the absolute path of that moment |
| LeafEffects.NoName | src/open_file.cpp:55-57 | an open_file or delete_file whose variable holds no string ends the program before any call |
| LeafEffects.DeleteNamed | src/delete_file.cpp:28-39 | delete_file makes one unlink of its name, which ends the program exactly if it is answered with -1 |
| LeafEffects.CloseHeld | src/close_file.cpp:25-31 | close_file closes the descriptor its variable holds; any answer but 0, or a variable without an integer, ends the program |
| LeafEffects.ResizeHeld | src/resize_file.cpp:27-41 | resize_file asks for the length, then extends, truncates or does nothing, as the length says; failures end the program |
| LeafEffects.ResizeRandomHeld | src/resize_file.cpp:58-67 | a random resize seeds with EACH_CYCLE, draws between the narrowed bounds, and then resizes to what was drawn |
| LeafEffects.ReadDirectoryLists | src/read_directory.cpp:29-54 | read_directory stores exactly the regular files, in the order of the entries, as paths with exactly one slash after the directory, in its output variable and changes no other; -1 ends the program |
| LeafEffects.LocksHeld | src/lock.cpp:32-49 | lock and unlock make their own call on a variable that holds the mutex; any answer but 0, or no mutex, ends the program |
| LeafEffects.SeedsOfRound | src/read_write_file.cpp:52-56 | before a round of cycles exactly the instructions with EACH_ROUND_OF_CYCLES seed their generator, with their own seed |
| LeafEffects.WriteMisfit | src/read_write_file.cpp:58-79 | a write_file whose block size is above the length of the file ends the program after asking for the length, with -1 for the whole file |
| LeafEffects.WriteSyncs | src/read_write_file.cpp:121-133 | fsync is one more call after the cycle without it, and ends the program unless it is answered with 0 |
| LeafEffects.ReadEnds | src/read_write_file.cpp:142-150 | read_file ends the program after the length if that is unknown, after its advice if that fails, and after the second length if the block size does not fit |
| Parser.PartsInOrder | dittobench.cpp:39-61 | a run starts with the absolute path and the mutex bound, every other variable 0 and no call made, and is init if present, then main, then clean_up if present |
| Parser.ParseResolves | src/parser.cpp:57-79 | the three parts of a parsed benchmark are the named parts resolved in one table |
| Parser.ParsesExactly | src/instruction_factory.cpp:312-347 | a thread-free benchmark parses to its end exactly when every lock and unlock names a global or a variable that an instruction compiled earlier names |
| Parser.InitialStores | src/parser.cpp:57-68 | the slots at the start of a run hold what the map of names holds: absolute path and mutex bound, all else integer 0 |
| Parser.MeaningPreserved | src/parser.cpp:57-79 | for every thread-free benchmark whose locks are declared, and every kernel, the compiled program and the direct interpretation make the same calls, stop at the same point and end with the same variable values; with an undeclared lock the program makes no call |
| Siblings.SiblingsShareOnlyAncestors | src/instruction_factory.cpp:206-239 | a slot used by two sibling threads is bound in a common ancestor scope |
| Siblings.NonInterference | src/shared_variables.cpp:39-79 | in any interleaving of accesses to slots of a thread's own code or of common ancestors, a thread's private slots and its reads of them are what they are when it runs alone |
| Footprint.Executes | src/shared_variables.cpp:62-79 | executing thread-free compiled code keeps the length of the variable vector and every slot it does not name, and its calls and results depend on no slot but those and the absolute path |
| Footprint.SiblingsUndisturbed | src/instruction_factory.cpp:206-239 | executing the code of one spawned thread leaves every slot that another's code uses and no common ancestor binds |
| Dittobench.BindGlobals | src/parser.cpp:57-68 | the root scope binds the absolute path and the global mutex as the first slots of the parse |
| Dittobench.ParseBenchmark | src/parser.cpp:57-79 | the parsed program, the final slot values and empty name tables, ready for another parse; the program has exited exactly if a lock or unlock was undeclared |
| Dittobench.Runner.Perform | src/instruction_set.cpp:101-107 | set-up, run and tear-down of one instruction are those of the interpreter |
| Dittobench.Runner.Run | src/instruction.cpp:42-48 | the repetition loop |
| Dittobench.Runner.RunCycle | src/instruction_set.cpp:57-99 | one cycle, with the reseeding before it and the exit on a variable that is no list |
| Dittobench.Runner.RunIterations | src/instruction_set.cpp:64-82 | the loop over the list as it was when the cycle began |
| Dittobench.Runner.RunInstructions | src/instruction_set.cpp:101-107 | the loop over the children |
| Dittobench.Execute | dittobench.cpp:32-61 | parsing and executing init, main and clean_up makes the calls of the direct interpretation and leaves its values in every named variable; with an undeclared lock or unlock it exits without a call |
| BlockPlan.UnitIs | src/read_write_file.cpp:87-98 | the loop's offset and the closed form agree on every unit |
| BlockPlan.SequentialClosedForm | src/read_write_file.cpp:87-98 | size / block units; the first run on from the starting offset, the rest cycle through the blocks of the file from 0; all lie inside the file |
| BlockPlan.OneUnit | src/read_write_file.cpp:87-98 | a one-block transfer stays where it was asked for exactly when it ends inside the file |
| ReadWriteFile.EachCycleSame | src/read_write_file.cpp:81-107 | with EACH_CYCLE every cycle of every round has the plan an unseeded run draws right after the seed |
| ReadWriteFile.EachRoundSame | src/read_write_file.cpp:52-56 | with EACH_ROUND_OF_CYCLES every round has the plans an unseeded run draws right after the seed |
| ReadWriteFile.OnceContinuous | src/read_write_file.cpp:81-107 | with ONCE all plans of all rounds are one continuous draw from the seed |
| ReadWriteFile.WholeFile | src/read_write_file.cpp:62-98 | with size -1 a sequential plan has as many units as whole blocks fit in the file, and with block size -1 too it is the whole file in one unit |
| ReadWriteFile.WriteEffect | src/read_write_file.cpp:121-128 | a byte ends as 170 exactly where some unit covers it and is untouched elsewhere |
| ReadWriteFile.WriteCoverage | src/read_write_file.cpp:75-98 | from offset 0 and with at least as many units as whole blocks, exactly the bytes of whole blocks end as 170 |
| FileTransfer.CyclePlanFits | src/read_write_file.cpp:87-107 | sequential or random, a plan has size / block units of one block, all inside the file, if the largest random offset is not negative once narrowed to an int |
| FileTransfer.RandomInsideExactly | src/read_write_file.cpp:99-106 | random units lie inside the file, whatever is drawn, if and only if the narrowed largest offset is not negative |
| FileTransfer.RandomCoversExactly | src/read_write_file.cpp:99-106 | all units lie inside the file and every offset in it can be drawn if and only if the largest offset fits an int |
| FileTransfer.RandomOutside | src/read_write_file.cpp:99-106 | blocks of 4096 bytes in a file of 4 GiB: the bound becomes -4096 and units may lie outside |
| FileTransfer.ReadWriteFileInstruction.SetUp | src/read_write_file.cpp:52-56 | reseeds before a round exactly with EACH_ROUND_OF_CYCLES |
| FileTransfer.ReadWriteFileInstruction.SetUpSingle | src/read_write_file.cpp:58-110 | sizes, a buffer full of 170, and the plan and generator state of the cycle |
| FileTransfer.ReadWriteFileInstruction.PlanSequential | src/read_write_file.cpp:87-98 | the loop over `offset` produces the sequential plan |
| FileTransfer.ReadWriteFileInstruction.PlanRandom | src/read_write_file.cpp:99-106 | the loop of draws, each up to the narrowed largest offset, produces the random plan and the generator state after it |
| FileTransfer.ReadWriteFileInstruction.WriteUnits | src/read_write_file.cpp:121-128 | the file ends as if its units had been filled with 170 one after the other |
| FileTransfer.ReadWriteFileInstruction.ReadUnits | src/read_write_file.cpp:152-160 | the buffer ends with the bytes of the last unit, and the file is unchanged |
| FileTransfer.ReadWriteFileInstruction.WriteRound | src/instruction.cpp:42-48 | a round of cycles writes all units of all its plans in order and leaves the generator after them; a random round needs a narrowed largest offset that is not negative |
| FileRuns.PlanMakes | src/read_write_file.cpp:58-110 | the interpreter's plan, its draws up to the narrowed bound and its reseeding are those of the cycle plan, for any order and reseeding |
| FileRuns.WriteCycle | src/read_write_file.cpp:58-138 | the exact calls of one write_file cycle that stays inside the file: length, reseeding, draws, one write a unit, fsync last |
| FileRuns.ReadCycle | src/read_write_file.cpp:142-160 | the exact calls of one read_file cycle that stays inside the file, the advice before the plan |
| FileRuns.SequentialExactly | src/read_write_file.cpp:58-160 | a sequential write_file or read_file of at least one block exits exactly if its starting offset is negative |
| FileRuns.InstructionMakes | src/read_write_file.cpp:52-160 | performing a read_file or write_file, from an offset that is not negative or drawing within a bound that the narrowing leaves so, makes exactly the calls of the plans of one round, reseeded where it should be, and changes no variable |
| Resizing.ResizeRandomExactly | src/resize_file.cpp:27-67 | a random resize ends within its bounds, whatever is drawn, if and only if the lower bound fits an int and does not exceed the narrowed upper bound |
| Resizing.ResizeRandomFails | src/resize_file.cpp:58-67 | between three billion and three billion bytes every random resize exits |
| Iterating.CyclePerforms | src/instruction_set.cpp:50-107 | a cycle of an iterating set performs any body once for each picked item, in order, with the item variable holding it; the items are the list, or what the set's own generator draws, and no body can disturb the choice |
| Repetition.RepetitionsMultiply | src/instruction_set.cpp:64-107 | in any thread-free tree that does not assign the lists it iterates over, and for any kernel, a run that does not stop consists of cycles of its leaves in the order of the tree, with nothing but draws and reseeding between, and each leaf has as many cycles as there are combinations of the repetitions and list items above it |
| Regrouping.RepeatsGrow | src/instruction.cpp:42-48 | each further repetition appends exactly its own work to the collected duration |
| Regrouping.DurationLength | src/instruction_set.cpp:110-132 | collecting stays in bounds and gives one entry per repetition and pass |
| Regrouping.RegroupingAgrees | src/instruction_set.cpp:101-132 | after k rounds the collected duration is, entry by entry, the sum of what the leaves recorded in that pass |
| Regrouping.DurationConserves | src/instruction_set.cpp:109-132 | a node's duration sums to the samples of all leaves below it |
| SampleRuns.RoundsRan | src/instruction.cpp:42-48 | after k rounds of any tree, iterating sets anywhere, every node has the samples of its repetitions, and the leaves' work has one entry per repetition and pass of the root |
| SampleRuns.EachRecorded | src/instruction.cpp:78-96 | every duration measured while a tree runs is recorded exactly once somewhere in it |
| SampleRuns.OwnIsLast | src/instruction.cpp:78-96 | a repetition's own sample is the last duration measured in it, after those of all its children |
| RegroupingLimits.InBoundsExactly | src/instruction_set.cpp:110-132 | for any tree and any samples, collecting stays in bounds if and only if in no set a child has more groups than the set's first child; the length of the result is given by the groups |
| RegroupingLimits.RegroupingAgreesExactly | src/instruction_set.cpp:101-132 | after one or more rounds of any tree the collected duration is what the leaves recorded if and only if no set below the root iterates over more than one item |
| RegroupingLimits.NestedIterationFails | src/instruction_set.cpp:118-126 | an iterating set as second child makes the loop write past the vector; as the only child it makes one repetition count as two |
| Results.AddBlocks | src/instruction_set.cpp:122-126 | the in-place double loop adds to entry i the i-th block of samples and nothing else |
| Results.CollectResults | src/instruction_set.cpp:110-132 | the durations of every node, children first |
| Strings.FindIsFirst | dittotrace.cpp:50-57 | a search finds the first occurrence at or after its start, and nothing exactly if there is none |
| Strings.StrtollDigits | dittotrace.cpp:73 | a printed number reads back, whatever non-digit follows |
| Strings.StrtollSigned | dittotrace.cpp:73 | a number after white space and a sign, before a non-digit, reads as its value clamped to 64 bits |
| TraceText.ProcessLine | dittotrace.cpp:47-66 | one line into name, non-empty arguments and return value, or a throw |
| TraceText.ThrowsExactly | dittotrace.cpp:47-53 | a line throws if and only if it has no closing parenthesis |
| TraceText.SplitAll | dittotrace.cpp:55-63 | the loop over `next` and `last` finds all non-empty pieces between separators |
| TraceText.ProcessPrinted | dittotrace.cpp:47-66 | reading a printed call gives the call back |
| TraceText.ReadsBackExactly | dittotrace.cpp:47-66 | a call reads back exactly when its arguments are non-empty and contain neither ", " nor ")" |
| TraceText.SplitByPid | dittotrace.cpp:69-78 | each process gets its own lines in order |
| TraceText.TakeCall | dittotrace.cpp:88-119 | one step of the merging loop finds what `Next` says: ignored lines, merged halves, stripped pid |
| TraceRoundTrip.SkippedExactly | dittotrace.cpp:114-119 | a line without any of the three tags is skipped if and only if its text begins with "---" or "+++", and is the text of a call otherwise |
| TraceRoundTrip.UnfinishedTakesNext | dittotrace.cpp:96-112 | after an unfinished call the next line loses its first seven characters and its own call, or throws if it is shorter, when it has no "resumed>" |
| TraceText.ProcessOwn | dittotrace.cpp:87-124 | the calls of one process |
| TraceText.Ascending | dittotrace.cpp:87 | the keys of the map, each once, in ascending order |
| TraceText.ProcessLines | dittotrace.cpp:83-127 | the calls of each process that made any, or a throw |
| TraceRoundTrip.SplitRecovered | dittotrace.cpp:69-78 | splitting by pid undoes any interleaving of processes |
| PidColumn.StripsAtBlanks | dittotrace.cpp:113-119 | the text of a line is what follows its first two blanks in a row, or all but its first character if there are none; it is ignored if it begins with "---" or "+++", and an empty line throws |
| PidColumn.RecoveredExactly | dittotrace.cpp:87-124 | the calls of a process, whole or cut, come back if and only if exactly two of its one or more blanks follow the number |
| TraceRoundTrip.NextShown | dittotrace.cpp:88-119 | a call printed whole, or cut anywhere into unfinished and resumed halves, is found again; lines that begin with "---" or "+++" and resumed or detached lines are ignored |
| TraceRoundTrip.ProcessRecovered | dittotrace.cpp:87-124 | the lines of one process give its calls, in order, even if the last one never resumed |
| TraceRoundTrip.TraceRecovered | dittotrace.cpp:47-127 | from any interleaving and any cutting of calls, exactly the calls of each process are recovered |
| DittoTrace.TransfersMean | dittotrace.cpp:168-205 | which printed argument is the descriptor, the size and the offset of a pread64, pwrite64 or close |
| DittoTrace.OpensMean | dittotrace.cpp:151-167 | an openat of the quoted path prefix + rest that returns a descriptor opens that descriptor with rest without its first character as the path; an empty rest throws, and a failed one opens nothing |
| DittoTrace.UnrelatedMeansNothing | dittotrace.cpp:151-211 | calls of other names, openats elsewhere, and transfers without exactly four arguments mean nothing |
| DittoTrace.UndefinedExactly | dittotrace.cpp:151-199 | exactly an openat without a path, or with one that ends right after the prefix, and a transfer or close without arguments throw or read past the arguments |
| DittoTrace.OpenIndexIs | dittotrace.cpp:149-167 | a descriptor is open since its last openat that no later openat or close of it follows |
| DittoTrace.TracksStep | dittotrace.cpp:149-212 | the table of open descriptors always holds, for each descriptor open in the history, its open and all transfers since |
| DittoTrace.SetsStep | dittotrace.cpp:198-211 | a close of an open descriptor adds one complete open (read or write)* close set, and nothing else adds any |
| DittoTrace.Observe | dittotrace.cpp:151-211 | one call's effect on the table of open descriptors is that of its event, with the skipped and the undefined cases; `OpensMean` and `TransfersMean` say what the events are |
| DittoTrace.AddProcess | dittotrace.cpp:148-213 | the sets of one process, in close order, after those already there |
| DittoTrace.AddProcesses | dittotrace.cpp:148-213 | all processes, in ascending order of pid |
| DittoTrace.Trace | dittotrace.cpp:129-218 | the workload of a trace, or a throw |
| Replay.FinishedExactly | dittotrace.cpp:198-211 | exactly the closes of open descriptors finish a session, in close order, with every transfer since the last openat |
| Replay.NothingLostExactly | dittotrace.cpp:149-212 | the finished and pending sessions of a descriptor hold every transfer traced while it was open, once and in order, if and only if it is closed between any two openings with a transfer between them; none is ever added |
| DittoTrace.NameKept | dittotrace.cpp:153-156 | of a quoted path below the prefix all but the first character after the prefix is kept, and an empty rest throws |
| Replay.ReplayedPathDiffers | dittotrace.cpp:153-156 | for every openat that the tracer takes for an opening, with any arguments and the prefix anywhere in the path, the replayed path is not the traced path |
| Replay.ReplayMove | src/read_write_file.cpp:58-110 | what one emitted read or write issues, and when it exits before or after it |
| Replay.ReplaySession | src/read_write_file.cpp:121-160 | one emitted set opens its file once and issues its transfers in order |
| ReplayCalls.SessionOnItsDescriptor | src/open_file.cpp:67-95 | on any kernel one emitted set opens its own path to read and write, creating it, and every later call goes to the descriptor that this open returned; if it runs to its end its last call is its only close |
| ReplayCalls.ReplayInTurn | dittobench.cpp:39-61 | on any kernel a replay takes the traced sessions in order, each with its own open, its own descriptor and its one close |
| ReplayCalls.TracedOpenReplayed | dittotrace.cpp:151-211 | from an openat of prefix + rest over calls that do not toggle its descriptor to the close of it: the set then emitted opens prefix + rest without the first character of rest, and keeps to the descriptor it gets |
| Replay.ReplayIsExact | dittotrace.cpp:146-213 | a replay runs to its end and issues exactly the traced transfers if and only if each has a positive size and lies inside the replayed file, on a system where a transfer fails exactly at a negative offset |
| Replay.FailedTransferReplayed | dittotrace.cpp:168-182 | a pread64 that failed at offset -5 is traced as a transfer, issued, and ends the replay |
| Replay.CompiledReplayIsExact | src/parser.cpp:57-79 | the same for the parsed and compiled workload |
| Replay.TraceThenReplay | dittotrace.cpp:129-218 | the same from the printed text of a trace through the tracer to its replay |
| Replay.ProcessesInTurn | dittotrace.cpp:148-213 | the sessions of a process come together, after those of all processes before it |
| Doubles.RoundIsNearest | src/timespec_utils.cpp:18-20 | no double is nearer than the rounded value |
| Doubles.IntegersExact | src/timespec_utils.cpp:18-20 | integers up to 2^53 are doubles |
| Doubles.TiesToEven | src/timespec_utils.cpp:18-20 | halfway between two doubles the even one is taken |
| Doubles.QuotientTruncates | src/timespec_utils.cpp:40-52 | below 2^53 a truncated double quotient is integer division |
| Timespec.FromNanosExact | src/timespec_utils.cpp:40-45 | NanosToTimespec is normalised and exact below 2^53 |
| Timespec.FromMicrosExact | src/timespec_utils.cpp:47-52 | MicrosToTimespec is normalised and exact below 2^53 |
| Timespec.FewBitsExactly | src/timespec_utils.cpp:18-20 | a whole number is a double if and only if it has at most 53 bits besides trailing zeros, or is 2^53 |
| Timespec.FewBitsShifted | src/timespec_utils.cpp:18-20 | those numbers are the integers up to 2^53, shifted left |
| Nanoseconds.ToNanosExactly | src/timespec_utils.cpp:18-20 | for all times of up to 2^63 - 1 nanoseconds, TimespecToNanos is exact if and only if they have at most 53 bits besides trailing zeros and, beyond 2^62 with an odd number of seconds, an even number of units of 1024 |
| Nanoseconds.RoundedTwice | src/timespec_utils.cpp:18-20 | 4611686021 seconds and 512 nanoseconds read 1024 too small although a double holds them |
| Timespec.ToNanosBound | src/timespec_utils.cpp:18-20 | 2^53 + 1 nanoseconds read as 2^53 |
| Timespec.ConversionsInvert | src/timespec_utils.cpp:18-45 | the conversions are mutual inverses on normalised times below 2^53 |
| Timespec.LessIsLess | src/timespec_utils.cpp:54-76 | the comparisons are those of the nanoseconds |
| Timespec.Plus | src/timespec_utils.cpp:95-105 | the sum is normalised and adds the nanoseconds |
| Timespec.Minus | src/timespec_utils.cpp:79-93 | the difference is normalised and subtracts the nanoseconds; the program exits exactly when it would be negative |
| Timespec.DivisionIs | src/timespec_utils.cpp:107-117 | division is integer division of the nanoseconds, and exits exactly on zero |
| Timespec.AllToNanos | src/timespec_utils.cpp:26-31 | the loop converts every entry exactly |
| Periodic.PeriodicInstruction.SetUp | src/instruction.cpp:32-40 | the first wakeup is the clock plus the offset |
| Periodic.PeriodicInstruction.SetUpSingle | src/instruction.cpp:78-88 | starts no earlier than the wakeup, and moves the wakeup by exactly one period |
| Periodic.PeriodicInstruction.Run | src/instruction.cpp:42-48 | the i-th wakeup is t0 + 1000 * (offset + i * period), however late or long iterations are, and no iteration starts before its wakeup |
| Periodic.StartClosedForm | src/instruction.cpp:78-92 | with an exact clock a start is the greatest of wakeup plus work since, over all earlier iterations |
| Periodic.OnTheDot | src/instruction.cpp:78-92 | if no iteration outlasts the period all start exactly at their wakeups |
| Periodic.Recovery | src/instruction.cpp:78-92 | after a delay of D ns, if every later iteration leaves a slack of its period, all iterations from the ceil(D / slack)-th on start at their wakeups, but for the lateness of their own sleep |
| Periodic.RecoveryExactly | src/instruction.cpp:78-92 | when each leaves just the slack, the n-th one starts at its wakeup exactly when n times the slack covers the delay |
| ResultTree.OneOrder | src/result.cpp:391-393 | a set of names ascends in one way only |
| ResultTree.StoreMetrics | src/result.cpp:378-393 | the loop writes the statistics in the order of their names |
| ResultTree.Serialise | src/result.cpp:388-409 | the message of a result tree |
| ResultTree.SerialisedDescribes | src/result.cpp:378-401 | the message has the name of the result, every statistic once under its own name in ascending order, and the children in order, at every depth |
| ResultTree.Deserialise | src/result.cpp:426-440 | the result tree of a message |
| ResultTree.RoundTrip | src/result.cpp:378-440 | reading back keeps names, statistics and child order at every depth; samples are gone and repeat is 1 |
| ResultTree.SerialisedAgain | src/result.cpp:378-440 | serialising what was read back gives the same message |
| ResultTree.MessageRoundTrip | src/result.cpp:426-440 | a message is reproduced exactly when its metrics ascend by name at every depth |
| Histogram.BinInRange | src/result.cpp:225-246 | with a bin size that fits an int, it is the shown range over 20 plus 1, and every sample has one of the 20 bins |
| Histogram.ShownBounds | src/result.cpp:228-241 | a sample is shown as the number of whole units in it, truncated towards zero |
| Histogram.BinHolds | src/result.cpp:233-245 | bin b holds exactly the samples whose shown value is from b to below b + 1 bin sizes above the least one |
| Histogram.BinsExactly | src/result.cpp:294-307 | all samples have bins if and only if the range over 20 fits an int |
| Histogram.WrappedExample | src/result.cpp:294-307 | samples up to 42949672960: the bin size wraps around and the greatest one gets bin -20 |
| Histogram.CountsAddUp | src/result.cpp:233-245 | the counts of all bins add up to the number of samples |
| Histogram.FrequencyVector | src/result.cpp:225-246 | the counting loop gives each bin the number of its samples |
| Histogram.BarWidthExact | src/result.cpp:205-213 | a bar's width in double arithmetic is the exact ceiling of its share, 1 to 50 exactly when its bin is not empty |
| Histogram.Bars | src/result.cpp:205-222 | empty bars exactly for empty bins, wider bars for fuller bins, and 50 characters for the fullest |

## Left out

- Real system calls, mmap, clocks, tracing, logging, argument parsing, thread names, scheduling attributes and affinity: foreign calls with little logic of their own.
- Protobuf text parsing and the wire format: library code; serialised payloads are byte strings, and the model starts from datatypes that mirror the schemas.
- Multiprocessing with repeat above 1 or nested in a set: children go on with the outer loop and fork again.
- Failing fork, pipe or mmap, the read ends that are never closed, and the SIGCHLD side of forked children.
- The work of a child between the barriers and inside its SetUp: one step each, assumed to end.
- Parser.MeaningPreserved: covers benchmarks without `multithreading`; threads are covered by the compilation theorems, by `Siblings` and by the two protocols. A benchmark whose global mutex is itself named "absolute_path" is excluded.
- NameResolution.LeafSim: `lock` and `unlock` know their mutex by its slot, where the source keeps a raw pointer into the variable vector, which later variables may move and an assignment may overwrite; `mem_alloc` is work without shared variables, one abstract call, and its freeing policy is not modelled.
- InstructionFactory: after the exit at an undeclared lock or unlock the methods go on to a value that nobody uses; `exited` says that the program has ended.
- Parser.ParsesExactly: a lock or unlock without a named mutex, and instructions that the message leaves unset or invalid, are excluded by the datatypes.
- Interpreter: the wakeups and samples of `Instruction::SetUpSingle` and `TearDownSingle` are not calls of the interpreter; `Periodic` and `Results` have them on their own.
- Interpreter: the retry loop for a random file name is one call that answers an unused name; a block size that is not positive halts the machine where the program divides by zero or fails to allocate.
- InstructionFactory: the `reseeding_` of a set that does not iterate is not initialised by the source; the model never reseeds such a set.
- RegroupingLimits.RegroupingAgreesExactly: samples are exact reals, not doubles, and a list that a set iterates over is not empty and keeps its length; `mem_alloc`, which records no sample, is not part of it.
- Repetition.RepetitionsMultiply: a tree that assigns a list it iterates over is not covered, because its count depends on what the assignment reads.
- Resizing.ResizeRandomExactly: the bounds are natural numbers, the lower one not above the upper one.
- FileTransfer.ReadWriteFileInstruction.WriteUnits: writes are complete; a short write is not retried by the source and is not modelled. fsync and fadvise are calls of `Interpreter` only.
- Replay.ReplayIsExact: the seed that the factory takes from the clock is a constant, because a sequential plan never draws from it.
- DittoTrace: the strace lines are what std::getline delivers; reading the file and printing the protobuf text are not part of this model.
- Periodic: read and write instructions override SetUp without the wakeup part, so the wakeup formula is not about them.
- Timespec: negative times, and sums beyond 64 bits.
- Doubles.Round: the exponent is unbounded, so neither overflow nor subnormal results occur.
- ResultTree: NaN and infinite statistics; statistics are reals.
- Histogram: the conversion of doubles beyond the 64-bit range, the choice of the unit (any positive factor is allowed), and the printing itself.
- The median, mean and deviation of samples, table and CSV printing, ditto2cpp.py, memory_allocation.cpp and the binder files.
