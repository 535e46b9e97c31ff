# Verified models of the kernel's concurrent and stateful cores

A Dafny project that models ten pieces of the operating system and its host tools,
and proves what each is for. Three are concurrent protocols, taken as transition
systems over single atomic steps; one is a parser with its printer; one is an
editor with a history; the rest are smaller machines and codecs with exact
specifications.

| files | what they model | source |
|---|---|---|
| `TaskModel`, `TaskSafety`, `TaskFairness`, `TaskProgress`, `TaskBootOrder`, `TaskEffects`, `TaskKernel` | the multi-core scheduler | `src/task.rs` |
| `FabricModel`, `FabricChunks`, `FabricSafety`, `FabricTheorems`, `FabricLate`, `FabricAlone` | the work fabric | `src/smp.rs` |
| `SpinModel`, `SpinSafety`, `SpinLock` | the interrupt-masking spinlock | `src/sync.rs` |
| `Utf8`, `JsonGrammar`, `JsonParser`, `JsonSyntax`, `JsonReads`, `JsonSpells`, `JsonPrinter`, `JsonProofs`, `JsonEscapes`, `JsonNumber` | JSON over real UTF-8 bytes | `src/json.rs` |
| `EditorModel`, `EditorInvariant`, `EditorHistory`, `EditorDelete`, `EditorText`, `EditorFiles`, `EditorHonest`, `EditorCommands`, `EditorKeys`, `Editor`, `EditorScreen` | the modal editor | `src/edit.rs` |
| `RepairModel`, `RepairProofs`, `RepairChoice`, `RepairLoop` | the repair loop | `src/repair.rs` |
| `AdapterFormat`, `AdapterProofs`, `AdapterLayout`, `AdapterCodec` | the adapter file codec | `tools/adapter.py` |
| `Pipeline`, `PipelineProofs`, `PipelineGrammar` | the pipe and redirection splitter | `src/shell.rs` |
| `Merkle` | the Merkle branch and its fold | `tools/algocheck.py` |
| `LogRing` | the boot log | `src/log.rs` |

Where the source changes state in place there are two forms of an operation: a
function or step on a value that describes the state, which the theorems are about,
and a method of a class that changes fields or arrays with the loops of the source,
proved to be that function (`View() == Step(old(View()))`).

What those functions come to is then said a second time without them, in numbers:
`JsonSyntax` and `PipelineGrammar` write two languages out as trees of bytes and of
characters, the parser being proved against the first in both directions and the
splitter cut for cut against the second;
`TaskEffects`, `EditorKeys`, `EditorCommands`, `AdapterLayout` and `RepairChoice` say
what each step, key, command, byte and round does.

## What holds only under a condition

- Scheduler: safety is proved for runs that start after `task::init`, with `spawn`
  and `adopt_idle` each atomic, and with `set_root` aimed at the caller's own task or
  at one running nowhere. `src/main.rs` starts the other cores, which adopt their
  stacks as they come up, before it calls `task::init`. `SafeIffInitFirst`: whichever
  cores do so, every run is safe, or even only keeps two cores from one stack, if and
  only if none did. `ForeignSetRoot` says exactly when aiming elsewhere breaks the
  record of CR3.
- Work fabric: the code stores FUNC first. A worker is late when it has yet to come
  for a generation already published, or has come and not yet read FUNC. With nobody
  late when BUSY is taken a call is exact; with anybody late it need not be.
  `ExactIffNoneLate` and `AccountedIffNoneLate` are the two if-and-only-ifs, the first
  for a context other than the one lying in CTX, the second for any slots.
  `FuncFirstRunsAStaleContext` is such a run from power on. With FUNC stored last
  there is no condition (`FuncLastIsExact`).
- Spinlock: interrupt handlers' locks are taken with `lock_irq` only and guards are
  dropped newest first. `PlainLockDeadlocks` and `DropOutOfOrderDeadlocks` give, for
  every pair of locks, a run into a deadlock when either rule is broken.
- Editor: undo and redo put back old dirty flags. `AlwaysHonestIff`: over any keys,
  undo and redo included, the flag can be trusted throughout if and only if every save
  is made while no clean snapshot in either history is of another text.
  `WriteTrueIff` says the same of one `:w` as typed. The comment in
  `src/edit.rs` (lines 175-176) says the blank shadow cell equals no real cell; the
  code's blank equals an ordinary space, and the screen is right all the same because
  `run` fills it with the background first. The model follows the code.
- Editor: `:wq name` and `:x name` quit over a clean buffer even when the store refuses
  the write and nothing has that name (`QuitsIff`).
- Repairs: `skip_hwp_revert` turns the knob off instead of back. A failed attempt
  leaves no trace exactly when the knob was off or the row is not offered
  (`FailedAttemptLeavesNoTraceIff`).
- Log: with exactly CAP bytes printed `contents` returns nothing, the head being back
  at zero; with any other number it returns the last min(total, CAP) bytes.
- JSON integers: `as_i64` refuses the one value whose magnitude does not fit,
  `i64::MIN` (`DecimalReadsBackIff`).

## Model

| member | source | states |
|---|---|---|
| TaskSafety.BootedInv | src/task.rs:263-284 | the state `init` leaves satisfies the scheduler's invariant |
| TaskSafety.StepKeeps | src/task.rs:376-823 | every step of every core, in any state of the invariant, keeps it: spawn, adopt, join, unpin, set_root, the locked pick, the CR3 write, the rsp store, the rsp load, the emptying of PENDING and the release |
| TaskSafety.EveryRunIsSafe | src/task.rs:677-823 | in every interleaving after `init`, no two cores stand on one stack, CURRENT names a task `Running` here and allowed here, PENDING one in `Handoff` here, every rsp loaded is the one that stack's last switch away stored (or its fabricated frame), and outside a switch CR3 is the current task's root |
| TaskSafety.NoSharedStack | src/task.rs:693-818 | two different cores' stack pointers are never on one stack |
| TaskSafety.StandsOnOwn | src/task.rs:646-686 | a core stands on the stack of the task it is leaving until the load, then of the one it runs, and that task is marked its own |
| TaskSafety.FastPathIsSound | src/task.rs:802-816 | when both roots are zero CR3 already holds the kernel's root; written or skipped, it ends as the incoming task's root |
| TaskSafety.ForeignSetRoot | src/task.rs:557-578 | re-rooting a task another core is running, wherever in a switch that core is, leaves it on the right CR3 once any write it owes is done exactly when the new root means the same address space |
| TaskModel.Scan | src/task.rs:711-736 | one pass returns the acceptable slot nearest in cyclic order and overlooks none |
| TaskFairness.PickGoesToNearest | src/task.rs:707-741 | a pick goes to the nearest claimable work, to an idle task only when there is no claimable work, never to a task pinned elsewhere; and it finds nothing only when nothing is claimable |
| TaskFairness.WaitFalls | src/task.rs:707-741 | while a task waits, its cyclic distance from what a core runs falls at each of that core's picks and at no other step rises |
| TaskFairness.BoundedWaiting | src/task.rs:707-741 | with COUNT fixed, a ready task that is work and that a core may run does not stay ready through COUNT-1 picks by that core |
| TaskFairness.OnlyAPickTakes | src/task.rs:744-753 | a ready task stops being ready only by being picked by a core that may run it |
| TaskProgress.OthersLeaveASwitchAlone | src/task.rs:744-823 | from pick to release no step of another core touches the switching core or the task it is leaving |
| TaskProgress.SwitchGoesOn | src/task.rs:677-823 | a core inside a switch always has its next step, each one nearer the end, and the last makes the task it left ready |
| TaskProgress.SwitchEnds | src/task.rs:511-536 | from anywhere inside a switch the core's own steps end it, standing on the stack of the task it picked |
| TaskBootOrder.AdoptBeforeInitSharesAStack | src/main.rs:464-478 | whichever core adopts first before `init`, and however many behind it, a run leads to core 0 standing on that core's stack |
| TaskBootOrder.SafeIffInitFirst | src/main.rs:464-478 | every run is safe, and every run keeps stacks apart, if and only if no core adopts before `init` |
| TaskEffects.SetRootTakesEffect | src/task.rs:557-578 | the root is recorded; on the caller's own task CR3 holds it at once, the kernel's for 0; on any other no CR3 moves; no other task changes; a bad index changes nothing |
| TaskEffects.SetRootWithoutATask | src/task.rs:620-632 | a core that has no task counts as task 0's |
| TaskEffects.SpawnTakesEffect | src/task.rs:451-509 | one new task in the next slot: ready, work, pinned to core 0, in the kernel's space, on a stack no task has |
| TaskEffects.AdoptTakesEffect | src/task.rs:398-430 | one new task: idle, running on and pinned to the core whose stack it is; core 0 and a full table are refused |
| TaskEffects.UnpinTakesEffect | src/task.rs:376-383 | the pin of a task that is work becomes negative and nothing else changes; idle tasks and bad indices are left alone |
| TaskEffects.PickTakesEffect | src/task.rs:744-767 | a pick takes a ready task this core may run, hands off the one it leaves, counts the switch and touches nothing else |
| TaskEffects.PickGoesUpwards | src/task.rs:713-733 | nothing free of the same kind stands between the current slot and the one taken, going upwards and around |
| TaskEffects.SwitchTakesEffect | src/task.rs:677-823 | a whole switch: the task left is ready with the rsp its core had, the task taken runs from its own rsp in its own address space, and the rest of the machine is as it was |
| TaskEffects.WorkRunsAtHome | src/task.rs:263-509 | over every run from boot an idle task runs only on the core that booted on its stack, and a task nobody unpinned only on core 0 |
| TaskKernel.Kernel.constructor | src/task.rs:263-284 | the tables after `init` are the booted state |
| TaskKernel.Kernel.Spawn | src/task.rs:451-509 | fills the next slot with a pinned ready task on its fabricated frame, or refuses when full, and nothing else changes |
| TaskKernel.Kernel.AdoptIdle | src/task.rs:398-430 | makes the stack a core stands on an idle task pinned to it, running; refuses core 0 and a full table |
| TaskKernel.Kernel.Join | src/task.rs:434-439 | marks one core as joined, ignoring an index out of range |
| TaskKernel.Kernel.Unpin | src/task.rs:376-383 | frees a task's pin, refusing a bad index, an unused slot and an idle task |
| TaskKernel.Kernel.SetRoot | src/task.rs:557-632 | records a root and loads it at once when the task is the caller's, a core without a task counting as task 0's |
| TaskKernel.Kernel.FindInPass | src/task.rs:713-733 | the inner loop with its wrap-around index is the scan of one pass |
| TaskKernel.Kernel.FindNext | src/task.rs:711-738 | the two passes are work first, then idle |
| TaskKernel.Kernel.Pick | src/task.rs:693-767 | the locked half of `schedule` is the pick step: states, switch count, CURRENT, PENDING and what is carried out of the lock |
| TaskKernel.Kernel.WriteCr3 | src/task.rs:807-816 | the guarded CR3 write is the model's |
| TaskKernel.Kernel.SaveRsp | src/task.rs:817-817 | the outgoing rsp is stored in the outgoing task |
| TaskKernel.Kernel.LoadRsp | src/task.rs:817-817 | the rsp carried out of the lock is loaded |
| TaskKernel.Kernel.FinishHandoff | src/task.rs:677-686 | PENDING is emptied and the task in it, if in handoff, made ready |
| FabricChunks.SplitIsAPartition | src/smp.rs:376-392 | for count >= 2 and any number of helpers the chunks are between one and 4*(helpers+1), non-empty, in order, disjoint, inside [0,count) and cover it |
| FabricChunks.MadeJob | src/smp.rs:432-437 | the job published is proper and has at most four chunks a core |
| FabricChunks.ChunkSize | src/smp.rs:432-437 | chunks have eight rows, or the fewest that make at most four a core; and no more of them than cover the rows |
| FabricSafety.StepKeeps | src/smp.rs:356-480 | in either order of the stores, every atomic step of every agent, publisher or worker of any generation, keeps the fabric's invariant, but for a read of FUNC between the stores of a publication that put it first |
| FabricSafety.RunKeeps | src/smp.rs:356-480 | so does every run without such a read |
| FabricTheorems.ParallelSplitIsExact | src/smp.rs:438-480 | in either order, for any number of agents and any interleaving without such a read, when `parallel_split` is about to return true every chunk ran exactly once with this job's function and context, the output is the serial loop's, FUNC is closed and nobody still holds the job |
| FabricTheorems.FuncLastIsExact | src/smp.rs:438-445 | with FUNC stored last, in every run |
| FabricTheorems.CalmStep | src/smp.rs:246-256 | a publication nobody is late for stays so, and nobody reads FUNC in it: GEN does not move before the last store |
| FabricTheorems.TimelyIsExact | src/smp.rs:415-480 | the order as written is exact over all calls of a run in which nobody is late whenever BUSY is taken |
| FabricLate.ExactIffNoneLate | src/smp.rs:415-480 | from a state with BUSY free, a call in the order written, with a context other than the one in CTX, is exact in every continuation if and only if no worker is late as it takes BUSY |
| FabricLate.AccountedIffNoneLate | src/smp.rs:438-452 | whatever lies in the slots, DONE counts exactly the chunks finished in every continuation if and only if no worker is late |
| FabricLate.StaleCallCloses | src/smp.rs:438-480 | with any worker late, some continuation comes to return true with its first chunk run on the old context |
| FabricLate.CountIsLost | src/smp.rs:443-452 | with any worker late, some continuation forgets a chunk that was done |
| FabricTheorems.CompleteIsExact | src/smp.rs:450-470 | DONE at its target already means the calls and the output are exact |
| FabricTheorems.ClosedIsQuiet | src/smp.rs:470-478 | once ACTIVE was seen at zero with FUNC closed no worker holds the job |
| FabricTheorems.ClaimedIsDonePlusInFlight | src/smp.rs:376-392 | at every moment claimed chunks are DONE plus those in flight, and what a worker has read is the current job |
| FabricTheorems.SlotsAreFrozen | src/smp.rs:340-375 | while any worker holds a non-zero FUNC no step rewrites a slot; the cursor and tally go up by at most one and FUNC is at most closed |
| FabricTheorems.CallsAreDistinct | src/smp.rs:384-391 | no two calls of a job are equal or overlap |
| FabricLate.FuncFirstRunsAStaleContext | src/smp.rs:246-256 | from power on, two calls of different contexts: the worker wakes for the first, reads during the second's stores, and the second comes to return true over a chunk run with the first's context |
| FabricAlone.WorkFabric.ClaimInner | src/smp.rs:362-392 | the claim loop run alone does every chunk once, in order |
| FabricAlone.WorkFabric.ClaimAndRun | src/smp.rs:356-360 | ACTIVE is back where it was |
| FabricAlone.WorkFabric.RunChunk | src/smp.rs:384-390 | a chunk writes exactly its rows |
| FabricAlone.WorkFabric.ParallelSplit | src/smp.rs:415-481 | with every helper wedged outside the publisher alone gives the serial output; declining leaves everything as it was, and it declines exactly for no helpers, too little work or a fabric in use |
| SpinSafety.StepKeeps | src/sync.rs:270-346 | under the two rules every step, an interrupt anywhere included, keeps the locks' invariant |
| SpinSafety.OneHolder | src/sync.rs:299-319 | in every run a lock's flag is up exactly when one guard for it exists anywhere, and no two ever do |
| SpinSafety.InterruptedCodeHoldsNone | src/sync.rs:277-285 | in every run interrupted code never holds a lock that handlers take |
| SpinSafety.NobodyWaitsForItself | src/sync.rs:277-319 | in every run whoever spins can take the lock at once or waits for another core, never for the code it interrupted or itself |
| SpinSafety.StepKeepsFlag | src/sync.rs:277-346 | no step of a lock, guard or handler changes the flag the code will find once outside every lock |
| SpinSafety.LastDropRestores | src/sync.rs:275-346 | in every run code that is back outside every lock has the interrupt flag it started with |
| SpinSafety.TakeIrq | src/sync.rs:277-319 | taking a free lock with `lock_irq`: flag up, interrupts off, the newest guard remembers how they were |
| SpinSafety.LockAndDrop | src/sync.rs:277-346 | taken and dropped again, the whole machine is as it was |
| SpinSafety.DeadlockIsForever | src/sync.rs:299-318 | a core spinning with interrupts off on a lock its interrupted code holds stays as it is in every run, under any rules and whatever the other cores do |
| SpinSafety.PlainLockDeadlocks | src/sync.rs:251-273 | with plain `lock` allowed on a handler's lock that state is reachable |
| SpinSafety.DropOutOfOrderDeadlocks | src/sync.rs:340-346 | and so it is when guards may be dropped oldest first |
| SpinLock.Spin.Acquire | src/sync.rs:299-319 | taken at the first attempt that finds the flag down; given up, flag untouched, exactly when PATIENCE attempts all found it up |
| SpinLock.Spin.Lock | src/sync.rs:270-273 | interrupts untouched, a guard that restores nothing |
| SpinLock.Spin.LockIrq | src/sync.rs:277-283 | interrupts masked, a guard that remembers how they were |
| SpinLock.Spin.TryLock | src/sync.rs:288-297 | succeeds exactly when the flag was down |
| SpinLock.Spin.Drop | src/sync.rs:341-346 | flag down, interrupts on only if they were to be restored |
| SpinLock.Nested | src/sync.rs:277-346 | two locks nested and dropped in reverse, however long waited for, leave interrupts as they were, unless a wait is given up |
| Utf8.DecodeEncoded | src/json.rs:192-253 | UTF-8 encoding any scalar values and decoding gives them back (section 4 of RFC 3629) |
| Utf8.EncodeDecoded | src/json.rs:192-253 | and the other way round for every valid byte string |
| Utf8.EncodedBytes | src/json.rs:242-250 | which bytes a character takes and how its number stands in them (the table in section 3 of RFC 3629) |
| Utf8.TrimTakesSpace | src/shell.rs:7440-7440 | trimming takes the characters Unicode calls white space off both ends, all of them and nothing else |
| Utf8.BoundaryAfter | src/json.rs:242-250 | the position after the character at a boundary is a boundary |
| JsonGrammar.Value | src/json.rs:159-173 | a value read always moves the cursor forward and stays inside the input |
| JsonParser.Parser.Ws | src/json.rs:144-148 | the whitespace loop stops at the first byte that is not blank |
| JsonParser.Parser.Eat | src/json.rs:150-157 | consumes the literal if it is there, else nothing |
| JsonParser.Parser.ReadNumber | src/json.rs:174-190 | the byte loop takes the token the grammar takes, error cases included |
| JsonParser.Parser.ReadHex4 | src/json.rs:255-272 | four hex digits or nothing |
| JsonParser.Parser.ReadEscape | src/json.rs:200-238 | every escape, surrogate pairs and lone halves as the grammar says |
| JsonParser.Parser.ReadChar | src/json.rs:206-250 | one character of a string body: an escape, or a UTF-8 sequence copied whole |
| JsonParser.Parser.ReadString | src/json.rs:192-253 | the loop agrees with the recursive grammar of string bodies on every input |
| JsonParser.Parser.ReadValue | src/json.rs:159-173 | agrees with the grammar on every input, and restores depth on success |
| JsonParser.Parser.ReadArray | src/json.rs:274-301 | likewise for arrays, with the depth bound |
| JsonParser.Parser.ReadItems | src/json.rs:280-300 | likewise for their loop |
| JsonParser.Parser.ReadObject | src/json.rs:303-340 | likewise for objects |
| JsonParser.Parser.ReadEntries | src/json.rs:309-339 | likewise for their loop |
| JsonParser.Parse | src/json.rs:40-53 | the whole parser terminates and is the grammar of documents: one value, blanks around it, nothing after |
| JsonReads.GapIsSkipped | src/json.rs:144-148 | any run of blanks, tabs, newlines and carriage returns is skipped, whole |
| JsonReads.Hex4Is | src/json.rs:255-272 | four digits in either case are the number they spell, and anything else is refused |
| JsonReads.DocReads | src/json.rs:40-53 | a document laid out with any gaps between its tokens, in front and behind, is read as its value when containers nest at most 32 deep and refused when deeper |
| JsonReads.OnlyAGapBehind | src/json.rs:43-51 | behind a value any byte that is not one of the four makes the document refused |
| JsonReads.BracketsNestTo32 | src/json.rs:135-135 | n brackets opened and closed are a document exactly for n from 1 to 32 |
| JsonSpells.AcceptedIff | src/json.rs:40-340 | for every text and value: `parse` returns the value if and only if the text is a document of it, by a grammar written out in bytes |
| JsonPrinter.PushEscaped | src/json.rs:352-366 | one character written as its escape |
| JsonPrinter.WriteStr | src/json.rs:350-370 | the writer appends the quoted escaping of the whole string |
| JsonPrinter.EscapeIs | src/json.rs:352-366 | what each character is written as: a backslash before quotes and backslashes, three letters, `\u00` and two digits below 32, itself otherwise |
| JsonPrinter.NothingBelow32 | src/json.rs:345-349 | no character below 32 is ever written |
| JsonProofs.WrittenStringParses | src/json.rs:350-370 | what `write_str` produced parses to exactly the string, for every sequence of scalar values (section 7 of RFC 8259) |
| JsonProofs.PrintThenParse | src/json.rs:40-53 | printing a whole value and parsing it gives the value when containers nest at most 32 deep, and nothing when deeper |
| JsonProofs.RoundTripIff | src/json.rs:135-340 | a value survives exactly when every number is a token the parser accepts and it nests at most 32 deep |
| JsonProofs.PrintIsInjective | src/json.rs:135-340 | two values that survive are never printed alike |
| JsonProofs.ValueIsProper | src/json.rs:159-340 | whatever bytes are parsed, the value has only acceptable number tokens and fits the depth left |
| JsonProofs.ValueKeepsBoundary | src/json.rs:159-340 | on valid UTF-8 the cursor is at a character boundary after every value |
| JsonProofs.CopyNeverFails | src/json.rs:242-250 | so copying the next character never fails for the rest being invalid |
| JsonEscapes.UnicodeIsUtf16 | src/json.rs:220-238 | a `\u` escape is read as a character exactly when it spells that character in UTF-16; a surrogate out of place is refused |
| JsonEscapes.CanonicalForm | src/json.rs:40-53 | whatever document is accepted, printing its value gives one that is accepted and means the same |
| JsonEscapes.SameMeaningIff | src/json.rs:40-53 | two accepted documents have the same value exactly when they have the same canonical form |
| JsonNumber.SumDigits | src/json.rs:104-114 | the checked sum gives up exactly when the value does not fit |
| JsonNumber.AsI64 | src/json.rs:93-116 | the loop is the value of the token's integer part |
| JsonNumber.DecimalReadsBackIff | src/json.rs:93-116 | the decimal text of an integer reads back exactly when its magnitude is at most i64::MAX |
| JsonNumber.PartsRead | src/json.rs:100-106 | a minus or nothing, digits, and behind a point or exponent anything: worth the signed digits, or nothing beyond 2^63 - 1 |
| JsonNumber.IntegerIff | src/json.rs:93-116 | a token is an integer exactly when it has that shape |
| EditorInvariant.KeyKeeps | src/edit.rs:539-667 | any key in any mode, from a clamped state, keeps the buffer non-empty and free of newlines, the snapshots well formed and the history bounded |
| EditorInvariant.EverySessionIsSafe | src/edit.rs:135-720 | so over every key sequence from opening any file; undo plus redo never exceed 200, and cursor and row are in range for the mode and the window |
| EditorInvariant.MoveOnlyMoves | src/edit.rs:557-566 | a movement key changes the cursor and nothing else |
| EditorHistory.RunConcat | src/edit.rs:686-715 | running keys in two goes is running them in one |
| EditorHistory.UndosThenRedos | src/edit.rs:351-389 | k undos then k redos, clamped between keys, restore buffer, cursor, dirty flag and both histories |
| EditorHistory.UndoTakesBackASession | src/edit.rs:579-649 | from rest, any of i a I A o O, any keys without ESC, ESC and u restore lines, cursor and dirty flag exactly |
| EditorDelete.UndoTakesBackEdit | src/edit.rs:351-377 | any edit made behind one checkpoint is taken back whole by one undo |
| EditorDelete.XIs | src/edit.rs:568-575 | `x` takes the character under the cursor, and on an empty line does nothing at all |
| EditorDelete.DdIs | src/edit.rs:433-444 | `dd` takes the line and leaves the others in order, the last one emptied instead |
| EditorDelete.UndoTakesBackDeletion | src/edit.rs:351-377 | either, and `u`, is where it started |
| EditorText.SavedIsText | src/edit.rs:482-492 | what `save` writes is the text before the caret, the text behind it, and a newline |
| EditorText.InsertCharIs | src/edit.rs:393-401 | typing a character puts it at the caret of that text |
| EditorText.SplitLineIs | src/edit.rs:403-414 | Enter puts a newline there |
| EditorText.BackspaceIs | src/edit.rs:416-431 | Backspace takes the one character before the caret, a newline too, and nothing only at the very start |
| EditorText.DeleteIs | src/edit.rs:638-644 | Delete takes the one behind the caret, but no newline |
| EditorText.TypingInserts | src/edit.rs:623-649 | typing any passage, Enter included, through the clamping loop puts exactly that passage at the caret |
| EditorText.ErasingRemoves | src/edit.rs:623-649 | k backspaces take back the k characters before the caret, or all there are |
| EditorText.TypedThenErased | src/edit.rs:623-649 | a passage typed and erased leaves the text and the caret as they were |
| EditorText.WordForwardLands | src/edit.rs:446-461 | `w` stops on the next word's first character, or goes to the next line when this one has none |
| EditorText.WordBackLands | src/edit.rs:463-480 | `b` stops on the nearest word start before the cursor, or at the front of the line |
| EditorFiles.OpenTakesBackSave | src/edit.rs:482-505 | opening what `save` writes gives the lines back |
| EditorFiles.SaveTakesBackOpenIff | src/edit.rs:141-157 | saving an opened text gives it back if it ended a line and otherwise with one newline more |
| EditorFiles.KeyKeepsClean | src/edit.rs:482-505 | every key but undo and redo keeps: a clean flag means the file at the path opens to the buffer |
| EditorFiles.UndoAfterSaveLiesIff | src/edit.rs:360-377 | one case: after a session, a write and an undo the flag is clean over the old text, right only if the session had changed no text |
| EditorHonest.OpenIsHonest | src/edit.rs:135-180 | an opened file's flag can be trusted, now and through any undo or redo |
| EditorHonest.KeyHonestIff | src/edit.rs:539-667 | every key keeps that, undo and redo included, but a save that the store takes, which keeps it exactly when no clean snapshot in either history is of another text |
| EditorHonest.SaveHonestIff | src/edit.rs:482-505 | a save to any path leaves the flag trustworthy if and only if every clean snapshot in both histories has the text being saved |
| EditorHonest.AlwaysHonestIff | src/edit.rs:686-715 | over any key sequence from a trustworthy state the flag can be trusted at every point if and only if every save is made in such a state |
| EditorHonest.SessionIsHonestIff | src/edit.rs:686-715 | in particular over every session from opening any file |
| EditorHonest.HonestIffTrueBothWays | src/edit.rs:360-389 | trustworthy means just that: however many undos or redos from here, a clean flag is over the text the file holds |
| EditorHonest.WriteTrueIff | src/edit.rs:482-505 | after `:w` as typed every undo and redo tells the truth if and only if no clean snapshot was of another text when it was typed |
| EditorCommands.LineReads | src/edit.rs:507-515 | blanks around a command do not matter; its first word is the verb and the rest, trimmed, the argument |
| EditorCommands.EscapeCancels | src/edit.rs:651-667 | a colon, any text and ESC leave everything as it was |
| EditorCommands.CommandDoes | src/edit.rs:507-537 | every command as typed, from the colon to Enter: what it writes and where, and whether it quits |
| EditorCommands.QuitsIff | src/edit.rs:517-533 | a command quits exactly if it is `q!`, `q` over a clean buffer, or `wq` or `x` with the write taken or nothing to write; quitting with `q` and `q!` writes nothing |
| EditorCommands.QuittingLosesNothing | src/edit.rs:518-530 | over every session from opening any file: quit without `:q!` means a clean flag, and, if every save agreed with the histories, that the file opens to the lines on the screen |
| EditorKeys.ClampIsNearest | src/edit.rs:201-217 | clamping takes the cursor to the nearest place and the window by as little as shows it, and changes nothing else |
| EditorKeys.KeysMove | src/edit.rs:557-563 | where the arrows, Home, End and `h l k j 0 $ G` put the cursor, in normal and in insert mode |
| EditorKeys.WordKeys | src/edit.rs:564-565 | `w` and `b` as typed are the word motions, held to the line |
| EditorKeys.SecondKeys | src/edit.rs:542-555 | behind `d` or `g` another key does nothing, but for `dd` and `gg`, which goes to the very start |
| EditorKeys.DeletionsLeaveCursor | src/edit.rs:433-444 | where `dd` and `x` leave the cursor, with nothing to redo |
| EditorKeys.InsertStarts | src/edit.rs:579-614 | `i a A I` start where they say on the line as it is, `o` and `O` on a new empty line below or above, all from a fresh checkpoint |
| EditorKeys.CheckpointKeepsNewest | src/edit.rs:351-358 | a checkpoint keeps the newest two hundred states in order, this one last, and forgets what could be redone |
| EditorKeys.InsertKeys | src/edit.rs:623-649 | what each key types, takes or ends in insert mode, by its code |
| EditorKeys.NothingToDo | src/edit.rs:367-389 | undo and redo with nothing to go to do nothing, nor does any key once the editor has quit |
| EditorKeys.SavedLine | src/edit.rs:482-492 | every line stands in the saved text with a newline behind it, between what is saved of the others |
| EditorKeys.OpensAnything | src/edit.rs:670-683 | a file opens as its UTF-8 text, or, if it is none, with a question mark for every byte that is neither printable nor a newline |
| EditorKeys.OpensAtStart | src/edit.rs:135-180 | opening any path: clean, at the very start, no history, the lines of the file or one empty line |
| Editor.Editor.constructor | src/edit.rs:135-180 | the opened state |
| Editor.Editor.ClampCursor | src/edit.rs:201-217 | the clamp of the model |
| Editor.Editor.TakeCheckpoint | src/edit.rs:351-358 | the checkpoint of the model, bound and cleared redo included |
| Editor.Editor.UndoLast | src/edit.rs:367-377 | the undo of the model |
| Editor.Editor.RedoLast | src/edit.rs:379-389 | the redo of the model |
| Editor.Editor.TypeChar | src/edit.rs:393-401 | one character in at the cursor |
| Editor.Editor.BreakLine | src/edit.rs:403-414 | the line split at the cursor |
| Editor.Editor.RubOut | src/edit.rs:416-431 | a character out, or two lines joined, or nothing at the very start |
| Editor.Editor.RemoveLine | src/edit.rs:433-444 | the line out, never leaving no line |
| Editor.Editor.MoveWordForward | src/edit.rs:446-461 | two scans forward |
| Editor.Editor.MoveWordBack | src/edit.rs:463-480 | two scans back |
| Editor.Editor.BufferText | src/edit.rs:482-492 | the loop writes every line with a newline after it |
| Editor.Editor.WriteTo | src/edit.rs:482-505 | file, path and flag change only if the store took the write |
| Editor.Editor.RunCommandLine | src/edit.rs:507-537 | :w :wq :x :q :q! with their argument |
| Editor.Editor.OnNormalKey | src/edit.rs:539-621 | every normal-mode key, two-key commands included |
| Editor.Editor.OnInsertKey | src/edit.rs:623-649 | every insert-mode key |
| Editor.Editor.OnCommandKey | src/edit.rs:651-667 | every command-line key |
| Editor.Editor.RunKeys | src/edit.rs:695-715 | the loop of `run` is the run the theorems are about |
| EditorScreen.Screen.Flush | src/edit.rs:314-338 | afterwards the screen shows the whole frame, at the price of exactly one glyph for each cell that differed from the shadow |
| RepairProofs.RankIsStable | src/repair.rs:317-340 | the ranking is a permutation of the rows offered, groups in order, table order inside each |
| RepairProofs.RankOfTable | src/repair.rs:184-213 | the two rows there are: `skip-hwp` first only for its own signature, not at all outside `power` |
| RepairProofs.AttemptLeavesOneOrNone | src/repair.rs:515-545 | for any table, chooser and judge: at most three rows, each offered, none twice; Unrepaired leaves the knobs as they were, Repaired exactly the winning row applied and passed |
| RepairProofs.AdoptedWouldApply | src/repair.rs:262-284 | what is adopted is what the next boot, asked by name, will agree to apply |
| RepairChoice.WouldApplyIff | src/repair.rs:262-284 | a repair named at boot is applied exactly when a row of that name is offered for the subsystem |
| RepairProofs.FailedAttemptLeavesNoTraceIff | src/repair.rs:176-182 | the real table leaves no trace of failure, for all judges, exactly when the knob was off or its row not offered |
| RepairChoice.AttemptTriesTheChosen | src/repair.rs:515-527 | for any table, chooser and judge, round by round: the row tried is the one the chooser named in the ranking less the rows tried before, or the last of those; at most three |
| RepairChoice.RuleTriesInOrder | src/repair.rs:430-463 | a chooser that answers 0 tries the ranking in its order |
| RepairChoice.FirstRepair | src/repair.rs:184-213 | so a general protection fault in `dev::power` is met with `skip-hwp` first, anything else with `retry` |
| RepairLoop.RankRows | src/repair.rs:317-333 | the loop over three lists is the ranking |
| RepairLoop.Machine.TryRepairs | src/repair.rs:515-545 | the loop, with the chooser's index clamped, is the attempt the theorems are about |
| RepairLoop.Note | src/repair.rs:232-243 | an entry is remembered once, in order, while one of the eight slots is free |
| RepairLoop.NoteAttempt | src/repair.rs:480-508 | what is kept of the log is the longest tail of whole lines that leaves room for the new one |
| AdapterProofs.AcceptedIff | tools/adapter.py:96-156 | a file is read as an adapter exactly when that adapter is well formed and the file is it written out, so re-writing an accepted file is byte-identical |
| AdapterProofs.WrittenReads | tools/adapter.py:96-134 | a written adapter with more bytes behind it is refused for exactly that many |
| AdapterProofs.WalkedIsWritten | tools/adapter.py:130-134 | and only such files are refused for trailing bytes |
| AdapterProofs.NoPrefixAccepted | tools/adapter.py:130-134 | no accepted file is a proper prefix of another |
| AdapterProofs.CutFilesAreRefused | tools/adapter.py:104-116 | an accepted file cut short anywhere is refused |
| AdapterLayout.FileLayout | tools/adapter.py:137-156 | where every word of an adapter stands in its file, in which order of bytes, behind which letters |
| AdapterLayout.SiteFaultIff | tools/adapter.py:104-128 | a site is refused for exactly what is wrong with its bytes: too few for its counts, an unknown kind, more claimed than there is, or the first row outside |
| AdapterLayout.RefusedIff | tools/adapter.py:96-134 | a file is refused with an error if and only if that is the first thing wrong with it, for every file and every error |
| AdapterCodec.ReadBlob | tools/adapter.py:96-134 | the offset and nested loops give the adapter or the first thing wrong with the file, with its numbers |
| AdapterCodec.ReadRowsFrom | tools/adapter.py:119-128 | the row loop, stopping at the first row outside |
| AdapterCodec.WriteBlob | tools/adapter.py:137-156 | the buffer built up is the written form, or nothing when a count does not fit its field |
| Pipeline.SplitPipeline | src/shell.rs:7395-7441 | the one-pass loop cuts at the last pipe or redirection outside strings and brackets, not part of a longer operator, an arrow only before an absolute path; or nowhere if there is none |
| Pipeline.LastCut | src/shell.rs:7370-7394 | the place found is a place to cut and no later one is |
| PipelineProofs.JoinedSplits | src/shell.rs:7395-7441 | a head ending outside strings and brackets and a tail with no operator of its own, joined, come apart into the two, trimmed |
| PipelineProofs.JoinedCut | src/shell.rs:7395-7441 | in general the cut is the tail's own last one, else the joint |
| PipelineProofs.ComparisonIsNotCut | src/shell.rs:7383-7392 | an arrow before anything but an absolute path is never taken for a redirection |
| PipelineGrammar.CutsAtTheLast | src/shell.rs:7395-7441 | a line of plain characters, bars, strings and bracketed groups comes apart at its last single bar or lone arrow before a path, whatever the strings and groups hold and even if the line ends inside one |
| PipelineGrammar.NothingToCut | src/shell.rs:7395-7441 | and is left alone when there is none |
| PipelineGrammar.NoCutInString | src/shell.rs:7403-7417 | behind any head that ends outside strings and brackets no cut falls between two double quotes |
| PipelineGrammar.NoCutInNested | src/shell.rs:7403-7422 | nor in a string with escapes, nor between an opening bracket and the one that closes it |
| Merkle.BranchFoldsToRoot | tools/algocheck.py:176-180 | for any nonempty leaves, any leaf and any hash, folding the leaf along its branch gives the root |
| Merkle.BranchLength | tools/algocheck.py:181-181 | the branch is ceil(log2 n) long |
| Merkle.OnlyItsBranchFolds | tools/algocheck.py:182-185 | with a hash that does not collide, only the leaf and its own branch in its own order fold to the root |
| Merkle.PaddingKeepsRoot | tools/algocheck.py:69-70 | repeating an odd last leaf does not change the root |
| Merkle.RootIsTop | tools/algocheck.py:61-74 | the root is the top of the tree read from above, each node the hash of the left and the right one below it |
| Merkle.BranchIsBeside | tools/algocheck.py:61-74 | a branch is, level by level, the node beside the way up |
| Merkle.BranchAndRoot | tools/algocheck.py:61-74 | the loop over levels collects the leftmost leaf's branch and arrives at the root |
| Merkle.FoldLeftmost | tools/algocheck.py:176-180 | the self-test's loop is the fold |
| LogRing.Ring.Put | src/log.rs:38-43 | the byte joins the history and the ring keeps the newest |
| LogRing.Ring.WriteStr | src/log.rs:47-54 | so does every byte of a string |
| LogRing.Ring.Stats | src/log.rs:68-72 | held, printed and lost, with held plus lost equal to printed |
| LogRing.Ring.Contents | src/log.rs:79-90 | the last min(total, CAP) bytes oldest first, except nothing when total is exactly CAP |
| LogRing.Recall | src/log.rs:38-90 | what was printed is given back whole exactly when it is shorter than CAP, and its last CAP bytes when longer |

## Left out

- SpawnStep: `spawn` and `adopt_idle` are one step each, because two racing on COUNT may share a slot; that they are not raced is a condition of every theorem about the scheduler.
- Ring 3 entry state, the FPU area and the allocation failures of `spawn` and `adopt_idle` are not part of the scheduler's model; a switch is its effect on rsp and CR3.
- The low flag bits of CR3, the wrap of switch counters and of every `usize` counter.
- Timer ticks: a pick may be taken by a core whenever it is outside a switch, which allows every timing of `tick` and `yield_now`.
- Memory orderings weaker than interleaving of single atomic operations, in the scheduler, the fabric and the spinlock.
- The timed-out path of `parallel_split` (`src/smp.rs:456-467`), the sleep of a worker between generations, bring-up of the other cores, and `selftest` and `bench`.
- FabricAlone.WorkFabric.ParallelSplit: a call that publishes runs with nobody inside, so its waits do not spin; the interleaved case is what the transition system is for.
- FabricLate.ExactIffNoneLate: speaks of a context other than the one lying in CTX, because with the same context a late reader may still read every slot right.
- SpinLock.Spin.Acquire: a panic is an empty result; the spurious failures of a weak compare-exchange are among the attempts that find the flag up.
- `force_unlock`, `Racy` and the sharing audit of `src/sync.rs`; the scheduling of cores that contend for a lock (nothing is claimed about fairness between them), and deadlock between cores through lock order.
- JSON accessors `get`, `path`, `idx`, `items`: single lookups.
- The source writes only strings; the printer of whole values is the model's, built on that writer with no blanks.
- Editor: message line, `compose`, key polling and glyphs; a drawn cell is the glyph index and two colours. Lines longer than memory and files the store truncates are not modelled.
- EditorScreen.Screen.Flush: the frame it draws is any frame, `compose` not being modelled.
- The prompt and decode of the repair chooser, which may answer any number here; the guard around the judge, which may say anything of the knobs it is shown but changes none; the repairs read from disk, their re-check and `revert_all`.
- RepairLoop.NoteAttempt: requires that the line itself fits the log, as the loop of the source does not end otherwise.
- AdapterCodec.ReadBlob: floats are their 32-bit words, so a NaN that the interpreter would quiet keeps its bits; `--export-lora` and the report are not modelled.
- Pipeline.SplitPipeline: scans characters where the source scans bytes, every byte it looks for being ASCII; `run_pipeline` and the commands it runs are not modelled.
- PipelineGrammar.CutsAtTheLast: does not speak of a line that opens a bracket again behind one closed too often; there the loop is `LastCut`, which covers every line.
- `Words`, the shell's line editor and its history, `khh_step`, and the digests in `tools/algocheck.py`: each would add members that follow at once from their bodies.
