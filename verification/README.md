# Verified core of the serial gateway

This project models the parts of the gateway whose correctness is hardest to see from the code, and
proves what they are for. Each component is stated over every input, every run or every reachable
state.

| Files | Component |
|---|---|
| `JournalModel`, `JournalProtocol`, `JournalProofs`, `JournalTheorems`, `JournalExactness`, `JournalAnswers`, `JournalMemory` | the command journal: admission, serial workers and one writer thread over a bounded cache and a durable table, with crashes, restarts, failed saves, retention and a database that opens late |
| `Fence` | the maintenance fence: a persistent fencing token in front of admission, with ambiguous saves and crashes |
| `Lexer`, `Parser`, `Printer`, `Precedence`, `Evaluator`, `RuleGraph`, `KahnOrder`, `Engine` | the formula engine: tokenizer, Pratt parser, evaluation with validity, Kahn ordering, one evaluation cycle |
| `Frame`, `Mailbox`, `Points`, `StreamModel`, `Worker` | unit-to-unit synchronisation: wire frames and the resynchronising decoder, payload layouts and the outgoing mailbox, the point store, the stream worker |
| `Utf8`, `LogFilter`, `LogPaging` | filtered log paging by byte offset |
| `Bits`, `BitExtraction` | bit fields of status frames and the check that admits them |

`Basics` holds shared definitions. Verify everything with `dafny verify dfyconfig.toml`.

## How the model relates to the program

Operations that update fields are classes whose methods are proved against functions on values;
loops stay loops. A protocol is a state machine whose steps are the program's critical sections, and
its theorems quantify over runs of those steps. Integers are unbounded except where the program's
width matters and is written out: 64-bit revisions of the mailbox and tokens of the fence, checked
64-bit formula arithmetic, the 64-bit accumulator and 32-bit counts of bit extraction.

What the program takes from outside enters as parameters. CRC32, deflate and inflate are functions
with the contract that inflating undoes deflating, consumes all input and reports the exact length
(section 2.2 of RFC 1950); nothing is assumed of CRC32 but its 32 bits. SHA-256 digests and filter
indexes are arbitrary functions. Doubles are bit patterns with arbitrary arithmetic. Clock readings
are naturals that never fall. SQLite transactions commit entirely or not at all, and may report a
failure either way.

Some claims hold only under a condition, and are proved in their exact form:

- An events page may be asked from an arbitrary position, and a page without rows echoes it, so
  `next_cursor` is not always safe. Between two writer rounds a cursor is safe for ever if and only if
  it is at most the durable head and below every dirty revision that is not stored
  (`CursorSafeExactly`); safe means that no row is ever stored at or below it that is not stored now.
  A dirty revision that an unreported commit stored and retention removed counts as not stored: its
  retry stores it again. Cursors reached by following `next_cursor` from zero are always safe
  (`NoLateEvidence`).
- A save that commits but is reported as failed makes its retry a no-op, so the mark of incomplete
  evidence can be missing from the journal; nothing else differs, and while every save reports truly
  nothing does (`RevisionsNeverReused`, `MemoryAgreesWithJournal`).
- A shift count is not always limited to 63: it is narrowed to 32 bits first, so 2^32 shifts by 0
  (`ShiftDoesNotAlwaysSaturate`, exact condition in `ShiftSaturatesExactly`).
- `record_bounds_error` and `parse_status` do not agree on frames of 2^29 bytes and more, where the
  bit count wraps (`CheckTooLenientOnHugeFrames`, exact condition in `ExtractedExactly`). No accepted
  packet is that long (`PacketCheckIsExact`).
- Decoding a unit report and rewriting its fields restores it if and only if every fire slot holds a
  known pattern; otherwise the rewriting is refused (`RewriteRestores`).
- Filtering a page that starts inside a line is refused if and only if that line's start is out of the
  lookbehind's reach (`ReadLinePrefix`), which cannot happen where lines fit one scan.

## Model

| member | source | states |
|---|---|---|
| JournalTheorems.RunKeepsInv | src/command_tracking.rs:249-773 | every interleaving of admission, updates, eviction, save success and failure, late open with rebase, retention, pages, crash and restart keeps the journal invariant |
| JournalProofs.StepKeeps | src/command_tracking.rs:249-773 | each single step keeps it |
| JournalProofs.UnreportedKeeps | src/command_tracking.rs:706-739 | a save that commits but reports an error keeps the invariant |
| JournalTheorems.NoLateEvidence | src/command_tracking.rs:649-773 | after a page returned a cursor, every event row stored later at or below it was stored when the page was read, with the same snapshot, in this process or after any restart, whatever saves report |
| JournalTheorems.ChainListsExactlyOnce | src/command_tracking.rs:756-769 | following the cursor has listed every stored event of the manager up to it exactly once, in revision order, and nothing that was not committed |
| JournalExactness.CursorSafeExactly | src/command_tracking.rs:756-769 | no continuation stores a row at or below a cursor that is not stored now, if and only if the cursor is at most the durable head and below every dirty revision that is not stored |
| JournalExactness.CeilingIsExact | src/command_tracking.rs:756-769 | a page's ceiling never exceeds that bound, and meets it exactly while every save reports truly |
| JournalExactness.RunSettled | src/command_tracking.rs:685-739 | under that condition every row stored at or below the cursor, along every run, was stored at its start |
| JournalExactness.AboveHeadIsLate | src/command_tracking.rs:541-620 | above the durable head a restart under an unused boot identity stores a row late, by recovering a row or admitting a request that is not stored |
| JournalExactness.DirtyIsLate | src/command_tracking.rs:685-739 | at or above a dirty revision that is not stored, pruned or never committed, the writer's own batches store a row late |
| JournalExactness.DirtyReaches | src/command_tracking.rs:685-739 | round after round of the first 256 dirty snapshots in key order, every dirty revision is stored in the end |
| JournalExactness.FirstBatch | src/command_tracking.rs:685-693 | the batch the writer takes exists for every dirty map: the first snapshots in key order, as many as the limit allows |
| JournalTheorems.RunLate | src/command_tracking.rs:622-739 | along a run the history only grows, up to marks, and every row stored at or below a safe cursor was stored before, unchanged |
| JournalTheorems.RunExact | src/command_tracking.rs:622-739 | while every save reports truly nothing recorded ever changes |
| JournalTheorems.StepLate | src/command_tracking.rs:622-739 | one step keeps a safe cursor safe and stores or changes no row at or below it |
| JournalTheorems.AdmittedAtMostOnce | src/command_tracking.rs:249-389 | no identity is reserved twice in a process, none from the startup inventory, whatever the cold lookup answers |
| JournalTheorems.StoredNeverAdmitted | src/command_tracking.rs:461-491 | a process that could read its startup inventory never reserves an identity stored when it started |
| JournalAnswers.RetryAnswered | src/command_tracking.rs:249-317 | once a process has reserved a command, a later request under its identity is never reserved again; while it is cached the answer is already known for the same content and a conflict for any other |
| JournalMemory.BeginAnswers | src/command_tracking.rs:249-374 | each of the nine answers is given exactly on its own condition, spelled out over the cached entries, the lookup and the inventory, and changes exactly what goes with it |
| JournalMemory.BeginAnswered | src/command_tracking.rs:249-335 | the conditions of the answers |
| JournalMemory.BeginChanged | src/command_tracking.rs:279-374 | the change that goes with each answer: nothing, the error text, or one new dirty entry |
| JournalMemory.ReadInventory | src/command_tracking.rs:479-491 | the row loop gives up exactly when a row is left after as many digests as the bound allows, and otherwise holds every stored identity |
| JournalTheorems.CapacityRejectionKeepsAdmissible | src/command_tracking.rs:318-335 | a capacity rejection remembers nothing of the request: once a report makes any command terminal, the same request is reserved for every lookup answer that lets it through |
| JournalTheorems.RevisionsNeverReused | src/command_tracking.rs:598-679 | the head never falls and bounds all revisions; whatever is stored under a revision is one snapshot, up to the mark of incomplete evidence after an unreported commit and exactly otherwise, across restart, recovery, retention and rebase |
| JournalTheorems.SaveNeverIgnored | src/command_tracking.rs:622-638 | what the writer saves is new in both tables, or an earlier save of it committed unreported and only the mark is at stake |
| JournalTheorems.UnreportedCommitLosesMark | src/command_tracking.rs:622-638 | the retry of an unmarked save that committed unreported is a no-op, so both tables lack its mark |
| JournalTheorems.MemoryAgreesWithJournal | src/command_tracking.rs:401-423 | dirty keys are cached with the identical snapshot; clean entries are committed at that revision unless pruned, identically but for a mark lost to an unreported commit; a dirty eviction implies the gap flag; the cache stays bounded |
| JournalProofs.OpenDoneKeeps | src/command_tracking.rs:659-679 | a journal that opens late renumbers every dirty snapshot above its head and keeps the invariant |
| JournalProofs.RecoverSaveKeeps | src/command_tracking.rs:598-620 | restart recovery stores an unfinished row under the number after the head, never used before, as Unknown and marked incomplete, and keeps the invariant |
| JournalAnswers.UnfinishedAreOwn | src/command_tracking.rs:598-620 | once a process has its journal open, every stored command that has not ended is its own: nothing an earlier process left unfinished stays so, through crashes at any moment of the recovery |
| JournalAnswers.JoinedOrder | src/command_tracking.rs:685-693 | pairs of manager and command are ordered as their joined texts are, and told apart by them |
| JournalProofs.RetentionKeeps | src/command_tracking.rs:640-647 | retention removes, with all its events, exactly a command that has ended and is older than the cutoff or has at least `keep` newer ended ones, keeps the rest and the head, and keeps the invariant |
| JournalProofs.RetentionBounds | src/command_tracking.rs:640-647 | after retention at most `keep` finished commands remain |
| JournalProofs.PageExact | src/command_tracking.rs:756-769 | a page is exactly the manager's stored events between the old and the new cursor, ascending |
| JournalProofs.RowsAll | src/command_tracking.rs:756-769 | a query returns no more rows than its limit, and all of them if it returns fewer |
| JournalMemory.State.constructor | src/command_tracking.rs:80-91 | the tracker starts empty |
| JournalMemory.State.OldestTerminal | src/command_tracking.rs:318-335 | the eviction victim is the entry of least revision among those neither accepted nor under way, if there is one |
| JournalMemory.State.EvictEntry | src/command_tracking.rs:318-335 | eviction forgets the entry, its acknowledgements and its dirty snapshot, which sets the gap flag, and nothing else |
| JournalMemory.State.Admit | src/command_tracking.rs:249-389 | each answer is given exactly on its condition: already known if and only if the cached or stored hash equals the request's, a conflict if it differs, and every other refusal on its own; only a reservation changes more than the error text |
| JournalMemory.State.ReserveEntry | src/command_tracking.rs:336-374 | a reservation tombstones the identity and caches its snapshot dirty under the next revision |
| JournalMemory.State.Report | src/command_tracking.rs:401-423 | a worker report keeps the changed snapshot under the next number with its last 256 attempts, marks lost attempts, and makes it dirty; an unknown acknowledgement changes nothing |
| JournalMemory.State.ConfirmSave | src/command_tracking.rs:709-721 | a confirmed save cleans the key if and only if it was not updated meanwhile, and clears the error when nothing is left to save |
| JournalMemory.State.SaveFailed | src/command_tracking.rs:722-737 | after a failed save every buffered snapshot is marked incomplete, in cache and dirty map alike |
| JournalMemory.State.MarkAll | src/command_tracking.rs:728-735 | the marking loop marks exactly the buffered snapshots and keeps both maps' keys |
| JournalMemory.State.RebaseDirty | src/command_tracking.rs:659-679 | the dirty keys take the numbers after the head in order, each once, marked incomplete, and nothing else changes |
| JournalMemory.State.RebaseEntry | src/command_tracking.rs:665-677 | one dirty key moves to the next revision, marked incomplete |
| JournalMemory.CollectPage | src/command_tracking.rs:756-769 | the page loop takes the longest prefix of rows that fits 1 MiB, at least one, and the cursor is its last revision |
| FenceModel.Gate.constructor | src/operations/maintenance.rs:49-75 | an unreadable record starts blocked |
| FenceModel.Gate.Reserve | src/operations/maintenance.rs:77-90 | admission is granted if and only if the fence is durable and inactive and the counter has room, and then counted |
| FenceModel.Gate.Drop | src/operations/maintenance.rs:41-46 | a dropped reservation is counted back |
| FenceModel.Gate.Enter | src/operations/maintenance.rs:110-147 | entering decides by owner and token, and blocks admission before writing |
| FenceModel.Gate.Leave | src/operations/maintenance.rs:149-186 | leaving needs the owner, a durable fence and a complete drain |
| FenceModel.Gate.Status | src/operations/maintenance.rs:92-108 | the report says blocked and drained exactly when the gate is |
| FenceModel.Gate.Saved | src/operations/maintenance.rs:188-210 | an unconfirmed save leaves the fence not durable |
| FenceProtocol.RunKeeps | src/operations/maintenance.rs:77-281 | memory, disk and a save in progress stay consistent in every run with crashes and ambiguous saves |
| FenceProtocol.StepKeeps | src/operations/maintenance.rs:77-281 | each step keeps the invariant, and the token on disk never falls |
| FenceProtocol.AdmissionExactly | src/operations/maintenance.rs:77-90 | in every reachable state admission is granted exactly by a running process with a durable inactive fence and room in the counter |
| FenceProtocol.EnterExactly | src/operations/maintenance.rs:110-147 | when entering is granted, already granted or refused, and for which reason |
| FenceProtocol.LeaveExactly | src/operations/maintenance.rs:149-186 | when leaving is granted, already done or refused, and for which reason |
| FenceProtocol.EnterSucceeds | src/operations/maintenance.rs:110-210 | from a quiet state with a durable inactive fence a valid owner with the next token gets the fence: on disk, acknowledged, admission closed |
| FenceProtocol.LeaveSucceeds | src/operations/maintenance.rs:149-210 | the recorded owner of a durable drained fence releases it: the disk fence is inactive with its token kept, admission open |
| FenceProtocol.RestartResumes | src/operations/maintenance.rs:49-75 | a restart that can read the record resumes it, admitting again or closed and drained for its owner to release; one that cannot admits nothing |
| FenceProtocol.ActiveOwnersValid | src/operations/maintenance.rs:110-147 | an active fence names a valid owner wherever it is recorded |
| FenceProtocol.TokensFence | src/operations/maintenance.rs:110-147 | a token is acknowledged to at most one deployment, and acknowledged tokens only rise |
| FenceProtocol.SupersededOwnerIsFenced | src/operations/maintenance.rs:110-186 | a superseded owner can neither re-enter nor release, in any process |
| FenceProtocol.NoAdmissionWhileFenced | src/operations/maintenance.rs:77-90 | no admission while the disk holds an active fence, in any process lifetime |
| FenceProtocol.AcknowledgedMeansFenced | src/operations/maintenance.rs:110-147 | an acknowledged enter is on disk |
| FenceProtocol.OnlyTheOwnersLeaveReleases | src/operations/maintenance.rs:149-210 | an active fence leaves the disk only by a leave the recorded owner asked for with its token, with no admission outstanding and no port busy |
| FenceProtocol.FenceHoldsUntilRelease | src/operations/maintenance.rs:77-210 | from an acknowledged enter until that owner's leave commits nothing is admitted, through crashes and restarts |
| FenceProtocol.DrainStaysDrained | src/operations/maintenance.rs:92-108 | a reported drain stays drained, in admissions and in busy ports, while the fence is on disk |
| Lexer.Tokenize | src/calc_engine/tokenizer.rs:57-232 | the scanning loop computes the token list of the text, or refuses it |
| Lexer.ScanNumber | src/calc_engine/tokenizer.rs:70-109 | numbers, plant codes that start with digits, one dot at most, 64-bit bound |
| Lexer.ScanWord | src/calc_engine/tokenizer.rs:112-120 | the longest run of word characters |
| Lexer.DecimalRoundTrip | src/calc_engine/tokenizer.rs:100-106 | reading a decimal numeral gives the number |
| Lexer.LexToken | src/calc_engine/tokenizer.rs:57-232 | every writable token's text followed by a blank is read back as that token |
| Lexer.TokenizeRender | src/calc_engine/tokenizer.rs:57-232 | tokenizing a rendered token list gives the list back |
| Lexer.TokensRead | src/calc_engine/tokenizer.rs:57-232 | the tokens of a text account for every character of it but the blanks, word by word |
| Lexer.RefusedAt | src/calc_engine/tokenizer.rs:57-232 | a text is refused only at a character that starts nothing, a single equals sign, or an integer beyond 64 bits |
| Parser.ExprBp | src/calc_engine/parser.rs:148-224 | a successful call consumes at least one token and stays inside the list, so parsing terminates |
| Parser.Prefix | src/calc_engine/parser.rs:150-197 | so does an operand |
| Parser.IfCall | src/calc_engine/parser.rs:226-251 | so does an IF with its three arguments |
| Parser.Infix | src/calc_engine/parser.rs:199-224 | folding operators never moves back |
| Parser.TokenParser.Advance | src/calc_engine/parser.rs:137-145 | the current token, end-of-input past the end |
| Parser.TokenParser.Expression | src/calc_engine/parser.rs:148-224 | the stateful descent and its operator loop compute the grammar function and leave the position after what they consumed |
| Parser.TokenParser.Operand | src/calc_engine/parser.rs:150-197 | the same for operands, including truth words and IF only before a parenthesis |
| Parser.TokenParser.IfFunction | src/calc_engine/parser.rs:226-251 | the same for IF |
| Parser.ParseTokens | src/calc_engine/parser.rs:127-134 | the whole list must be one expression |
| Printer.ParsePrinted | src/calc_engine/parser.rs:148-281 | an expression printed for binding power k, anywhere in a token list, is parsed at any minimum up to k and parsing goes on behind it |
| Printer.ParsePrint | src/calc_engine/parser.rs:127-281 | printing a tree with only the parentheses its binding powers require, tokenizing the text and parsing returns the tree |
| Printer.ParensRequired | src/calc_engine/parser.rs:148-281 | no pair of parentheses can be dropped: without it the same tokens parse, where it was demanded, to another tree |
| Precedence.PrecedenceByClass | src/calc_engine/parser.rs:253-275 | in a text with two operators between three operands the operator of the tighter class takes the middle operand, and of one class the left one does, for all operators and the ten classes written out |
| Precedence.PrefixTightest | src/calc_engine/parser.rs:277-281 | a prefix operator takes the operand next to it, whatever binary operator stands beside |
| Precedence.ConditionFirst | src/calc_engine/parser.rs:226-251 | IF takes its condition first, then the two branches |
| Precedence.ParenthesesGroup | src/calc_engine/parser.rs:150-197 | a parenthesised operation is one operand |
| Precedence.Leaves | src/calc_engine/parser.rs:150-197 | numerals, names and the truth words in any case |
| Evaluator.ErasureIsEvaluate | src/calc_engine/evaluator.rs:181-238 | dropping the validity flag gives exactly plain evaluation, values and errors |
| Evaluator.NonInterference | src/calc_engine/evaluator.rs:181-238 | a valid result is unchanged, and still valid, when invalid variables are changed or deleted, through short circuits and IF |
| Evaluator.Coincidence | src/calc_engine/evaluator.rs:123-238 | evaluation looks only at the variables an expression mentions |
| Evaluator.ValidityExact | src/calc_engine/evaluator.rs:181-238 | a result is valid if and only if every variable the evaluation looked at is |
| Evaluator.StrictMeaning | src/calc_engine/evaluator.rs:123-180 | other operators take the values of both operands, left first, and the first error is the result's |
| Evaluator.LiteralMeaning | src/calc_engine/evaluator.rs:240-250 | literals denote themselves |
| Evaluator.ShiftSaturatesExactly | src/calc_engine/evaluator.rs:363-371 | shift counts saturate at 63 exactly below 2^32 or where the low 32 bits are at least 63 |
| Evaluator.ShiftDoesNotAlwaysSaturate | src/calc_engine/evaluator.rs:363-371 | a count of 2^32 shifts by zero |
| Evaluator.BitwiseMeaning | src/calc_engine/evaluator.rs:267-290 | bit and, or and exclusive or act bit by bit on two's complement and stay in 64 bits |
| Evaluator.ComplementMeaning | src/calc_engine/evaluator.rs:252-265 | complement flips every bit and stays in 64 bits |
| Evaluator.ShiftLeftMeaning | src/calc_engine/evaluator.rs:286-289 | bit j of a left shift is bit j minus the limited count, zeros below, and the result stays in 64 bits |
| Evaluator.ShiftRightMeaning | src/calc_engine/evaluator.rs:290-293 | bit j of a right shift is bit j plus the limited count, the sign bit above, and the result stays in 64 bits |
| Evaluator.NegativeShift | src/calc_engine/evaluator.rs:363-371 | a negative count is refused whatever the left operand |
| Evaluator.IntegerArithmetic | src/calc_engine/evaluator.rs:252-340 | sum, difference, product and negation of integers, or an error exactly outside 64 bits |
| Evaluator.RemainderMeaning | src/calc_engine/evaluator.rs:349-361 | the remainder of truncated division, with its two errors |
| Evaluator.FloatArithmetic | src/calc_engine/evaluator.rs:308-361 | with a float operand the arithmetic is that of floats; division always is, and refuses zero |
| Evaluator.ComparisonMeaning | src/calc_engine/evaluator.rs:295-390 | each comparison is the matching float test, but integers and truth values are equal only as such |
| Evaluator.LogicMeaning | src/calc_engine/evaluator.rs:123-180 | negation and the two connectives by the truth of their operands, with short circuits |
| Evaluator.IfMeaning | src/calc_engine/evaluator.rs:123-180 | IF yields the branch its condition selects and does not evaluate the other |
| Evaluator.IntegerOperands | src/calc_engine/evaluator.rs:66-104 | integer operations take a truth value as 0 or 1 and a float only if it is a whole number |
| Evaluator.VariableMeaning | src/calc_engine/evaluator.rs:123-180 | a variable is looked up, and an unknown one is an error |
| Rules.CollectMentions | src/calc_engine/parser.rs:82-111 | the collected variables are exactly those mentioned |
| Rules.SortedNames | src/calc_engine/parser.rs:82-88 | the variable list is sorted, each name once, none lost |
| Rules.CompileAllWellFormed | src/calc_engine/engine.rs:63-115 | compiled rules have distinct names and exact variable lists, whatever the configuration |
| Rules.CompileExactly | src/calc_engine/engine.rs:311-357 | a rule compiles exactly when its type is known, its numbers are finite and ordered and its text is a formula that does not mention it; the compiled rule is that formula |
| Rules.FirstKept | src/calc_engine/engine.rs:63-115 | of several entries with one output name the first that compiles is kept, and nothing else |
| Rules.TypeNames | src/calc_engine/config.rs:62-70 | the type names, in any case |
| Rules.CompiledExactly | src/calc_engine/engine.rs:63-115 | with distinct names exactly the rules that compile are kept |
| Rules.TakeAll | src/calc_engine/engine.rs:417-424 | every ordered rule is still there when it is taken |
| Rules.TopologicalSort | src/calc_engine/engine.rs:363-425 | keeps exactly the rules clear of dependency cycles, each once, after everything it depends on |
| KahnOrder.BuildEdges | src/calc_engine/engine.rs:373-385 | dependents are listed once each and in-degrees count the dependencies |
| KahnOrder.NameIndex | src/calc_engine/engine.rs:366-371 | the index inverts the list of names |
| KahnOrder.InitialQueue | src/calc_engine/engine.rs:387-393 | exactly the rules without dependencies start |
| KahnOrder.Release | src/calc_engine/engine.rs:395-404 | in-degree subtraction never underflows; exactly the dependents reaching zero are queued, once |
| KahnOrder.SortIndices | src/calc_engine/engine.rs:387-404 | the order respects dependencies and leaves only rules with an unresolved dependency |
| KahnOrder.KeptExactly | src/calc_engine/engine.rs:359-425 | a rule is in the order if and only if no dependency walk from it revisits a rule |
| KahnOrder.DroppedWalks | src/calc_engine/engine.rs:406-424 | from a dropped rule there are dependency walks of any length |
| RuleGraph.WalkShort | src/calc_engine/engine.rs:359-425 | a walk without repetition is no longer than the graph has rules |
| RuleGraph.GroundedDependency | src/calc_engine/engine.rs:359-425 | what a cycle-free rule depends on is cycle-free |
| Engine.CompileRules | src/calc_engine/engine.rs:69-94 | the compilation loop skips rules that fail or repeat a name |
| Engine.RunRules | src/calc_engine/engine.rs:191-302 | each line is its rule's outcome on the base values and the lines before |
| Engine.OutcomeMeaning | src/calc_engine/engine.rs:200-289 | a rule publishes its result, or its default and invalid on an error or a non-finite value; limited by the minimum, then the maximum, and shown in the configured type |
| Engine.OutputsSeen | src/calc_engine/engine.rs:291-297 | later rules see an output by its type, with its validity |
| Engine.CycleSolves | src/calc_engine/engine.rs:191-302 | ordering and running a list solves its recursive equations |
| Engine.SolutionUnique | src/calc_engine/engine.rs:191-302 | those equations have one solution |
| Engine.ValidOutputsStable | src/calc_engine/engine.rs:191-302 | a valid output is unchanged when invalid base variables change or vanish, through any chain of rules |
| Engine.EditingInvalid | src/calc_engine/engine.rs:191-302 | changing or deleting only invalid base variables meets that theorem's condition |
| Engine.PermutedTable | src/calc_engine/engine.rs:63-115 | permuted configurations compile to the same table |
| Engine.PermutationIrrelevant | src/calc_engine/engine.rs:63-302 | permuting a configuration with distinct output names never changes the result map |
| Engine.CalcEngine.constructor | src/calc_engine/engine.rs:63-115 | the engine holds exactly the cycle-free compiled rules in dependency order |
| Engine.CalcEngine.RunCycle | src/calc_engine/engine.rs:191-302 | a cycle's outputs are the recursive meaning of the configuration over the base values |
| Frame.EncodeShape | communicate/src/frame.rs:49-75 | an encoded frame has a header its receiver accepts, the stored bytes and their checksum |
| Frame.DecodeEncode | communicate/src/frame.rs:49-102 | decoding an encoded frame gives the payload |
| Frame.DecodeExactly | communicate/src/frame.rs:77-102 | a frame is accepted with a payload if and only if its limits, length and length fields agree, its checksum is that of the bytes before it, and the stored bytes are the payload or inflate to all of it |
| Frame.DecodeErrors | communicate/src/frame.rs:77-102 | each refusal has its own cause |
| Frame.EncodeExactly | communicate/src/frame.rs:49-75 | a payload is sent deflated exactly when that is shorter, in a frame that carries it, and is refused exactly when it or its frame exceeds the limits |
| Frame.EncodeSucceeds | communicate/src/frame.rs:49-75 | with room for the uncompressed worst case every payload can be sent |
| FrameStream.Look | communicate/src/frame.rs:162-197 | a settled stretch is a prefix of the input; what is accepted is checksum-verified and carries the payload; waiting means less than a frame is there |
| FrameStream.Settle | communicate/src/frame.rs:134-158 | recovery settles a nonempty prefix and accepts only checksum-verified frames |
| FrameStream.ScanTiles | communicate/src/frame.rs:162-197 | accepted frames, discarded bytes and the buffer tile the input in order; every accepted frame is checksum-verified and carries its payload |
| FrameStream.LookExactly | communicate/src/frame.rs:134-197 | a genuine frame at the front is never passed over |
| FrameStream.PassedOver | communicate/src/frame.rs:162-197 | the decoder waits, skips or rejects exactly on an incomplete candidate, an implausible header, or a complete candidate that fails |
| FrameStream.DeliveredCarried | communicate/src/frame.rs:134-197 | every payload delivered was carried by a genuine frame that is a segment of the input |
| FrameStream.ScanBounded | communicate/src/frame.rs:162-197 | what stays buffered is shorter than the frame limit |
| FrameStream.RecoverTiles | communicate/src/frame.rs:134-158 | recovery accounts for every byte and publishes nothing unverified |
| FrameStream.ScanSplit | communicate/src/frame.rs:162-197 | feeding a then b equals feeding both |
| FrameStream.FeedAllIsScan | communicate/src/frame.rs:162-197 | any split into chunks leaves the same pieces and the same buffer |
| FrameStream.DeliveryIgnoresChunking | communicate/src/frame.rs:49-197 | however the encodings of payloads are cut, exactly those payloads come out in order, nothing is rejected, discarded or left over |
| FrameStream.FrameDecoder.Feed | communicate/src/frame.rs:162-197 | the loop is the scan; every payload was carried by a genuine frame in the buffered and fed bytes; a chunk is refused only for its own length |
| FrameStream.FrameDecoder.RecoverExpired | communicate/src/frame.rs:134-158 | terminates with an empty buffer and reports exactly the recovery; every payload was carried by a genuine frame in the buffer |
| FrameStream.FrameDecoder.Reset | communicate/src/frame.rs:123-125 | empties the buffer |
| FrameStream.FrameDecoder.constructor | communicate/src/frame.rs:116-122 | starts empty |
| UnitReport.FieldsTile | communicate/src/unit_report.rs:110-136 | identity and fields of each layout tile the payload without gap or overlap |
| UnitReport.InputsTile | communicate/src/unit_report.rs:110-136 | the input fields lie end to end from byte 2 to the last byte |
| UnitReport.ByteHasOneOwner | communicate/src/unit_report.rs:110-136 | every byte after the header belongs to exactly one field |
| UnitReport.SlicesDetermine | communicate/src/unit_report.rs:110-166 | header and field slices determine a payload |
| UnitReport.FireTableInverse | communicate/src/unit_report.rs:217-240 | codes 1 to 8 and the known patterns are in bijection |
| UnitReport.FireCodes | communicate/src/unit_report.rs:217-227 | the pattern of each code |
| UnitReport.PrintHex | communicate/src/unit_report.rs:204-211 | two upper-case digits a byte |
| UnitReport.ParsePrinted | communicate/src/unit_report.rs:74-211 | parsing printed hexadecimal gives the bytes |
| UnitReport.ParseHexExactly | communicate/src/unit_report.rs:74-90 | a text reads as bytes exactly pair by pair, in either case, a plus sign allowed for the first digit |
| UnitReport.HexTextReads | communicate/src/unit_report.rs:204-211 | printed text shows each byte as two upper-case digits |
| UnitReport.FieldRoundTrip | communicate/src/unit_report.rs:54-202 | reading and rewriting a field gives its bytes unless it is an unknown fire pattern |
| UnitReport.FieldBytesExactly | communicate/src/unit_report.rs:54-90 | which values a field takes and as which bytes |
| UnitReport.FieldValueMeaning | communicate/src/unit_report.rs:177-202 | what a receiver reads from each kind of field |
| UnitReport.IdentityReads | communicate/src/unit_report.rs:177-202 | the unit identity reads as 1 or 9 |
| UnitReport.WriteField | communicate/src/unit_report.rs:54-90 | succeeds exactly on a valid payload, a known input and a value that fits |
| UnitReport.WriteLands | communicate/src/unit_report.rs:54-90 | a write replaces its own slice and nothing else |
| UnitReport.WriteKeepsHolds | communicate/src/unit_report.rs:54-90 | writing a field is updating the field map |
| UnitReport.HoldsUnique | communicate/src/unit_report.rs:49-90 | the field map determines the payload |
| UnitReport.WriteOrderIrrelevant | communicate/src/unit_report.rs:49-90 | runs of writes that agree on each field's latest value build the same payload |
| UnitReport.RewriteRestores | communicate/src/unit_report.rs:177-240 | decoding and rewriting every field restores the payload byte for byte exactly when all fire slots are known |
| Mailboxes.OutgoingExactly | communicate/src/synchronization.rs:332-357 | a mailbox yields a payload exactly when it has one that is complete and fresh |
| Mailboxes.FullCountIsComplete | communicate/src/synchronization.rs:338-347 | as many recorded inputs as the layout has means all of them |
| Mailboxes.JsonMeaning | communicate/src/synchronization.rs:231-258 | numbers of 32 bits go to numeric fields, texts to hexadecimal ones, nothing else anywhere |
| Mailboxes.BuildFields | communicate/src/synchronization.rs:231-258 | the candidate holds every requested field or the request is refused |
| Mailboxes.Slot.constructor | communicate/src/synchronization.rs:152-177 | starts empty at revision 0 |
| Mailboxes.Slot.Submit | communicate/src/synchronization.rs:180-204 | compare and set of a whole snapshot; a refusal changes nothing |
| Mailboxes.Slot.SubmitFields | communicate/src/synchronization.rs:207-268 | accepted exactly with every input once, well typed and writable; a refusal changes nothing |
| Mailboxes.Slot.WriteField | communicate/src/synchronization.rs:271-302 | one field renews its own deadline only; refused after a whole submission; buffer and field map stay in step |
| Mailboxes.Slot.Current | communicate/src/synchronization.rs:332-357 | what is sent is the template with each field's latest value, complete and younger than the maximum age |
| Points.Zero | communicate/src/points.rs:31-39 | the zero of a type has that type and is false, zero or empty |
| Points.ValidMeaning | communicate/src/points.rs:51-58 | infinities, NaNs and texts over 16 KiB are not valid |
| Points.CountsCover | communicate/src/points.rs:268-295 | as many distinct owned names as the task lists cover the task |
| Points.CoverCounts | communicate/src/points.rs:268-295 | and conversely where the task lists its points once |
| Points.CheckBatch | communicate/src/points.rs:281-295 | the validation loop accepts exactly distinct, owned, well-typed, valid updates |
| Points.OverlaidMeaning | communicate/src/points.rs:296-311 | a batch with distinct names stores each of its updates, a Good one with exactly its value and any other as zero, and touches nothing else |
| Points.StoreAll | communicate/src/points.rs:296-311 | the storing loop applies the batch update by update and replaces exactly the named samples |
| Points.InitialMeaning | communicate/src/points.rs:134-159 | the last entry that names a task decides its first quality |
| Points.UnnamedWaits | communicate/src/points.rs:160-183 | points of a task that no entry names wait for configuration |
| Points.PointStore.constructor | communicate/src/points.rs:129-191 | every point starts at zero with the quality its task's configuration gives, never Good; each task lists its points in configuration order |
| Points.PointStore.ListTasks | communicate/src/points.rs:134-159 | the configuration loops give each task its initial quality, the last entry winning |
| Points.PointStore.DefinePoints | communicate/src/points.rs:160-183 | the definition loop records each point, lists it with its task and gives it its first sample |
| Points.PointStore.Read | communicate/src/points.rs:196-204 | a non-Good sample shows its type's zero |
| Points.PointStore.Publish | communicate/src/points.rs:268-320 | all or nothing; an accepted batch gives each point of the task its update, a Good one with exactly its value, and touches no other |
| Points.PointStore.Fail | communicate/src/points.rs:321-347 | the task's points turn to zero with the failure's quality, times stay |
| SendSchedule.Schedule.constructor | communicate/src/synchronization.rs:436-445 | first send after the initial delay |
| SendSchedule.Schedule.Received | communicate/src/synchronization.rs:446-453 | a partial frame's deadline runs from its first byte |
| SendSchedule.Schedule.DiscardPartial | communicate/src/synchronization.rs:458-460 | forgets the partial frame |
| SendSchedule.Schedule.SentOrSkipped | communicate/src/synchronization.rs:466-468 | the next slot is one period after completion |
| StreamModel.PartialTracksBuffer | communicate/src/synchronization.rs:446-460 | in every run the partial time is set exactly when undecoded bytes are buffered |
| StreamModel.PartialClock | communicate/src/synchronization.rs:446-460 | over every run the partial time is that of the turn in which the undecoded bytes began, and a partial frame never outlives the frame timeout |
| StreamModel.PartialKept | communicate/src/synchronization.rs:588-626 | before the frame timeout nothing is given up |
| StreamModel.DecodedCarried | communicate/src/synchronization.rs:503-626 | every payload decoded in a turn was carried, in a genuine frame, by the bytes buffered and read |
| StreamModel.HearsWhole | communicate/src/synchronization.rs:501-572 | however bytes arrive over the turns, as long as no partial frame expires they are scanned as one stream |
| StreamModel.PeerHeard | communicate/src/synchronization.rs:501-572 | what the peer sends as encoded frames is decoded over the turns to exactly its payloads, in order, with nothing left over |
| StreamModel.ExpiredRecovers | communicate/src/synchronization.rs:588-626 | a genuine frame at the front of an expired buffer is not lost |
| StreamModel.LostExactly | communicate/src/synchronization.rs:503-586 | a connection is lost by a failed read or one that reports no bytes or more than the buffer holds |
| StreamModel.SendsDisciplined | communicate/src/synchronization.rs:501-656 | over every run nothing is sent while peer bytes are undecoded or within the idle gap of any byte heard, sends are a period after the previous completion, payloads are complete and fresh and their frames decode to them |
| StreamModel.TransmissionExactly | communicate/src/synchronization.rs:638-656 | with the validated capacities a payload goes out exactly when the slot is due, nothing undecoded is buffered, the line has been idle for the gap, and the mailbox has complete and fresh inputs |
| StreamModel.SlotMoves | communicate/src/synchronization.rs:461-472 | a slot is used up, sent or not, exactly when it is due and the line is free |
| StreamModel.TakeMeaning | communicate/src/synchronization.rs:519-555 | a complete matching batch is stored whole and touches nothing else, an ignored payload changes nothing, anything else turns the task's points to zero and out of Good |
| StreamModel.OnlyRefreshExtends | communicate/src/synchronization.rs:519-555 | the liveness time moves only when a payload refreshes, and then to that turn's time |
| StreamModel.QuietTurnKeeps | communicate/src/synchronization.rs:501-637 | a turn that decodes nothing but ignored payloads within the receive timeout leaves everything shown as it was |
| StreamModel.DecodedIsShown | communicate/src/synchronization.rs:519-637 | a turn shows the last payload it decodes, from the read or an expired buffer, if that refreshes the task |
| StreamModel.SilenceFails | communicate/src/synchronization.rs:627-637 | silence for the receive timeout takes every point of the task out of Good |
| StreamModel.GoodTracksLiveness | communicate/src/synchronization.rs:501-637 | after every completed turn a Good point implies that the points show a whole batch decoded from the peer's bytes within the receive timeout |
| StreamWorker.Worker.constructor | communicate/src/synchronization.rs:482-500 | a connection starts with nothing buffered and the clock of liveness running |
| StreamWorker.Worker.FailTask | communicate/src/points.rs:321-347 | failing the task changes exactly its listed points |
| StreamWorker.Worker.DeliverOne | communicate/src/synchronization.rs:520-555 | the store and the liveness record change exactly as the payload's response demands |
| StreamWorker.Worker.Deliver | communicate/src/synchronization.rs:519-555 | the delivery loop does so payload by payload |
| StreamWorker.Worker.Receive | communicate/src/synchronization.rs:503-572 | a read leaves the undecoded rest buffered, starts the partial deadline at its first byte and delivers what was decoded to the store |
| StreamWorker.Worker.Expire | communicate/src/synchronization.rs:588-626 | an expired partial frame is searched, its verified frames delivered, and the buffer and partial time cleared |
| StreamWorker.Worker.CheckLiveness | communicate/src/synchronization.rs:627-637 | silence for the receive timeout fails the points, once |
| StreamWorker.Worker.Transmit | communicate/src/synchronization.rs:638-656 | sends exactly what the turn determines and moves the next slot one period after completion |
| StreamWorker.Worker.Pass | communicate/src/synchronization.rs:501-656 | buffer, partial time, store, liveness record, schedule and transmission after a turn are functions of the state before and the turn; a failed read changes nothing |
| StreamWorker.Worker.RunTurns | communicate/src/synchronization.rs:501-656 | after any number of turns they are functions of the start and the turns, and the loop ends only on a failed read or write |
| StreamWorker.Worker.RunStream | communicate/src/synchronization.rs:475-658 | so over any connection the transmit discipline holds for everything sent and liveness after every completed turn |
| Utf8.AsciiEndsChar | src/operations/files.rs:1400-1417 | a single-byte character is a character wherever it occurs in valid text |
| Utf8.CompleteEndIsFloor | src/operations/files.rs:1400-1417 | the backward scan finds the last character boundary of a cut valid text |
| Utf8.CutValid | src/operations/files.rs:1400-1417 | a cut of four bytes or more keeps at least one character and ends on a boundary |
| Utf8.ValidEncodes | src/operations/files.rs:1400-1417 | valid text encodes a sequence of Unicode scalar values |
| Utf8.EncodingValid | src/operations/files.rs:1400-1417 | and every such encoding is valid |
| LogFilter.MatchesMeaning | src/operations/files.rs:1450-1476 | a line is selected if and only if the text between its first bracket after a blank and the next closing one, trimmed, is the level asked for, and the keyword occurs in it; a filter not asked for selects everything |
| LogFilter.PermittedExactly | src/operations/files.rs:1187-1197 | the levels a request may name and the longest keyword |
| LogFilter.LevelMeaning | src/operations/files.rs:1450-1457 | the level half of that |
| LogFilter.TrimMeaning | src/operations/files.rs:1450-1457 | trimming yields a text exactly when it is bare and stands between two stretches of Unicode white space |
| LogPaging.LinesTile | src/operations/files.rs:1459-1490 | the lines make up the file, and only their last bytes are newlines |
| LogPaging.BoundedTextValid | src/operations/files.rs:1419-1448 | on valid text the cut loses nothing, keeps the limit and makes progress |
| LogPaging.FilterLogPage | src/operations/files.rs:1459-1490 | output and what remains make up what was asked for, the lines that have the level and the keyword, within the limit and with progress |
| LogPaging.ReadLinePrefix | src/operations/files.rs:1353-1396 | yields exactly the earlier part of the line, or refuses exactly when its start is out of reach |
| LogPaging.SelectWindow | src/operations/files.rs:1233-1263 | the window runs from the offset to a line end |
| LogPaging.ReadLog | src/operations/files.rs:1170-1331 | a page of such lines keeps the limit, advances, ends between characters, and page plus remainder is the remainder before; an unknown level or an over-long keyword is refused |
| LogPaging.ReadWhole | src/operations/files.rs:1170-1331 | following the offsets from 0 with any limits ends and concatenates to exactly the lines that have the level and the keyword |
| LogPaging.RemainingIsMatching | src/operations/files.rs:1459-1490 | what remains at offset 0 is the concatenation of the lines that have the level and the keyword |
| LogPaging.RemainingWindow | src/operations/files.rs:1233-1263 | a window that ends at a line end splits what remains |
| BitExtraction.ExtractedExactly | src/protocol.rs:174-247 | a supported record yields a value exactly when the bounds check accepts it and its end is below the 32-bit bit count |
| BitExtraction.CheckIsExact | src/csv_parser.rs:143-189 | below 2^29 bytes extraction succeeds exactly when the check accepts |
| BitExtraction.CheckTooLenientOnHugeFrames | src/csv_parser.rs:143-189 | at 2^29 bytes an accepted record is skipped |
| BitExtraction.PacketCheckIsExact | src/protocol.rs:151-170 | on every packet that is accepted extraction and check agree, because its status area has at most 256 bytes |
| BitExtraction.PacketExactly | src/protocol.rs:151-170 | a packet is accepted exactly when it is as long as it says and its last byte is the sum of the rest |
| BitExtraction.CombineBound | src/protocol.rs:216-224 | the accumulator never leaves 40 bits |
| BitExtraction.CombineBits | src/protocol.rs:216-224 | each accumulator bit is the bit of the byte it came from, in both byte orders |
| BitExtraction.FieldMeaning | src/protocol.rs:195-233 | bit j of the value is the record's bit start + j, or its big-endian counterpart, and no other bits are set |
| BitExtraction.FieldDetermined | src/protocol.rs:195-233 | no other number has those bits, so the meaning fixes the value |
| BitExtraction.SingleMeaning | src/protocol.rs:188-194 | a single bit reads as 0 or 1 |
| BitExtraction.SingleReading | src/protocol.rs:188-247 | a single-bit record reads the named bit of its byte, as its kind shows it |
| BitExtraction.RangeReading | src/protocol.rs:195-247 | a range reads the number whose bits are the record's bits and no others, as its kind shows it |
| BitExtraction.CombineSpan | src/protocol.rs:216-224 | the byte loop computes the accumulator |
| BitExtraction.ReadingsLastWins | src/protocol.rs:174-247 | a name shows the reading of the last record that has one, and is present exactly if some record has one |
| BitExtraction.ParseStatus | src/protocol.rs:174-247 | the record loop computes exactly those readings |

## Left out

- Journal: error texts, timestamps, JSON, the reader thread and its timeouts. The journal key is a pair because its parts contain no NUL. Revisions of the journal are unbounded. `begin` may report an error after reserving when its final read fails; the model counts the reservation. A worker's change is assumed to keep the command's identity, content hash and boot. The snapshot that `begin` and `get` return is not modelled, only the answer.
- JournalTheorems.AdmittedAtMostOnce: scoped to one process and its readable startup inventory, because the code promises nothing across an unreadable inventory or rows pruned before a restart.
- Journal interleavings: the state machine allows some steps at more moments than the program does, so its theorems cover more runs.
- Fence: file formats and checks of the record; whether loading succeeds is arbitrary.
- FenceProtocol.DrainStaysDrained: takes from src/operations/mod.rs:575-587 and src/operations/mod.rs:1264-1292, not from the fence itself, that a port becomes busy only under an admission.
- Formula engine: error texts. Float literals are compared by their text.
- Engine.OutcomeMeaning: conversion between float widths and to integers is left to the arithmetic functions.
- Printer: trees with negative literals, which no text denotes.
- UnitReport: field names are an enumeration, not text; several ports in one mailbox collection are several slots.
- UnitReport.WriteField: works on values, so aliasing of the payload buffer is not modelled.
- Points: error texts and per-port counters.
- StreamWorker: threads, cancellation inside a write, partially written frames, and the log throttle of frame errors. The supervisor's failing of points between connections is a precondition of `RunStream`. The mailbox and the peer may do anything between two turns.
- LogPaging: the tail mode, log generations, files that change while they are read, malformed UTF-8 and lines longer than one scan. The level of a request is taken after it was trimmed and put in upper case.
- BitExtraction: the text form of bit indexes, and the division of a float reading by 100.
- Other parts of the repository: configuration editing, backups, OPC UA servers, serial drivers, request polling, command pacing, version queries, HTTP log push, path resolution and the tooling in other languages.
