# JSLab: models of its algorithms and protocols, with proofs

JSLab runs JavaScript on several engines behind a gateway, traces specification algorithms in a sandboxed worker,
and shows outputs with diffs and annotations. This project models the parts whose correctness rests on
interleavings, numbering, scanning or byte arithmetic, and proves what they are for. `dafny verify dfyconfig.toml`
checks everything.

Protocols are written twice: as a datatype state with one pure `Step` per event, over which the theorems about every
run are proved, and as a class whose methods update fields the way the source does and are proved to take exactly
that step. One-pass algorithms are methods with loops, proved against specification functions whose meaning is
proved beside them.

## Components

- **Trace sandbox** (`Sandbox.dfy`, `SandboxProofs.dfy`, `TraceSandbox.dfy`). The scheduler of
  `apps/trace-service/src/server/execute/sandbox.ts`: a worker, a ready handshake, a bounded queue, deadlines, stale
  events and close. Workers are numbered by spawn, promises by call, timers by task id. Events come in any order and
  may name recycled workers, old task ids and cleared timers; the clock is arbitrary, not even monotonic. `Inv` holds
  in every reachable state; from it follow one place per promise, at most one settlement, resolution with a value if
  and only if the worker holding the task replied it (`ResolvedIffReplied`), the answer every other event gives,
  progress by a strictly falling measure, FIFO order and exact deadlines.
- **Operator detection and meaning** (`OperatorScan.dfy`, `OperatorTrees.dfy`, `OperatorReading.dfy`,
  `OperatorTreeProofs.dfy`, `OperatorRoots.dfy`, `OperatorPositions.dfy`, `OperatorSemantics.dfy`,
  `BinaryExpression.dfy`). `detectOperator` is proved against a lexer that reads one character at a time, for every
  input string. Expressions are built by the grammar of ECMA-262, sections 13.8 to 13.11, over literals, regexes,
  groups, signs, keywords and products, with division signs and regex literals anywhere inside brackets. For every one
  of them `RootFoundIffSeen` says exactly when the answer is the root: its plus sign is not missed, and each side,
  read **alone**, lets it through (the left one closes and shows nothing looser, the right one nothing as loose). What
  can go wrong is then a matter of single operands. An operand is *sealed* when the scanner, reading it alone, comes
  out of it without an operator, and sealed operands are exactly those that never cost an expression its root
  (`SealedIffHarmless`). An operand is sealed when no slash in it is taken for the other kind (`ReadIsSealed`); with a
  single slash that is the only way (`OneSlashDecides`), with more a misread one may be harmless (`LuckyDivision`).
  Over sealed operands a root is lost only when it is a plus sign behind a regex without flags or a name such as `_e`.
  `LostPlusSigns`, `LostBehindDivision` and `LostBehindReturn` are the failing inputs. Behind which texts an operand
  is due at all, which is what tells a regex from a division, is stated token by token in `OperatorPositions.dfy`. The
  dispatch table then computes what ECMA-262 says the comparison means, with operand conversions in the right order,
  for objects whose conversion runs user code that may depend on history or throw.
- **Run path** (`Flags.dfy`, `RunPath.dfy`, `RunPathProofs.dfy`, `RunRoute.dfy`). `POST /api/run` between awaits, in
  any number of gateway processes with one shared cache, on top of the flag sanitizer, for any flag caps of gateway
  and engines. Engines may reply anything: what each reply earns is a table (`RepliesEarn`), and every response is
  what an actual reply earned, with its own request's drops put in (`ResponsesAreRealRuns`). Behind engines that
  report their own drops, a response reports exactly its request's, unless that has none and its engine takes some
  flags but fewer than the gateway sent (`OwnDropsIffNotNarrow`); `NarrowEngineShows` is a run where it does not. The
  sanitizer is a fixpoint of itself under any later cap that is enough; `UnsortedMayChange` shows the gateway's sort
  is needed too.
- **Trace tree** (`TraceTree.dfy`, `TraceTreeProofs.dfy`). Two traversals with separate counters number one tree
  alike, and neither misses a step; every node of the second is one invocation, with the action its steps decide.
- **Annotations and rows** (`Annotations.dfy`, `Rows.dfy`). Which fields make which rule, greedy choice of spans, a
  sweep with one cursor, and the cutting of tokens. The sweep equals the naive overlap filter if and only if no
  annotation reaches into two rows, and what it hands a row always renders without loss. What an accepted rule
  highlights holds no line feed, so over rows that line feeds set apart none does (`ShownSweepIsFilter`).
- **Diff** (`Diff.dfy`). Rows rebuilt from an edit script, numbered as they are shown, and their React keys: two rows
  collide exactly when both are blank, so filling blank rows makes keys distinct. The filled rows, plain or merged,
  are set apart by line feeds, so each gets exactly its annotations (`RowsGetTheirAnnotations`).
- **Tokenizer** (`Tokenize.dfy`, `TokenKinds.dfy`). Termination despite regex backtracking, tokens that tile the
  source, and texts that fit their kinds.
- **Output budget** (`Utf8.dfy`, `OutputBudget.dfy`, `RunCommand.dfy`). Byte accounting over two streams, the fair
  split, and what a cut does to UTF-8 (RFC 3629): on any bytes the text is a prefix of the full text, on valid text
  the longest one in whole characters.
- **base64url** (`Base64.dfy`). The link codec over RFC 4648, sections 4 and 5, and the forgiving decoder of the HTML
  standard: round trip for all bytes, and exactly which strings the encoder can produce.
- **Rate limit** (`RateLimit.dfy`). Fixed windows in Redis with the key's stamp and the transaction at different
  times, every request counted for the window it was stamped for. A window's requests are *timely* when they run
  within one window length of the first; a request run inside its own window always is. A window stays within its
  limit if and only if its requests are timely, or no more than the limit anyway, or the limit is zero
  (`WindowLimitIffTimely`). Timely windows admit exactly their first `limit` requests (`FixedWindowLimit`); late ones
  admit more, for every limit (`LateRequestExceedsLimit`), and late but timely ones three times the limit in a stretch
  as long as a window (`LateRequestsCrowd`).
- **API keys** (`ApiKeys.dfy`). Issuance as two transactions, interleaved with anything. The comment at
  `apps/api/src/apiKeys.ts:80-83` says a concurrent issuance cannot race past the limit; the check and the write are
  separate transactions, so it can, by exactly the number of issuances under way minus one (`OwnerLimit`, met for
  every limit by `ConcurrentIssuesMeetLimit`). A key's index score counts from the request's stamp and its record's
  life from the write, so a delay between them lets a key outlive its slot: all live keys are bounded by that limit
  plus the issuances that were under way one lifetime ago (`LiveLimit`), with no delay by the limit alone
  (`UndelayedLimit`), and whatever the limit and the delay one more key is reached (`DelayedWriteOverlaps`): issuing
  one key at a time keeps the limit if and only if no delay is tolerated (`LimitKeptIffNoDelay`). Revoking a key does
  not free its slot (`RevokedForGood`), although the message at `apps/api/src/routes/keys.ts:43` suggests it.

## Model

| member | source | states |
|---|---|---|
| SandboxProofs.StepKeeps | apps/trace-service/src/server/execute/sandbox.ts:99-244 | every event, stale or not, keeps: in flight implies a live ready worker holding that task with its timer armed, a queue implies in flight or a boot, bounded waiting, closed implies nothing left, each promise in one place |
| SandboxProofs.RunKeeps | apps/trace-service/src/server/execute/sandbox.ts:99-244 | the invariant holds after any sequence of events |
| SandboxProofs.PumpKeeps | apps/trace-service/src/server/execute/sandbox.ts:135-162 | from any state between handlers the recursive pump ends in the invariant, drops nothing silently and never raises the work left beyond what booting a worker adds |
| SandboxProofs.FailureKeeps | apps/trace-service/src/server/execute/sandbox.ts:194-216 | a worker's failure, before or after ready, leaves no task without a worker or an answer |
| SandboxProofs.CloseKeeps | apps/trace-service/src/server/execute/sandbox.ts:122-133 | close keeps the invariant and leaves the closed flag up |
| SandboxProofs.EachPromiseInOnePlace | apps/trace-service/src/server/execute/sandbox.ts:103-244 | in every run each promise handed out is in exactly one of: settled, queued, in flight |
| SandboxProofs.SettledAtMostOnce | apps/trace-service/src/server/execute/sandbox.ts:103-244 | no promise is settled twice, and none while its task still waits or runs |
| SandboxProofs.StepSettles | apps/trace-service/src/server/execute/sandbox.ts:180-234 | an event only adds settlements, and one that resolves is a reply from the worker holding that task, with the value replied |
| SandboxProofs.ResolvedOnlyByHolder | apps/trace-service/src/server/execute/sandbox.ts:180-192 | whatever a run resolved a promise with, some reply event carried it, from the worker then holding that very task under that id |
| SandboxProofs.ResolvedIffReplied | apps/trace-service/src/server/execute/sandbox.ts:187-192 | in every run a promise is resolved with a value if and only if the worker holding its task replied with that value |
| SandboxProofs.ReplyAnswers | apps/trace-service/src/server/execute/sandbox.ts:187-192 | a reply from the holder resolves the promise with its value, or rejects it with its error, at once, and keeps the worker |
| SandboxProofs.TimerAnswers | apps/trace-service/src/server/execute/sandbox.ts:218-225 | a due timer rejects its task with the budget and ends the worker |
| SandboxProofs.FailureAnswers | apps/trace-service/src/server/execute/sandbox.ts:194-216 | a failing worker is ended; a ready one costs the task it holds and no other, a booting one every task that waited, oldest first |
| SandboxProofs.CloseAnswers | apps/trace-service/src/server/execute/sandbox.ts:122-133 | close rejects everything outstanding, the queue first, and ends the worker |
| SandboxProofs.StaleIsIgnored | apps/trace-service/src/server/execute/sandbox.ts:180-228 | events of terminated workers, of timers not armed and of tasks not in flight change nothing |
| SandboxProofs.ExpiredIsTold | apps/trace-service/src/server/execute/sandbox.ts:135-162 | in every run tasks are posted or expire at readings of the clock, and one that expires is answered with the budget |
| SandboxProofs.EffectiveEventsProgress | apps/trace-service/src/server/execute/sandbox.ts:135-225 | 2·unsettled + booting never rises but by new calls or warm-ups, and strictly falls on every effective ready, reply, failure or timer |
| SandboxProofs.AllSettledEventually | apps/trace-service/src/server/execute/sandbox.ts:99-225 | with no new calls, warm-ups or not, 2k + 1 effective events settle all k outstanding tasks |
| SandboxProofs.WarmUpIsIdle | apps/trace-service/src/server/execute/sandbox.ts:99-101 | a warm-up settles nothing, changes nothing while a task is outstanding, and leaves an open sandbox with a worker |
| SandboxProofs.NeverStuck | apps/trace-service/src/server/execute/sandbox.ts:135-178 | while anything is outstanding an effective event is due: an armed timer or the end of a boot |
| SandboxProofs.ClosedForGood | apps/trace-service/src/server/execute/sandbox.ts:122-133 | after close, whatever happens, there is no worker, task or timer and none is spawned |
| SandboxProofs.AcceptedIffRoom | apps/trace-service/src/server/execute/sandbox.ts:103-120 | a call is queued with its deadline exactly when open and at most maxQueueDepth are unsettled; otherwise its promise is rejected at once and nothing else changes |
| SandboxProofs.FifoAndDeadlines | apps/trace-service/src/server/execute/sandbox.ts:112-162 | tasks leave the queue in acceptance order, are posted only with time left on a timer due at their enqueue-time deadline, and an expired task is never posted |
| TraceSandbox.TraceSandbox.constructor | apps/trace-service/src/server/execute/sandbox.ts:72-92 | starts with no worker, an empty queue and the flag down |
| TraceSandbox.TraceSandbox.Warm | apps/trace-service/src/server/execute/sandbox.ts:99-101 | takes the warm step |
| TraceSandbox.TraceSandbox.Run | apps/trace-service/src/server/execute/sandbox.ts:103-120 | takes the run step and returns the promise of this call |
| TraceSandbox.TraceSandbox.Close | apps/trace-service/src/server/execute/sandbox.ts:122-133 | takes the close step |
| TraceSandbox.TraceSandbox.Pump | apps/trace-service/src/server/execute/sandbox.ts:135-162 | the recursion in place, expiring heads and posting one task |
| TraceSandbox.TraceSandbox.EnsureWorker | apps/trace-service/src/server/execute/sandbox.ts:164-178 | spawns only when there is none and then is not ready |
| TraceSandbox.TraceSandbox.OnReady | apps/trace-service/src/server/execute/sandbox.ts:180-186 | takes the ready step, nothing when stale |
| TraceSandbox.TraceSandbox.OnReply | apps/trace-service/src/server/execute/sandbox.ts:187-192 | takes the reply step, nothing when stale |
| TraceSandbox.TraceSandbox.OnWorkerFailure | apps/trace-service/src/server/execute/sandbox.ts:194-216 | takes the failure step, nothing when stale |
| TraceSandbox.TraceSandbox.OnBudgetExceeded | apps/trace-service/src/server/execute/sandbox.ts:218-225 | takes the timer step, nothing when stale |
| TraceSandbox.TraceSandbox.SettleInFlight | apps/trace-service/src/server/execute/sandbox.ts:227-234 | takes the task in flight only if its id matches, and clears its timer |
| TraceSandbox.TraceSandbox.Recycle | apps/trace-service/src/server/execute/sandbox.ts:236-244 | forgets the worker, which is terminated |
| OperatorScan.DetectOperator | apps/trace-service/src/server/execute/parse.ts:92-168 | for every string the scan ends and its answer is the last depth-0 operator of the loosest class that the character lexer sees, or none |
| OperatorScan.RootIsUnique | apps/trace-service/src/server/execute/parse.ts:167 | the lexer leaves one possible answer for each input |
| OperatorScan.HitSplitsInput | apps/trace-service/src/server/execute/index.ts:169-170 | left text, operator and right text rebuild the input |
| OperatorScan.IsUnaryPosition | apps/trace-service/src/server/execute/parse.ts:38-64 | the backward scan decides whether an operand is due, by punctuation, exponent mark or keyword |
| OperatorScan.InExponent | apps/trace-service/src/server/execute/parse.ts:46-57 | the exponent test in place, both digit loops |
| OperatorScan.EndsUnaryWord | apps/trace-service/src/server/execute/parse.ts:59-63 | the keyword test in place |
| OperatorScan.SkipRegexLiteral | apps/trace-service/src/server/execute/parse.ts:71-90 | everything jumped over is regex literal to the lexer, and the jump ends behind its flags |
| OperatorPositions.DueBehindPunctuation | apps/trace-service/src/server/execute/parse.ts:38-43 | behind punctuation, and any space, an operand is due if and only if that is an operator, an opening bracket or a separator: not behind a closing bracket, a quote or a full stop |
| OperatorPositions.DueBehindWord | apps/trace-service/src/server/execute/parse.ts:25-63 | behind a word, if and only if it is one of the eight keywords that take an operand, or is spelled like a number awaiting its exponent |
| OperatorPositions.DueBehindFraction | apps/trace-service/src/server/execute/parse.ts:45-63 | behind a full stop and a word, if and only if the word is such a keyword or the two end a number awaiting its exponent |
| OperatorPositions.DueAtStart | apps/trace-service/src/server/execute/parse.ts:38-41 | with nothing before it an operand is due |
| OperatorPositions.RegexIsRead | apps/trace-service/src/server/execute/parse.ts:119-122 | within brackets a regex literal behind such punctuation, such a keyword or nothing is always read as a regex literal |
| OperatorPositions.FoundBehindComma | apps/trace-service/src/server/execute/parse.ts:119-122 | `(1, /(/) == 2` is answered with its equality |
| OperatorPositions.StringIsPassed | apps/trace-service/src/server/execute/parse.ts:105-118 | a string or template literal is passed over whole, whatever is in it |
| OperatorPositions.BracketsNest | apps/trace-service/src/server/execute/parse.ts:123-132 | the three kinds of brackets, and nothing else, change the depth |
| OperatorPositions.ArrowIsPassed | apps/trace-service/src/server/execute/parse.ts:134-138 | neither character of an arrow is an operator |
| OperatorPositions.IncrementIsNoPlus | apps/trace-service/src/server/execute/parse.ts:155-162 | neither sign of an increment is a plus |
| OperatorReading.PositionIsLocal | apps/trace-service/src/server/execute/parse.ts:38-64 | whether an operand is due inside a text that starts where one is due depends on that text alone |
| OperatorReading.LexingIsLocal | apps/trace-service/src/server/execute/parse.ts:92-168 | such a text is read in context exactly as it is read alone, modes and operators |
| OperatorTreeProofs.OperandScan | apps/trace-service/src/server/execute/parse.ts:92-168 | an operand none of whose slashes is taken for the other kind, at any nesting, contributes no operator, and the scanner is back in code behind it |
| OperatorTreeProofs.AfterOperand | apps/trace-service/src/server/execute/parse.ts:38-64 | behind an operand the scanner expects another one if and only if the operand is misread |
| OperatorRoots.TreeScan | apps/trace-service/src/server/execute/parse.ts:92-168 | wherever an expression of sealed operands stands, its operators bind as the grammar says and its root is as found |
| OperatorRoots.NodeHits | apps/trace-service/src/server/execute/parse.ts:92-168 | the operators seen in any expression are its left side's, its own and its right side's, each side read alone, or none past a left side that does not close |
| OperatorRoots.ScannerFindsRoot | apps/trace-service/src/server/execute/parse.ts:92-168 | the exact answer on every expression of sealed operands |
| OperatorRoots.RootFoundIffSeen | apps/trace-service/src/server/execute/parse.ts:92-168 | for every expression, slashes misread or not, the answer is the root operator if and only if the root shows |
| OperatorRoots.RootFoundIffNotMissed | apps/trace-service/src/server/execute/parse.ts:23-64 | where no slash is taken for the other kind, the answer is the root if and only if that is not a plus sign behind a flagless regex or an exponent-like name |
| OperatorRoots.SealedSeenIffNotMissed | apps/trace-service/src/server/execute/parse.ts:38-64 | the same for sealed operands |
| OperatorRoots.ReadIsSealed | apps/trace-service/src/server/execute/parse.ts:71-90 | an operand none of whose slashes is taken for the other kind is sealed |
| OperatorRoots.SealedIffHarmless | apps/trace-service/src/server/execute/parse.ts:92-168 | an operand is sealed if and only if no expression loses its root by it |
| OperatorRoots.OneSlashDecides | apps/trace-service/src/server/execute/parse.ts:119-122 | an operand whose one slash is a division is sealed if and only if the scanner expects no operand there |
| OperatorRoots.UnclosedSlash | apps/trace-service/src/server/execute/parse.ts:71-90 | a slash taken for a regex with no slash behind it hides everything to the end |
| OperatorRoots.LostPlusSigns | apps/trace-service/src/server/execute/parse.ts:43-57 | `/a/ + 1` and `_e + 1` are reported to have no operator |
| OperatorRoots.LostBehindDivision | apps/trace-service/src/server/execute/parse.ts:46-57 | `(_e / 2) == 1` is reported to have no operator |
| OperatorRoots.LostBehindReturn | apps/trace-service/src/server/execute/parse.ts:25-34 | `{f(){return/(/}} == 1` is reported to have no operator |
| OperatorRoots.LuckyDivision | apps/trace-service/src/server/execute/parse.ts:71-90 | `(_e / 2 / 3)` has a misread slash and is sealed all the same |
| OperatorSemantics.DispatchMeansRelation | apps/trace-service/src/server/operations.ts:229-307 | for all values the swap, LeftFirst and transform of each relational operator give its ECMA-262 result, throws and left-to-right conversions |
| OperatorSemantics.DispatchMeansEquality | apps/trace-service/src/server/operations.ts:247-276 | the same for the four equality operators |
| OperatorSemantics.LooseEqualityIsSymmetric | apps/trace-service/src/server/operations.ts:147-148 | handing the operands over left first, where ECMA-262 section 13.11.1 passes them right first, changes neither result nor effects |
| OperatorSemantics.LooseEqualityMeans | apps/trace-service/src/server/operations.ts:147-148 | loose equality goes by type, null and undefined, numbers and BigInts as said, and converts an object once, only against a primitive that is neither null nor undefined |
| OperatorSemantics.StrictEqualityMeans | apps/trace-service/src/server/operations.ts:158-167 | strict equality is loose equality of two values of one type |
| OperatorSemantics.PrimLessIsBefore | apps/trace-service/src/server/operations.ts:181-182 | less-than on primitives, both ways round, agrees with one order of strings, numbers and BigInts that NaN is outside of |
| OperatorSemantics.StringLessIsBefore | apps/trace-service/src/server/operations.ts:181-182 | the string comparison is the three-way lexicographic order, total on strings |
| BinaryExpression.ExecuteBinaryExpression | apps/trace-service/src/server/execute/index.ts:146-221 | the answer is what the detected root operator means on the two trimmed sides, left evaluated first, with each error case |
| BinaryExpression.ExpressionMeansRoot | apps/trace-service/src/server/execute/index.ts:158-220 | an expression is split at its root into exactly its two operands when the root shows, and never there when it does not |
| BinaryExpression.ExpressionAnswered | apps/trace-service/src/server/execute/index.ts:158-220 | an expression whose root shows has its left side evaluated first and its right side next, and is answered with what its operator means on the two values or with the first side that failed |
| BinaryExpression.MissingIffBlank | apps/trace-service/src/server/execute/index.ts:169-176 | an operand is reported missing if and only if there is nothing but space on a side |
| Flags.SanitizeFlags | packages/engine-runtime/src/flags.ts:289-362 | the loop, sort and filter compute the specification's accepted and dropped lists |
| Flags.AcceptedIsClean | packages/engine-runtime/src/flags.ts:313-352 | accepted flags are trimmed, catalogued with a value that fits, distinct by name, within the cap, and their names are those seen |
| Flags.SanitizedAreFirst | packages/engine-runtime/src/flags.ts:313-354 | what reaches the engine is, of the entries before the cap, the first of each name that is a catalogued flag with a value its pattern accepts if and only if it takes one; trimmed, in list order or sorted |
| Flags.AcceptedAreFirst | packages/engine-runtime/src/flags.ts:313-352 | the same of the list before sorting |
| Flags.DroppedAreUnmet | packages/engine-runtime/src/flags.ts:297-361 | what is reported, before the cap, is in list order each entry with a text whose name reached the engine nowhere |
| Flags.ForgivingLeavesDropped | packages/engine-runtime/src/flags.ts:297-307 | collecting rejects and forgiving accepted names afterwards leaves exactly the entries whose name never reached the engine |
| Flags.CleanIsAccepted | packages/engine-runtime/src/flags.ts:313-352 | a clean list within the cap is accepted whole, in order |
| Flags.CleanIsKept | packages/engine-runtime/src/flags.ts:313-361 | a clean list within the cap comes out whole, sorted and without drops |
| Flags.SanitizingTwiceIsOnce | packages/engine-runtime/src/flags.ts:289-362 | the sanitizer's sorted output passes any later sanitizer with at least that cap unchanged and without drops, in either sort mode |
| Flags.LaterDropsIffNarrow | packages/engine-runtime/src/flags.ts:289-362 | a later sanitizer drops some of the sorted output if and only if its cap is positive and too small |
| Flags.UnsortedMayChange | packages/engine-runtime/src/flags.ts:354 | without the first sort a sorting engine would reorder the list |
| Flags.EveryEntryAccounted | packages/engine-runtime/src/flags.ts:355-361 | each non-blank entry's name is accepted or its text is in the ordered reject list, never both, and the report is that list cut to the cap |
| RunPathProofs.StepKeeps | apps/api/src/routes/run.ts:151-220 | each segment between awaits, of any request in any process, keeps the invariant of map, calls, cache and requests |
| RunPathProofs.RunKeeps | apps/api/src/routes/run.ts:151-220 | the invariant holds in every interleaving |
| RunPathProofs.OneCallPerKey | apps/api/src/routes/run.ts:193-204 | a process has at most one outstanding engine call per key, and the map points to it |
| RunPathProofs.InFlightIffLed | apps/api/src/routes/run.ts:194-204 | the map holds a key exactly while one request of that process leads a call for it |
| RunPathProofs.RepliesEarn | apps/api/src/routes/run.ts:82-149 | what each kind of reply earns: 408 becomes 504 and 400 stays, both with the engine's own body and cached as failures; other failures are 502, a busy engine 429, neither cached; a success is 200 with its own content, the request's engine and no cache hit |
| RunPathProofs.SettledByReply | apps/api/src/routes/run.ts:82-149 | every settled call got one reply of its engine and has what that reply earns |
| RunPathProofs.ResponsesAreRealRuns | apps/api/src/routes/run.ts:166-219 | whatever the engines reply, every response of a leader, follower or cache hit has the status of an actual call with the same engine, source, flags and timeout bucket, and that call's body with the request's own drops put in, but for duration and cache flag; status and body of the call are what the engine's reply in the run earns |
| RunPathProofs.EngineDropsIffNarrow | packages/engine-runtime/src/app.ts:237-240 | an engine drops some of what it was sent if and only if its cap is positive and smaller than that |
| RunPathProofs.OwnDropsIffNotNarrow | apps/api/src/routes/run.ts:25-28 | behind engines that report their own drops, a response reports exactly its own request's drops if and only if it has some or its engine is not too narrow |
| RunPathProofs.NarrowEngineShows | apps/api/src/routes/run.ts:25-28 | in any configuration, one request without drops of its own, to an engine whose cap is positive and smaller than its flags, is answered with drops that are not its own |
| RunPathProofs.TwoFlagsOneTaken | apps/api/src/routes/run.ts:25-28 | the case of two catalogued flags, a gateway cap of two and an engine cap of one |
| RunPathProofs.HonestCallsReport | packages/engine-runtime/src/app.ts:277-292 | while engines report their own drops, every settled call carries them |
| RunPathProofs.CacheHoldsOnlyOutcomes | apps/api/src/routes/run.ts:97-147 | only statuses 200, 400 and 504 are ever cached |
| RunPathProofs.CacheHitIffLookup | apps/api/src/routes/run.ts:170-186 | a success says it was cached if and only if it is answered on lookup |
| RunPathProofs.LeaderStoresIffCacheable | apps/api/src/routes/run.ts:205-219 | a leader writes to the cache first if and only if in production and the result is cacheable; otherwise it answers with its call's result |
| RunPathProofs.WrittenIsServed | apps/api/src/routes/run.ts:166-187 | a written result is what the next lookup of its key by any request is answered with |
| RunPathProofs.DevNeverCaches | apps/api/src/routes/run.ts:164-212 | in development nothing is ever cached |
| RunPathProofs.CallsOnlyAfterBudget | apps/api/src/routes/run.ts:187-199 | an engine is called only after the heavy budget, which only a request that missed the cache is asked for |
| RunPathProofs.ExecuteRunOk | apps/api/src/routes/run.ts:68-149 | whatever the engine replies, the cache class fixes the status, and a success is marked as fresh |
| RunPathProofs.WithDroppedKeepsCore | apps/api/src/routes/run.ts:25-28 | bodies alike but for duration and cache flag stay alike when the same drops are put in |
| RunPathProofs.ReplayKeepsCore | apps/api/src/routes/run.ts:173-183 | a replay differs from what was cached only in cacheHit and durationMs |
| RunPathProofs.SameFlagsSameDrops | packages/engine-runtime/src/app.ts:237-240 | calls with the same engine and flags have one and the same list of engine drops |
| RunRoute.RunRoute.Arrive | apps/api/src/routes/run.ts:151-164 | takes the arrival step |
| RunRoute.RunRoute.Lookup | apps/api/src/routes/run.ts:166-187 | takes the cache step |
| RunRoute.RunRoute.Proceed | apps/api/src/routes/run.ts:193-199 | follows the call in flight or leads a new one, in one synchronous segment |
| RunRoute.RunRoute.ResumeLeader | apps/api/src/routes/run.ts:200-212 | leaves the map before anything else |
| RunRoute.RunRoute.ResumeFollower | apps/api/src/routes/run.ts:195-196 | answers from the shared result |
| RunRoute.RunRoute.Store | apps/api/src/routes/run.ts:205-219 | answers once the cache write returned, written or not |
| TraceTree.FlattenTrace | apps/frontend/src/app/abstract-functions-visualizer/flatten.ts:13-41 | the walk with its shared counter yields the specification's list |
| TraceTree.Flattener.Walk | apps/frontend/src/app/abstract-functions-visualizer/flatten.ts:17-37 | one frame appends its own entries and its callees', numbered from the counter |
| TraceTree.BuildDecisionTree | apps/frontend/src/app/abstract-functions-visualizer/decision-tree.ts:31-104 | the second walk yields the specification's nodes |
| TraceTree.DecisionBuilder.WalkCall | apps/frontend/src/app/abstract-functions-visualizer/decision-tree.ts:35-100 | a node pushed first and filled in later ends up as if computed whole, numbered from the other counter |
| TraceTreeProofs.FlatIsTheTree | apps/frontend/src/app/abstract-functions-visualizer/flatten.ts:13-41 | every step is listed at its preorder place with its own number, dotted path, owning frame and call stack |
| TraceTreeProofs.FlatEntryIsStep | apps/frontend/src/app/abstract-functions-visualizer/flatten.ts:13-41 | every entry is a step of the tree |
| TraceTreeProofs.PathsAreDistinct | apps/frontend/src/app/abstract-functions-visualizer/flatten.ts:5-6 | no two entries share a path |
| TraceTreeProofs.DottedInjective | apps/frontend/src/app/abstract-functions-visualizer/flatten.ts:20 | distinct addresses are written differently |
| TraceTreeProofs.SamePrefixSameInvocation | apps/frontend/src/app/abstract-functions-visualizer/flatten.ts:18-21 | entries that share all but the last part of their path belong to one invocation |
| TraceTreeProofs.NumberingsAgree | apps/frontend/src/app/abstract-functions-visualizer/decision-tree.ts:44-98 | each test, action and non-root node of the decision tree carries the flat number of that same step, with its path, owner and depth |
| TraceTreeProofs.DecisionTreeMissesNothing | apps/frontend/src/app/abstract-functions-visualizer/decision-tree.ts:56-99 | each condition in the flat list is a test and each call a node, under the same number |
| TraceTreeProofs.NodeIsItsFrame | apps/frontend/src/app/abstract-functions-visualizer/decision-tree.ts:44-100 | every node heads one invocation, with its inputs, output and depth; its tests are that invocation's conditions in order; its action is the last return or throw, and while what stands has no text the next other step, under that step's flat number |
| TraceTreeProofs.ActionAfter | apps/frontend/src/app/abstract-functions-visualizer/decision-tree.ts:73-97 | the same of a frame's first steps: which step is its action |
| TraceTreeProofs.ActionSays | apps/frontend/src/app/abstract-functions-visualizer/decision-tree.ts:27-29 | an action shows the step's description, failing that its hint, failing that its kind, and behind an arrow what a return or throw hands back |
| TraceTreeProofs.NodesInOrder | apps/frontend/src/app/abstract-functions-visualizer/decision-tree.ts:44-100 | below the root the nodes come in the order of the flat list, each number once |
| Annotations.MadeRulesAreSound | apps/frontend/src/lib/annotations.ts:151-189 | an accepted rule's highlight is non-empty, within one line, and occurs in its match at one place only, and occurrences count from 1 |
| Annotations.MadeIffSaid | apps/frontend/src/lib/annotations.ts:151-189 | fields make a rule if and only if match and text are not blank, the highlight has one place in the match, only the text has line feeds, and the occurrence is left out, `all` or a safe number from 1; the rule is what the fields say |
| Annotations.IndexOfIsFirst | apps/frontend/src/lib/annotations.ts:219-224 | the search finds the first place at or behind the cursor |
| Annotations.FindCandidates | apps/frontend/src/lib/annotations.ts:218-241 | one rule's loop ends and lists the matches it asks for |
| Annotations.OccurrencesCover | apps/frontend/src/lib/annotations.ts:223-227 | any place a match occurs overlaps a match the loop lists |
| Annotations.CandidatesMark | apps/frontend/src/lib/annotations.ts:218-241 | a rule's candidates mark the highlight in its matches read from the left without overlap: in every one, or in the one its occurrence counts to |
| Annotations.Choose | apps/frontend/src/lib/annotations.ts:244-263 | the selection loop computes the greedy choice |
| Annotations.ChosenIsGreedy | apps/frontend/src/lib/annotations.ts:243-263 | over sorted candidates the choice stays disjoint and within 200, and settles every candidate |
| Annotations.MatchAnnotations | apps/frontend/src/lib/annotations.ts:211-265 | for sound rules the method returns the specified selection |
| Annotations.ShownIsGreedy | apps/frontend/src/lib/annotations.ts:211-265 | at most 200 in-bounds, ascending, disjoint spans, each spelling its rule's highlight; every candidate of every rule left out overlaps a shown span that starts before it or, at its place, is of no later rule, or lies behind a full list |
| Rows.AnnotationsPerRow | apps/frontend/src/components/OutputsPanel/components/codeRows.ts:23-38 | the cursor loops compute each row's swept share |
| Rows.SweepIsFilterIffNoneCrosses | apps/frontend/src/components/OutputsPanel/components/codeRows.ts:23-38 | every row gets exactly the annotations touching it if and only if none reaches into two rows |
| Rows.TouchingSharesText | apps/frontend/src/components/OutputsPanel/components/codeRows.ts:23-38 | an annotation touches a row if and only if they have a character in common |
| Rows.EachAnnotationOnce | apps/frontend/src/components/OutputsPanel/components/codeRows.ts:23-38 | an annotation touching a live row is in that row's share and in no other |
| Rows.ShownNeverCrosses | apps/frontend/src/lib/annotations.ts:151-152 | where line feeds set rows apart, nothing that accepted rules show reaches into two of them |
| Rows.ShownSweepIsFilter | apps/frontend/src/components/OutputsPanel/components/codeRows.ts:23-38 | there the sweep of what is shown gives every row exactly the annotations touching it |
| Rows.SliceRange | apps/frontend/src/components/OutputsPanel/components/annotatedTokens.tsx:27-52 | filter and map give the pieces of a range |
| Rows.RenderAnnotatedTokens | apps/frontend/src/components/OutputsPanel/components/annotatedTokens.tsx:15-88 | the loop gives plain parts and buttons alternately |
| Rows.PiecesSpell | apps/frontend/src/components/OutputsPanel/components/annotatedTokens.tsx:27-52 | the pieces of a range spell that range of the row |
| Rows.RenderingIsLossless | apps/frontend/src/components/OutputsPanel/components/annotatedTokens.tsx:65-87 | the parts of a row spell its tokens' text |
| Rows.SweptRowsAreLossless | apps/frontend/src/components/OutputsPanel/components/annotatedTokens.tsx:15-88 | a row rendered with what the sweep hands it spells its tokens' text, crossing or not |
| Rows.ButtonsSpellHighlights | apps/frontend/src/components/OutputsPanel/components/annotatedTokens.tsx:67-85 | an annotation inside its row is one button holding exactly output[start..end], its rule's highlight |
| Rows.ButtonsSpellShare | apps/frontend/src/components/OutputsPanel/components/annotatedTokens.tsx:65-86 | whatever the sweep hands a row, each annotation is one button holding exactly what the row shows of it |
| Diff.CompareOutputs | apps/frontend/src/utils/diff-bytecode.ts:34-92 | for any script meeting the library's contract no index leaves its array and the rows are those of the script's origins |
| Diff.BothSidesComplete | apps/frontend/src/utils/diff-bytecode.ts:44-86 | kept and added rows are the current lines 1..n in order, kept and removed rows the previous lines 1..m, each once |
| Diff.OriginsInRange | apps/frontend/src/utils/diff-bytecode.ts:48-86 | every origin names a line that exists |
| Diff.MergedRowsAreNumbered | apps/frontend/src/utils/diff-bytecode.ts:44-86 | every shown row is the next line of the output it comes from, whole, numbered by the rows above it: removed rows from the previous output, added and kept ones from the current; and all lines are shown |
| Diff.KeptLinesAreEqual | apps/frontend/src/utils/diff-bytecode.ts:74-86 | a kept row is a line that both outputs have |
| Diff.LineStartOffsets | apps/frontend/src/utils/diff-bytecode.ts:15-21 | the offsets behind every line break, a carriage return and line feed being one |
| Diff.BreaksBeginLines | apps/frontend/src/utils/diff-bytecode.ts:15-21 | an offset is listed if and only if it is behind a line feed, or behind a carriage return that no line feed follows |
| Diff.FillBlankRows | apps/frontend/src/utils/diff-bytecode.ts:23-32 | blank rows become one empty token at their line's offset |
| Diff.FillingKeepsText | apps/frontend/src/utils/diff-bytecode.ts:23-32 | filling leaves every row a token and its text |
| Diff.FilledRowsShow | apps/frontend/src/utils/diff-bytecode.ts:23-32 | each filled row shows its stretch of the output |
| Diff.MergedRowsShow | apps/frontend/src/utils/diff-bytecode.ts:48-86 | and each row of a diff that is not a deletion |
| Diff.TaggedKeysDiffer | apps/frontend/src/components/OutputsPanel/components/codeRows.ts:9-14 | a tagged row's key tells its kind and both line numbers |
| Diff.KeysCollideIffBlank | apps/frontend/src/components/OutputsPanel/components/codeRows.ts:9-14 | two merged rows share a key if and only if both are blank |
| Diff.FilledRowsHaveDistinctKeys | apps/frontend/src/components/OutputsPanel/components/codeRows.ts:9-14 | after filling, all row keys are distinct |
| Diff.MergedRowsAreConsecutive | apps/frontend/src/utils/diff-bytecode.ts:23-92 | the rows of a diff of filled outputs lie one behind the other, deletions aside, as the sweep needs |
| Diff.FilledRowsAreApart | apps/frontend/src/utils/diff-bytecode.ts:15-32 | line feeds set the filled rows of one output apart |
| Diff.MergedRowsAreApart | apps/frontend/src/utils/diff-bytecode.ts:23-92 | and the rows of a diff of filled outputs, deletions aside |
| Diff.RowsGetTheirAnnotations | apps/frontend/src/components/OutputsPanel/components/codeRows.ts:23-38 | from accepted rules to rows: the sweep gives every row of an output, and of a diff against another, exactly the annotations touching it |
| Tokenize.Tokenize | apps/frontend/src/app/v8-pipeline/lib/tokenize.ts:103-270 | ends on every string; tokens are non-empty slices of the source at their start, ascending and disjoint, and leave out only characters that begin no token |
| Tokenize.TokenizeTiles | apps/frontend/src/app/v8-pipeline/lib/tokenize.ts:103-270 | the same of the specification |
| TokenKinds.TokensFit | apps/frontend/src/app/v8-pipeline/lib/tokenize.ts:103-270 | every token's text fits its kind and goes as far as it can: comments and literals to their first unescaped end, numbers by radix, exponent and suffix, words, the first listed operator; a regex literal is never behind an expression, and a slash operator is, or closes nowhere in its line |
| TokenKinds.SlashIsRegexIffClosed | apps/frontend/src/app/v8-pipeline/lib/tokenize.ts:201-225 | a slash that begins no comment is a regex literal if and only if no expression may end before it and its body is closed in its line |
| TokenKinds.BeginnersAre | apps/frontend/src/app/v8-pipeline/lib/tokenize.ts:116-267 | exactly these characters begin a token |
| Tokenize.LexemeProgress | apps/frontend/src/app/v8-pipeline/lib/tokenize.ts:116-267 | each turn consumes at least a character, and skips only one that begins no token |
| Tokenize.NextLexeme | apps/frontend/src/app/v8-pipeline/lib/tokenize.ts:116-267 | one turn of the loop, in the source's order of cases |
| Tokenize.ScanRegex | apps/frontend/src/app/v8-pipeline/lib/tokenize.ts:211-225 | the regex attempt succeeds exactly when its body ends at a slash, else backtracks |
| Tokenize.ScanNumber | apps/frontend/src/app/v8-pipeline/lib/tokenize.ts:168-190 | radix prefixes, mantissa, exponent and BigInt suffix |
| Tokenize.ScanQuoted | apps/frontend/src/app/v8-pipeline/lib/tokenize.ts:143-166 | escapes are read in pairs, even past the end |
| Tokenize.ScanBlock | apps/frontend/src/app/v8-pipeline/lib/tokenize.ts:134-141 | a block comment's end, closed or not |
| Utf8.CutIsPrefix | packages/engine-runtime/src/run.ts:21-30 | any bytes cut anywhere decode to a prefix of what the whole stream decodes to |
| Utf8.AllTextIffNothingHeld | packages/engine-runtime/src/run.ts:23-30 | a stream read to its end decodes to all of its text if and only if no tail is held back |
| Utf8.CutKeepsWholeCharacters | packages/engine-runtime/src/run.ts:21-30 | valid UTF-8 cut at n bytes decodes to its first whole characters, as many as fit in n |
| Utf8.WholeCharactersIsGreatest | packages/engine-runtime/src/run.ts:21-30 | that count is the greatest whose encoding fits |
| Utf8.DecodingInverts | packages/engine-runtime/src/run.ts:28-30 | decoding inverts the encoding of RFC 3629 |
| Utf8.HeldIsTheCutCharacter | packages/engine-runtime/src/run.ts:23-27 | exactly the bytes of an incomplete last character are held back |
| OutputBudget.Split | packages/engine-runtime/src/run.ts:44-53 | shares sum to the smaller of total and budget, each stream gets at least the smaller of its length and half the budget, the odd byte being stderr's |
| OutputBudget.BudgetedIsUnique | packages/engine-runtime/src/run.ts:44-53 | the promise leaves one way to split the budget |
| OutputBudget.StepKeeps | packages/engine-runtime/src/run.ts:72-136 | chunks, timer, close and error in any order keep the accounting |
| OutputBudget.RunKeeps | packages/engine-runtime/src/run.ts:72-136 | in every run: the total is what arrived, truncated exactly when over budget, killed exactly on budget or time, and the first settling event's report says what came before it |
| OutputBudget.NothingLostWithinBudget | packages/engine-runtime/src/run.ts:39-53 | each text is a prefix of its stream's text, and within the budget it is all of it if and only if the stream does not end inside a character that wants more bytes |
| OutputBudget.ValidTextKeepsWholeCharacters | packages/engine-runtime/src/run.ts:23-53 | for valid UTF-8 each share reads as its longest whole-character prefix, and within the budget as everything |
| OutputBudget.ResultStands | packages/engine-runtime/src/run.ts:109-114 | later events never change the result |
| RunCommand.RunCommand.Count | packages/engine-runtime/src/run.ts:83-90 | adds the chunk's bytes, and over the budget marks truncation and kills |
| RunCommand.RunCommand.OnStdout | packages/engine-runtime/src/run.ts:83-92 | takes the stdout step |
| RunCommand.RunCommand.OnStderr | packages/engine-runtime/src/run.ts:83-93 | takes the stderr step |
| RunCommand.RunCommand.OnTimeout | packages/engine-runtime/src/run.ts:78-81 | takes the timer step, nothing once cleared |
| RunCommand.RunCommand.Finish | packages/engine-runtime/src/run.ts:109-114 | resolves only the first time |
| RunCommand.RunCommand.OnClose | packages/engine-runtime/src/run.ts:115-123 | takes the exit step |
| RunCommand.RunCommand.OnError | packages/engine-runtime/src/run.ts:124-134 | takes the spawn-failure step |
| Base64.BytesToBase64Url | apps/frontend/src/lib/base64url.ts:1-8 | the chunked loop encodes exactly the array's bytes, whatever its length |
| Base64.Base64UrlToBytes | apps/frontend/src/lib/base64url.ts:10-17 | fills a fresh array with the decoded bytes, or fails where atob throws |
| Base64.RoundTrip | apps/frontend/src/lib/base64url.ts:1-17 | decoding inverts encoding for every byte string |
| Base64.UrlIsSafe | apps/frontend/src/lib/base64url.ts:7 | only the alphabet of RFC 4648 section 5, and a length that is never 1 mod 4 |
| Base64.UrlSpellsSextets | apps/frontend/src/lib/base64url.ts:7 | stripping takes exactly the padding, leaving one letter per six bits |
| Base64.UrlDecodes | apps/frontend/src/lib/base64url.ts:10-13 | a url-alphabet string decodes exactly when its length is not 1 mod 4, to the bytes its letters spell |
| Base64.EncoderOutputs | apps/frontend/src/lib/base64url.ts:1-17 | of the strings that decode, re-encoding returns exactly those whose spare bits are zero |
| RateLimit.RunKeeps | apps/api/src/rateLimit.ts:26-53 | in every run, late requests included, the store holds each window's current life (start, count, expiry) and nothing else, and every request is numbered in it |
| RateLimit.RequestLogs | apps/api/src/rateLimit.ts:37-40 | the transaction goes on with the key's life, or starts one when it has none or it is over, and touches no other key |
| RateLimit.WindowLimitIffTimely | apps/api/src/rateLimit.ts:26-53 | in every run a window admits at most its limit if and only if its requests run within one window length of the first, or are no more than the limit, or the limit is zero |
| RateLimit.FixedWindowLimit | apps/api/src/rateLimit.ts:26-53 | the timely half, in full: of all requests stamped for a window exactly the first `limit` are admitted, while they run within one window length of the first |
| RateLimit.NumberedIffTimely | apps/api/src/rateLimit.ts:26-53 | in every run a window's requests are numbered in order if and only if they are timely |
| RateLimit.UntimelyStartsOver | apps/api/src/rateLimit.ts:26-53 | an untimely window counts some later request as number one, admitted unless the limit is zero |
| RateLimit.RunLimit | apps/api/src/rateLimit.ts:26-53 | in every run a window admits at most its limit per life of its counter |
| RateLimit.PromptIsTimely | apps/api/src/rateLimit.ts:26-29 | a request run inside its own window is timely |
| RateLimit.IntervalLimit | apps/api/src/rateLimit.ts:26-53 | any stretch of time admits at most the limit per window its requests were stamped for, while those are timely |
| RateLimit.PromptIntervalLimit | apps/api/src/rateLimit.ts:26-53 | a stretch as long as a window, all of whose requests ran inside their own windows, admits at most twice the limit |
| RateLimit.LateRequestExceedsLimit | apps/api/src/rateLimit.ts:26-29 | whatever the limit, one late request makes a window admit one more than it |
| RateLimit.LateRequestsCrowd | apps/api/src/rateLimit.ts:26-29 | whatever the limit, late but timely requests make a stretch as long as a window admit three times it |
| RateLimit.RetryAfterReachesWindowEnd | apps/api/src/rateLimit.ts:51-52 | after a request the advertised wait is at least one second and at most the window, ends no earlier than half a second before the window does and, beyond one second, no later than half a second after the counter expires |
| RateLimit.Redis.Take | apps/api/src/rateLimit.ts:31-53 | the three commands in order; an aborted transaction counts as over the limit |
| RateLimit.Redis.EnforceLimit | apps/api/src/rateLimit.ts:67-101 | limited exactly when the new count exceeds the limit, with remaining, reset and retry headers; an unreachable store admits and sets none |
| ApiKeys.GenerateApiKey | apps/api/src/apiKeys.ts:65-69 | a generated key passes the format check |
| ApiKeys.FormatIffGenerated | apps/api/src/apiKeys.ts:35-37 | a key has the right format if and only if sixteen random bytes in hex can come out as it |
| ApiKeys.StepKeeps | apps/api/src/apiKeys.ts:85-158 | every step keeps: each key is in its owner's index until its score, the index outlives it, and its record stands until death or revocation |
| ApiKeys.RunKeeps | apps/api/src/apiKeys.ts:85-158 | the invariant holds in every interleaving |
| ApiKeys.StepHolds | apps/api/src/apiKeys.ts:95-117 | only a check that saw room raises an owner's holding |
| ApiKeys.OwnerLimit | apps/api/src/apiKeys.ts:85-123 | with at most c issuances between check and write, live keys inside their term plus issuances under way stay within maxPerOwner + c - 1 |
| ApiKeys.LiveOutsideTerm | apps/api/src/apiKeys.ts:108-117 | a live key past its score is within the delay between its stamp and its write |
| ApiKeys.LiveLimit | apps/api/src/apiKeys.ts:85-123 | all live keys plus issuances under way stay within maxPerOwner + c - 1 plus the issuances that were under way one lifetime ago |
| ApiKeys.UndelayedLimit | apps/api/src/apiKeys.ts:108-117 | with no such delay the limit covers all live keys |
| ApiKeys.LimitKeptIffNoDelay | apps/api/src/apiKeys.ts:108-117 | all runs that issue one key at a time and write it within a given delay keep all live keys within maxPerOwner if and only if that delay, or maxPerOwner, is zero |
| ApiKeys.DelayedWriteOverlaps | apps/api/src/apiKeys.ts:108-117 | whatever the limit, any delay lets one-at-a-time issuance hold one live key more |
| ApiKeys.ConcurrentIssuesMeetLimit | apps/api/src/apiKeys.ts:80-104 | whatever the limit, c issuances at once reach maxPerOwner + c - 1 live keys |
| ApiKeys.LookupIsExact | apps/api/src/apiKeys.ts:125-141 | a lookup finds a key exactly when issued, not revoked and younger than the lifetime, with its stamp and quota |
| ApiKeys.RevokedForGood | apps/api/src/apiKeys.ts:145-158 | a revoked key never answers again, and its slot stays taken |
| ApiKeys.Redis.CountLive | apps/api/src/apiKeys.ts:96-100 | prunes by the stamp and counts what is left |
| ApiKeys.Redis.Persist | apps/api/src/apiKeys.ts:106-117 | record, member and index expiry in one step |
| ApiKeys.Redis.IssueApiKey | apps/api/src/apiKeys.ts:85-123 | the three outcomes and the store after each |
| ApiKeys.Redis.LookupApiKey | apps/api/src/apiKeys.ts:125-141 | format check, then the record if alive |
| ApiKeys.Redis.RevokeApiKey | apps/api/src/apiKeys.ts:145-158 | true exactly when a live record was deleted; afterwards the key does not answer |
| JsString.TrimIsTrimmed | packages/engine-runtime/src/flags.ts:319 | trimming leaves no space at either end and is idempotent |
| JsString.TrimSplits | packages/engine-runtime/src/flags.ts:319 | nothing but space is trimmed away |
| JsString.SpacesByCode | apps/trace-service/src/server/execute/parse.ts:40 | what counts as space, by code point |
| JsString.SortedSorts | packages/engine-runtime/src/flags.ts:354 | sorting is an ascending rearrangement |
| JsString.AtMostIsLexicographic | packages/engine-runtime/src/flags.ts:354 | the order sorted by is that of the first differing code unit, a beginning coming first |
| JsString.DecimalInjective | apps/frontend/src/app/abstract-functions-visualizer/flatten.ts:20 | distinct indices are written differently |
| JsString.NumericOfDecimal | apps/frontend/src/lib/annotations.ts:172-178 | reading a number's decimal digits gives the number |
| JsString.DecimalOfNumeric | apps/frontend/src/lib/annotations.ts:172-178 | digits without a leading zero are the writing of what they read as |

## Left out

- Sandbox liveness when a worker never reports ready, or exits with code 0: the code arms no timer for a queued task and ignores exit code 0, so progress is stated per effective event.
- Completion of `terminate()` and heap limits of workers; default queue depth and budget are parameters.
- UTF-16 surrogate pairs: strings are sequences of characters.
- OperatorRoots.RootFoundIffSeen: covers ASCII identifiers (a Unicode name ending in a keyword's letters is misread), one space around operators, and at the top level no member access, minus, shifts, logical operators, commas, postfix increments, comments or nested template literals, which the scanner does not aim to parse. `OperatorScan.DetectOperator` covers every string.
- OperatorRoots.ReadIsSealed: not every operand with a misread slash is unsealed (`LuckyDivision`); with several slashes only reading it decides.
- engine262, evaluation of operand text and the `+` algorithm: foreign, taken as arbitrary functions with effects; numbers are extended reals with NaN, and the two zeros are one.
- Building and rendering trace records: no algorithm of their own.
- RunPathProofs.OwnDropsIffNotNarrow: for engines whose success has `meta` with their own sanitizer's drops, as `packages/engine-runtime/src/app.ts` has it.
- RunPathProofs.ResponsesAreRealRuns: the status number inside the text of "engine unavailable", the `retry-after` header and request-validation errors are not modelled; cache lifetime is an eviction at any time.
- The run handler's limiter and authentication are events; `executeRun` returns a result and does not throw.
- The catalog's regular expressions are arbitrary predicates on values; `Array.sort` is a sorting function on code units.
- Labels and clause texts of decision-tree tests: regular expressions over hints.
- Finding directives in comments and splitting fields (`annotations.ts:61-159`): acorn and regular expressions; a rule starts from its field values. Diagnostics and ids carry no algorithm.
- Diff.RowsGetTheirAnnotations: for outputs whose every carriage return stands before a line feed; behind a lone one a highlight could cross from row to row.
- React nodes, keys and aria labels of rendered pieces; only their text is modelled.
- The diff library and the highlighter: any script and any row layout meeting their contracts; line normalization is arbitrary.
- Maximal munch of the tokenizer, which does not hold for `??=`, and the choice between regex and division, documented as approximate.
- Decoding by Buffer and StringDecoder, `btoa` and `atob` are the platform's, written from their standards.
- Child processes, standard input and signals: events; a kill is a flag.
- `encodeText` and `decodeText`: the text decoder drops a leading byte order mark, so only bytes round-trip.
- RateLimit.FixedWindowLimit: limits and windows are fixed per bucket; a failing store is in `EnforceLimit` only.
- ApiKeys.OwnerLimit: random keys never repeat, digests are injective, lifetime and limits are constant.
- Redis TTL replies are rounded to the nearest second, as Redis documents; the in-memory stand-in of the repository's own suite returns the last lifetime set.
- Redis eviction under memory pressure, and the check's reading of an errored reply as room.
- Header parsing (`extractApiKey`), schemas, OpenAPI, configuration, stores, styling and link assembly: easy or not logic.
