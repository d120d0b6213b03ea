# A verified model of MikroDash's hard parts

MikroDash watches and manages RouterOS devices. This project models, in Dafny,
the parts of it whose correctness cannot be read off one branch, and proves
what they promise for every input, every run or every interleaving:

* the **line diff** of two configuration exports: Myers' greedy search over a
  sparse diagonal map, the walk back through its saved rounds, and the grouping
  into hunks (`EditScript`, `Myers`, `Retrace`, `Hunks`, `Patch`, `Text`,
  `Digits`, `Normalize`, `Diff`);
* the **sustained-alert state machine** with its pruned sample list
  (`Sustained`, `SustainedHistory`, `SustainedLevel`), the **alert memory** and
  the open/close protocol over it (`AlertMemory`, `AlertLog`), and the two rules
  that put them together (`CpuRule`, `VpnRule`);
* the **alert wire** as a small-step system of threads (`Wire`);
* **merging a template into a running router** behind ordered checks and an
  automatic revert, against a router that may answer anything (`Router`,
  `Parts`, `Deploy`, `Revert`, `AdditionsRun`);
* **retention and scheduling** of backups (`Calendar`, `Stems`, `Prune`, `Due`,
  `Scheduler`, `BackupDays`);
* the **type walk** of the TypeScript generator (`TypeGraph`, `TypeWalk`);
* **delimiter stripping** around untrusted router text (`Delimiters`).

`dafny verify dfyconfig.toml` checks the whole project.

## How it is laid out

Each imperative piece of the source is a method or a class that updates its
state in place, and is proved against a function or predicate that does not
mention how it works. The main results are about those:

* *Diff.* `Common` is the textbook dynamic program, stretched past the edit
  grid so that it also covers the endpoints the greedy walk reaches outside it.
  `Furthest` is the greedy recurrence. The loops compute `Furthest`;
  `GreedyIsFurthest` shows that it reaches exactly the points of cost at most
  `d`; `DistIsEditDistance` ties the dynamic program to the cheapest of all
  scripts, and `DistanceIsLcs` to the longest common subsequence. Hunks are
  specified without the run of held-back lines the loop works with: a line is
  shown exactly when a change lies within the context of it, and hunks are the
  maximal runs of shown lines. `Patch` proves such hunks to be a patch.
* *Sustained runs.* What is due is defined on the history of readings alone.
  The state the object keeps is proved to be that history abridged, so verdicts
  and levels follow, pruning notwithstanding.
* *Deploy.* Every exchange with the router goes on a ghost trace together with
  the answer the router chose; the clock only moves forward. `ImportsGated`,
  `RevertKept` and `ClaimsShown` say what the trace of a finished run must not
  hold; `RefusedExactlyWhen` and `EndShown` say that it is refused only for what
  was answered, and how it ends otherwise. A rendered text means the list of its commands,
  each under its menu header; cutting it into files keeps that list.

* *Scheduling.* Ticks with their instant and the routers they listed, starts,
  skips, reports, records with their instant and releases are one history. The
  scheduler's fields are proved to be what the history says; what days backups
  start on is proved of every such history, with records and releases anywhere
  after the start they belong to, however many ticks later.

A string is a Go string: a sequence of bytes, each written as a character.

## Where the code and its promises differ

* Normalising a text twice is not always the same as once, because only one
  header and one trailing empty line are taken off. `Normalize.NotIdempotent`
  gives a text; `Normalize.IdempotentExactlyWhen` says, from the lines of the
  text, exactly when it is.
* "preflight-failed exactly when nothing was imported" holds one way only. A
  template all of whose lines come to nothing renders to a blank text, which is
  cut into no parts, and the run goes on to end "applied" with no import.
  `AdditionsRun.BlankRunEndsApplied` gives the exchanges and shows that they
  meet everything proved of a run.
  `AdditionsRun.ImportedExactlyWhen`: past preflight something is imported
  exactly when the rendered text is not blank.
* An anchored daily schedule can start two runs on one local day. A tick lists
  the due routers once and claims them later, one after the other; if it lists
  a router whose run is still in flight, and that run is recorded and released
  before the tick comes to it, the router is started again from the stale list
  (`BackupDays.StaleListStartsTwice`). `BackupDays.OnePerDayExactlyWhen`: there
  is at most one start per day exactly when no run is released while a later
  tick of its own day has its router on the list. A queue that waits for the
  run, as the server's does (`internal/server/backup_scheduler.go`), rules that
  out (`BackupDays.OnePerDayWhenQueueWaits`), and asking again after the claim
  would for every queue (`BackupDays.OncePerDayWhenStillDue`).
* A daily backup does not always start at the first tick past its time: a run is
  recorded when it ends, so one that ends past the next day's time counts for
  that day (`BackupDays.LateRecordSkipsADay`). `BackupDays.CatchesUp` is the
  exact condition.
* Stems order as their instants do only if they were written from instants:
  reading a stem accepts dates that do not exist (`Stems.MadeUpStemsMisorder`).
  `Stems.SortsByTimeExactlyWhen`: a stem whose instant is in the years 0000 to
  9999 sorts by it exactly when its fields are a real date and time; one that
  carries over past the year 9999 exactly when it comes after the last stem of
  that year.
* The level claim of sustained runs needs no fixed hold time. Samples already
  pruned cannot come back when the hold grows, but by then the episode has
  reported at least as high a level, so what is reported is still right
  (`SustainedLevel.LevelsAreHeld`).

## Model

| member | source | states |
|---|---|---|
| EditScript.KeptIsCommon | internal/backups/diff.go:109-112 | what any script keeps is a subsequence of both sides, and its cost is everything else |
| EditScript.ScriptKeeping | internal/backups/diff.go:109-112 | every common subsequence is what some script between the two lists keeps, at that cost |
| EditScript.DistanceIsLcs | internal/backups/diff.go:114-121 | d is the fewest edits if and only if (n + m - d) / 2 is the length of a longest common subsequence |
| EditScript.SidesOfConcat | internal/backups/diff.go:109-112 | both sides and the cost of a script are additive |
| Myers.CommonStep | internal/backups/diff.go:139-149 | one step right or down finds at most one more common line, inside the grid and past it |
| Myers.CommonPastRight | internal/backups/diff.go:144-157 | past the right edge of the grid nothing more is in common |
| Myers.CommonPastBottom | internal/backups/diff.go:144-157 | past the bottom edge of the grid nothing more is in common |
| Myers.SnakeIsFree | internal/backups/diff.go:150-155 | following a diagonal costs nothing and stops where the lines stop agreeing |
| Myers.GreedyIsFurthest | internal/backups/diff.go:139-160 | on each diagonal, round d reaches exactly the points of cost at most d, even outside the grid |
| Myers.WithinFrontier | internal/backups/diff.go:139-160 | a point of cost at most d is never past round d's frontier |
| Myers.StopsOnCorner | internal/backups/diff.go:157-159 | the stopping test, although it says "past", fires exactly on (n, m) and at the right distance |
| Myers.CornerNotReached | internal/backups/diff.go:157-162 | a round that ends without stopping leaves the two lists further apart than d |
| Myers.NoScriptIsCheaper | internal/backups/diff.go:114-121 | no script costs less than the distance of the prefixes it connects |
| Myers.CheapestScript | internal/backups/diff.go:114-121 | some script costs exactly that |
| Myers.DistIsEditDistance | internal/backups/diff.go:114-121 | the dynamic program computes the minimum over all scripts |
| Diff.CommonIsLongest | internal/backups/diff.go:114-121 | the same dynamic program computes the length of a longest common subsequence |
| Myers.FollowDiagonal | internal/backups/diff.go:149-155 | the inner loop ends where the run of agreeing lines ends |
| Myers.SavedEntry | internal/backups/diff.go:142-148 | the neighbour picked from the map, a missing key read as 0, is the one the recurrence steps from |
| Myers.Advance | internal/backups/diff.go:140-156 | one diagonal of one round ends at the furthest point |
| Myers.Round | internal/backups/diff.go:139-160 | one round sets every diagonal to its furthest point, or stops on the first that passes the corner |
| Myers.Rounds | internal/backups/diff.go:121-163 | a trace is returned exactly when the distance is within the bound, and every saved round holds what the round before reached |
| Myers.ShortestEdit | internal/backups/diff.go:121-163 | the trace has one round more than the minimum number of edits; nil exactly when that number exceeds the bound |
| Retrace.RetraceRun | internal/backups/diff.go:181-185 | walking back a run stops exactly where the round stepped in |
| Retrace.RetraceEdit | internal/backups/diff.go:186-192 | the one edit of a round is taken from the side that moved |
| Retrace.RetraceRound | internal/backups/diff.go:170-193 | one round walked back ends where the round before it got, with one more edit |
| Retrace.RetraceRounds | internal/backups/diff.go:166-193 | the rounds walked back in turn end where the first one got, with one edit each |
| Retrace.RetraceStart | internal/backups/diff.go:194-198 | the first round's run is walked back to the origin |
| Retrace.Reverse | internal/backups/diff.go:200-202 | swapping from both ends reverses the list |
| Retrace.Backtrack | internal/backups/diff.go:166-204 | every index is in range, and the script turns a into b with exactly as many edits as the distance |
| Hunks.PushAll | internal/backups/diff.go:222-230 | pushing held-back lines extends a hunk over exactly the steps they number |
| Hunks.CloseOpen | internal/backups/diff.go:237-245 | a hunk closed past a long unchanged run keeps exactly the context and leaves one line out at least |
| Hunks.DropFirst | internal/backups/diff.go:246-248 | with no hunk open, only lines that could still become context are held back |
| Hunks.KeepLine | internal/backups/diff.go:233-250 | an unchanged line keeps what is decided about every earlier line |
| Hunks.HunkForChange | internal/backups/diff.go:252-265 | a new hunk starts where its context does, in both files |
| Hunks.ChangeLine | internal/backups/diff.go:252-274 | a change takes everything held back into its hunk, with true line numbers |
| Hunks.Finish | internal/backups/diff.go:277-286 | at the end an open hunk keeps at most the context |
| Hunks.BuildHunks | internal/backups/diff.go:216-288 | the hunks are the maximal runs of steps within the context of a change, numbered by their places in the two files |
| Patch.HunkSides | internal/backups/diff.go:216-288 | each hunk's old side is the stretch of a it names, and its new side the stretch of b |
| Patch.LinesAreNumbered | internal/backups/diff.go:232-275 | every line of every hunk is numbered by its own place in the two files, and in the one it is not in has no number |
| Patch.OutsideIsKept | internal/backups/diff.go:232-250 | between hunks both files run through the same lines |
| Patch.PatchIsCorrect | internal/backups/diff.go:290-330 | applying the hunks to the old file gives the new one |
| Patch.PatchIsReversible | internal/backups/diff.go:290-330 | undoing them takes the new file back to the old one |
| Patch.OmittedIsFar | internal/backups/diff.go:208-248 | a line outside every hunk is further than the context from every change |
| Patch.ContextIsBounded | internal/backups/diff.go:208-248 | every line of a hunk has a change of the same hunk within the context |
| Patch.HunksAreTidy | internal/backups/diff.go:208-286 | a change within the context of each end, never more than twice the context unchanged in a row, and a line of both files left out before the next hunk |
| Text.JoinOfSplit | internal/backups/diff.go:55-55 | joining what was split gives the text back, and no piece holds the separator |
| Text.SplitOfJoin | internal/backups/diff.go:69-70 | splitting what was joined gives the pieces back |
| Text.JoinIsAlmostInjective | internal/backups/diff.go:69-70 | joined texts are equal only for equal lists, or the empty list against one empty piece |
| Normalize.LinesAreClean | internal/backups/diff.go:52-67 | no normalised line holds a line ending of either kind |
| Normalize.TextTellsLinesApart | internal/backups/diff.go:69-78 | equal normalised texts mean equal normalised lines, but for no line against one empty line |
| Normalize.HeaderExactlyWhen | internal/backups/diff.go:37-61 | a first line is dropped exactly if it is a date and a time, digit by digit, then " by RouterOS " and any text |
| Normalize.HeaderDoesNotShow | internal/backups/diff.go:37-61 | two exports whose first lines are written from any two times, " by RouterOS " and any text normalise alike, to the lines of the body alone |
| Normalize.OtherFirstLineStays | internal/backups/diff.go:56-61 | any other first line stays |
| Normalize.EndingsDoNotShow | internal/backups/diff.go:52-67 | the same lines under any of the three line endings normalise alike: to all of them but a header that comes first and then an empty line that comes last |
| Normalize.IdempotentByResult | internal/backups/diff.go:52-70 | normalising again changes nothing exactly when one pass left nothing, one empty line, or nothing more to take off |
| Normalize.IdempotentExactlyWhen | internal/backups/diff.go:52-70 | in terms of the text's own lines: exactly without a second header after a leading one and without a second empty line at the end, unless two empty lines are all there is |
| Normalize.NotIdempotent | internal/backups/diff.go:56-65 | there is a text that normalising twice changes again |
| Diff.CountsBalance | internal/backups/diff.go:316-324 | insertions plus removals are the cost, and their difference is the difference in length |
| Diff.SameLines | internal/backups/diff.go:295-303 | the early comparison decides equality of the two lists |
| Diff.CountScript | internal/backups/diff.go:316-327 | the two counts of a cheapest script add up to the distance, and one of them is positive when the lists differ |
| Diff.CompareDifferent | internal/backups/diff.go:309-330 | lists that differ are reported changed, truncated or not |
| Diff.Compare | internal/backups/diff.go:291-330 | changed exactly when the normalised lines differ; truncated exactly when they are more than 4000 edits apart; otherwise a minimal, tidy patch both ways |
| Delimiters.PassShortens | internal/aicontext/context.go:586-600 | one pass leaves a subsequence, shorter unless neither marker was there |
| Delimiters.Strip | internal/aicontext/context.go:593-602 | the loop ends, at the fixed point of the passes |
| Delimiters.StrippedIsClean | internal/aicontext/context.go:576-602 | stripping leaves a subsequence with neither marker in it, changes exactly the texts that held one, and is done after once |
| Delimiters.StrippedByCuts | internal/aicontext/context.go:586-602 | only occurrences of the two markers are taken out, one after the other |
| Delimiters.FenceHolds | internal/aicontext/context.go:561-576 | between good markers a clean body cannot make up another occurrence of either |
| Delimiters.Wrap | internal/aicontext/context.go:612-622 | the opening marker occurs exactly once, the closing one exactly once and at the end, with the stripped body as whole lines between them |
| TypeGraph.NamedDepsAre | cmd/tsgen/main.go:581-599 | a name is found in a type expression exactly if some path of bases, elements, keys and values leads to it |
| TypeGraph.DepsAreMentioned | cmd/tsgen/main.go:545-573 | a field leads to exactly the kinds listed for it, or the structs some part of its type names |
| TypeGraph.ClosedHoldsReachable | cmd/tsgen/main.go:525-577 | a set closed under dependencies holds everything its members reach, scalars aside |
| TypeWalk.Declare | cmd/tsgen/main.go:563-576 | declaring a type after its dependencies keeps every earlier type after its own |
| TypeWalk.Generator.Walk | cmd/tsgen/main.go:525-577 | a visit ends on any graph, marks and declares only what its type reaches, and fails only on a refused type it reaches |
| TypeWalk.Generator.WalkFields | cmd/tsgen/main.go:545-575 | every dependency of a marked type is visited before it is declared |
| TypeWalk.Generator.WalkRoots | cmd/tsgen/main.go:525-577 | success means exactly the reachable types that are not scalars are declared, each once and after its dependencies but for cycles; failure means something reachable is refused |
| TypeWalk.DeclaredAreReachable | cmd/tsgen/main.go:525-577 | a finished walk has declared everything its roots reach and nothing else |
| TypeWalk.DeclaredInOrder | cmd/tsgen/main.go:545-576 | a type comes before every type that depends on it unless it leads back to it |
| Sustained.FindCut | internal/alert/eval.go:914-919 | the scan finds the last sample in force when the window opened |
| Sustained.FindLowest | internal/alert/eval.go:924-929 | the scan finds the lowest sample kept |
| Sustained.Run.TakeIn | internal/alert/eval.go:905-920 | a reading at or above the floor joins the run, started if there was none, and samples out of reach are dropped |
| Sustained.Run.JudgeRun | internal/alert/eval.go:921-938 | breach, escalation or nothing, from the kept samples |
| Sustained.Run.UnderFloor | internal/alert/eval.go:940-953 | a reading under the floor ends the run, and the episode once it has lasted |
| Sustained.Run.Observe | internal/alert/eval.go:901-953 | the fields after one reading, and what is said, for any hold |
| Sustained.Run.Tick | internal/alert/eval.go:956-961 | a tick judges the latest reading again, if there is one |
| Sustained.Run.Interrupt | internal/alert/eval.go:966-970 | being out of touch starts afresh unless an episode is open |
| SustainedHistory.StateTracksHistory | internal/alert/eval.go:867-970 | after any sequence of readings, ticks and interruptions the fields are the history abridged |
| SustainedHistory.VerdictsAreDue | internal/alert/eval.go:901-970 | a breach exactly when no episode is open and readings were at or above the floor for the hold time; a recovery exactly when one is open and they were under it for the hold time; escalations only inside an episode, with higher levels |
| SustainedLevel.LowestKept | internal/alert/eval.go:911-929 | the lowest sample kept is the level held over the whole run, unless the episode has already reported more than either |
| SustainedLevel.HeldIsLeast | internal/alert/eval.go:914-929 | what is held is the least of the readings that no later one had replaced by the time the window opened |
| SustainedLevel.LevelsAreHeld | internal/alert/eval.go:901-939 | a reported level is the lowest reading in force over the hold time, taken over the whole run; an escalation exactly when that level rose inside an episode |
| SustainedLevel.BreachesAlternate | internal/alert/eval.go:867-970 | between two breaches there is a recovery |
| SustainedLevel.RecoveriesAlternate | internal/alert/eval.go:867-970 | between two recoveries there is a breach |
| SustainedLevel.BreachComesFirst | internal/alert/eval.go:867-970 | a breach comes before any recovery or escalation |
| SustainedLevel.LevelsRise | internal/alert/eval.go:930-938 | inside one episode every escalation exceeds everything reported before it |
| AlertMemory.KeysAreDistinct | internal/alertwire/memstore.go:53-57 | two alerts share a key only if router, type and subject are the same |
| AlertMemory.MemStore.HasOpen | internal/alertwire/memstore.go:59-64 | whether the key is open, changing nothing |
| AlertMemory.MemStore.Resolve | internal/alertwire/memstore.go:72-84 | closes the key and gives its id, or nothing |
| AlertMemory.MemStore.Record | internal/alertwire/memstore.go:86-93 | opens the key under the next negative id |
| AlertMemory.ComputeStoredType | internal/alert/eval.go:1098-1116 | the loop gives the display type in lower case with each inner stretch of blanks as one underscore |
| AlertMemory.StoredTypeIsStable | internal/alert/eval.go:1094-1116 | storing a stored type changes nothing |
| AlertMemory.Emit | internal/alert/eval.go:1043-1092 | an alert opens, closes, is suppressed or supersedes, and what is announced says which |
| AlertMemory.WithdrawFrom | internal/alertwire/wire.go:238-250 | a withdrawal closes the key if it is open, silently |
| AlertLog.SupersedeBalances | internal/alert/eval.go:1076-1089 | replacing an open alert logs a close and an open of the same key |
| AlertLog.LedgerBalances | internal/alert/eval.go:1043-1092 | over any alerts and withdrawals: opens and closes alternate per key, an open first; opens less closes are the open keys; their ids are negative and distinct |
| CpuRule.CpuEvaluator.CpuFired | internal/alert/eval.go:760-788 | a breach opens, a recovery closes, an escalation is announced and not stored |
| CpuRule.CpuEvaluator.CpuReading | internal/alert/eval.go:750-757 | one reading is observed and its verdict fired; a payload without a load changes nothing |
| CpuRule.CpuEvaluator.Tick | internal/alert/eval.go:804-829 | a tick judges the reading in force again, out of touch it interrupts the run, with alerts off it changes nothing |
| CpuRule.RuleKeepsKey | internal/alert/eval.go:750-788 | the alert is open exactly while the run's mark is set, and every verdict is announced, none suppressed |
| CpuRule.AlertFollowsEpisode | internal/alert/eval.go:750-829 | over any readings, ticks, interruptions and other alerts, the CPU alert is open exactly when the history of readings has an episode open |
| VpnRule.Evaluator.VpnUpdate | internal/alert/eval.go:391-424 | one reading judges its tunnels in turn, announces what comes of each, and then bounds the names held; a router with alerts off changes nothing |
| VpnRule.AlertFollowsTunnel | internal/alert/eval.go:374-424 | over any run of readings, the disconnected alert of a name never forgotten is open exactly when the name is not connected and was before |
| VpnRule.LastReadingAnnounces | internal/alert/eval.go:391-424 | over any run of readings, the last one announces, in the order of its tunnels, every name that went down and every name that came back, and nothing else |
| VpnRule.NameIsAnnounced | internal/alert/eval.go:391-424 | a name never forgotten and carried once is announced down exactly when it went down and up exactly when it came back, whatever became of the others |
| VpnRule.NothingForgotten | internal/alert/eval.go:240-251 | no name is forgotten while at most 500 are held |
| Wire.RunKeeps | internal/alertwire/wire.go:138-177 | every reachable state of every interleaving keeps the locks, kits and maps consistent |
| Wire.NoSharedUse | internal/alertwire/wire.go:265-412 | two threads under a router's lock never share an evaluator, a lock or a store |
| Wire.KitsStayTogether | internal/alertwire/wire.go:156-177 | an evaluator is only used with the lock and the store made with it |
| Wire.NoNestedWait | internal/alertwire/wire.go:193-250 | nobody waits for a router's lock holding the wire's, nor the other way round |
| Wire.EvaluatorHasKit | internal/alertwire/wire.go:156-177 | whoever holds the wire's lock finds an evaluator exactly where there is a store, with the lock made with both |
| Wire.LookupFindsKit | internal/alertwire/wire.go:156-177 | a lookup of a router with a store finds a whole kit |
| Wire.TickFindsKit | internal/alertwire/wire.go:394-404 | a tick, which looks only for the evaluator, never misses the lock or the store of one it finds |
| Wire.CallComesTo | internal/alertwire/wire.go:138-177 | from entering the wire's lock to leaving it, in every interleaving: a lookup leaves with its router's kit, a new one if there was no store, and a dropped router or one whose persistence changed has neither evaluator nor store |
| Wire.NoDeadlock | internal/alertwire/wire.go:138-250 | while any call is under way some thread can go on |
| Parts.LineMeans | internal/cfgtpl/format.go:220-238 | a line that opens with a slash and holds no equals sign is the header for the commands after it and runs nothing; an empty one is nothing; any other is a command |
| Parts.TakeLine | internal/cfgtpl/format.go:225-239 | a line that does not fit finishes the file and opens the next under the header in force |
| Parts.SplitParts | internal/cfgtpl/format.go:214-245 | the loop computes the cut, or names the first line that fits no file under its header |
| Parts.PartsKeepCommands | internal/cfgtpl/format.go:210-245 | imported one after the other, the parts run exactly the text's commands, each under its own header |
| Parts.PartsFit | internal/cfgtpl/format.go:210-245 | every part is non-empty and fits; there is none exactly when the text is all newlines; refused exactly when some line does not fit under its header |
| Parts.PartsAreFull | internal/cfgtpl/format.go:225-239 | no part ends early: the line the next one opens with, below a repeated header at most, had no room in it |
| Deploy.JudgeRendering | internal/cfgdeploy/additions.go:301-320 | passes exactly the approved text with nothing refused and every acknowledgement given, and gives each of the three reasons exactly when it is the first that applies |
| Deploy.Check | internal/cfgdeploy/additions.go:174-196 | passes only the planned router with the approved rendering; a refusal is for the very answer its code names |
| Deploy.LockClass | internal/cfgdeploy/additions.go:82-98 | whether some finding can cut this program off |
| Deploy.Sweep | internal/cfgdeploy/deploy.go:163-181 | files first, then exactly the listed schedulers whose name is the prefix and sixteen hexadecimal digits, in their order |
| Deploy.OursAreMinted | internal/cfgtpl/file.go:14-70 | a scheduler is taken for one of ours exactly if its name could have been minted: the prefix and eight bytes in hexadecimal |
| Deploy.Upload | internal/cfgdeploy/deploy.go:215-236 | succeeds only after the file was found and its contents set, and otherwise an exchange was refused; too long a body is refused with nothing sent |
| Deploy.DryRunAll | internal/cfgdeploy/additions.go:222-231 | every part parsed, or the first that was not, all before it having passed and its report read |
| Deploy.ClearedIsNotRefused | internal/cfgdeploy/additions.go:172-248 | exchanges with everything in order end with nothing a refusal could be for |
| AdditionsRun.Stage | internal/cfgdeploy/additions.go:198-239 | a restore point, every part uploaded and parsed, and the same text and findings once more; or refused with the exchange that says why |
| Revert.Arm | internal/cfgdeploy/additions.go:420-444 | armed means minted, saved, waited for, scheduled and timed, in that order; otherwise one of these was refused |
| Revert.Disarm | internal/cfgdeploy/additions.go:446-461 | true exactly when the scheduler was found, had not run and was removed; nothing else is removed |
| AdditionsRun.Preflight | internal/cfgdeploy/additions.go:172-248 | ends refused with nothing imported, no revert left armed and the answer its code names, or cleared with one armed exactly if a finding calls for it |
| AdditionsRun.ImportAll | internal/cfgdeploy/additions.go:250-269 | parts in turn up to the first failure; "applied" exactly when all succeeded, and what is held otherwise as the failing reply says |
| Revert.FreshLogin | internal/cfgdeploy/additions.go:331-344 | ends; succeeds exactly if a login reached the planned router before a look at the clock showed the window up, and gives up exactly if none did |
| Revert.LockedOut | internal/cfgdeploy/additions.go:346-396 | ends; a revert is claimed exactly when a login shows a boot no earlier than 15 seconds before it was due; otherwise the whole window is up, and the code says whether any login was answered |
| AdditionsRun.Reconnect | internal/cfgdeploy/additions.go:271-297 | what the imports came to is the last word exactly if a login got through after the settling time and the revert, if armed, was disarmed; nothing else touches the revert |
| AdditionsRun.ChangeEnds | internal/cfgdeploy/additions.go:250-297 | the imports' replies, the fresh login and the disarming settle how a run ends, with the restore point it names |
| AdditionsRun.RunAdditions | internal/cfgdeploy/additions.go:157-298 | on every run: refused exactly when an answer calls for it, under its code; past preflight "applied" exactly when every import, the fresh login and the disarming succeeded; imports only after all the checks, none after one that failed; swept at the end exactly when no revert is left armed |
| AdditionsRun.ImportedExactlyWhen | internal/cfgdeploy/additions.go:206-269 | a failed preflight imported nothing; past it something was imported exactly when the rendered text is not blank |
| AdditionsRun.BlankRunEndsApplied | internal/cfgdeploy/additions.go:206-298 | the exchanges of a run over a template that renders to nothing meet everything proved of a run that ends "applied", with nothing imported |
| AdditionsRun.AppliedRanTheText | internal/cfgdeploy/additions.go:187-269 | "applied" means the router was sent, file by file, exactly the commands of the approved text, no file being written between its upload and its import |
| Calendar.EarlierDate | internal/backups/prune.go:40-48 | real dates order by year, month and day exactly as their day numbers do |
| Calendar.DateOf | internal/backups/store.go:115-118 | every day number has a real date that gives it back |
| Stems.StemRoundTrips | internal/backups/store.go:105-118 | reading a stem back gives its instant floored to the second |
| Stems.StemOrderIsTimeOrder | internal/backups/prune.go:31-48 | stems compare as strings exactly as their instants compare in seconds |
| Stems.RealIsWritten | internal/backups/prune.go:31-48 | a readable stem is what its instant is written as exactly when its fields are a real date and time |
| Stems.SortsByTimeExactlyWhen | internal/backups/prune.go:31-48 | which readable stems sort by their time: real ones, and of those carrying out of the years 0000 to 9999 the ones past either end as strings too |
| Stems.MadeUpStemsMisorder | internal/backups/prune.go:40-48 | stems that were not written from instants can be read and order the wrong way |
| Prune.SelectForPruning | internal/backups/prune.go:84-126 | exactly the parseable stems, not the newest, beyond the count by rank or older than the cutoff, newest first |
| Prune.NewestFirstSorts | internal/backups/prune.go:91-95 | the sort puts the stems newest first |
| Prune.NewestFirstByTime | internal/backups/prune.go:91-95 | for written stems that is newest first by time |
| Prune.SelectionIgnoresOrder | internal/backups/prune.go:84-126 | the selection does not depend on the order of the pairs |
| Prune.LargerLimitsDoomLess | internal/backups/prune.go:100-115 | raising a limit that applies never dooms more |
| Prune.NothingLeftToPrune | internal/backups/prune.go:84-126 | a second sweep at the same instant finds nothing |
| Prune.MarkByCount | internal/backups/prune.go:100-105 | beyond the count by position is beyond it by rank |
| Prune.MarkDoomed | internal/backups/prune.go:100-117 | the two limits together, with the newest taken back out |
| Prune.TooOldIsDatesEarlier | internal/backups/prune.go:106-115 | a real stem is past the limit of days exactly when it comes before the stem of the same time of day that many dates earlier, or is that stem with the clock past the full second |
| Prune.Archive.RemovePair | internal/backups/store.go:227-242 | success means no file of the pair is left, no other file is touched, and the count is of files removed |
| Prune.Archive.PruneFor | internal/backups/prunefor.go:62-112 | a row goes only after all its files, only if doomed; with nothing refused every doomed row goes; the count is of rows gone; rows that cannot be read change nothing |
| Scheduler.Scheduler.Claim | internal/backups/scheduler.go:149-161 | takes a router exactly if no run of it is in flight, and ends its streak of skips |
| Scheduler.Scheduler.NoteSkip | internal/backups/scheduler.go:163-169 | the count is the number of skips since a run last started |
| Scheduler.Scheduler.Release | internal/backups/scheduler.go:171-175 | the router is free, released once or twice |
| Scheduler.Scheduler.PassOver | internal/backups/scheduler.go:124-136 | the third skip in a row, and only that one, is reported, at once |
| Scheduler.Scheduler.HandOver | internal/backups/scheduler.go:137-145 | whatever is recorded and released during it, a run that is over leaves its router free |
| Scheduler.Scheduler.DueRouters | internal/backups/scheduler.go:98-118 | exactly the enabled routers due by what is on record, each once |
| Scheduler.OnlyEnabledAreDue | internal/backups/due.go:90-97 | only a router in service, with its backup enabled on one of the four schedules, is ever listed |
| Scheduler.Scheduler.Tick | internal/backups/scheduler.go:120-147 | lists the routers due by what was on record when it began, and starts or passes over each of them, with any runs recorded and released meanwhile |
| Scheduler.StartsAlternate | internal/backups/scheduler.go:149-175 | between two starts of a router its run was released |
| Scheduler.OneReportPerStretch | internal/backups/scheduler.go:73-86 | between two reports of a router a run of it started |
| Due.TimeMinutesReads | internal/backups/due.go:60-75 | a text is read as hour and minute exactly if it is the two in two digits each, a colon between, with blanks around at most |
| Due.AnchorIs | internal/backups/due.go:25-42 | the time of day is the one stored, and eight o'clock where none ever was |
| BackupDays.TickInHistory | internal/backups/scheduler.go:120-147 | a tick of a fleet that schedules the router goes on a history in which it is listed exactly when due |
| BackupDays.RunScheduler | internal/backups/scheduler.go:120-147 | from a new scheduler, through any ticks and whatever is recorded and released, what happened is such a history |
| BackupDays.StartIsListed | internal/backups/scheduler.go:121-124 | a router is started only by a tick that listed it |
| BackupDays.FreeIsRecorded | internal/backups/scheduler.go:137-140 | a run recorded before its release is on record once its router is free |
| BackupDays.OncePerDayWhenFree | internal/backups/due.go:118-125 | over every history, two daily starts are on different local days if the router was free when the second one's tick began |
| BackupDays.OncePerDayWhenStillDue | internal/backups/due.go:118-125 | and also if it was still due by what was on record when it was claimed |
| BackupDays.LetGoStartsAgain | internal/backups/scheduler.go:121-147 | a run of the tick's own day released while its router is on the list is followed by a second start that day |
| BackupDays.SecondStartWasLetGo | internal/backups/scheduler.go:121-147 | and every second start of a day comes about like that |
| BackupDays.OnePerDayExactlyWhen | internal/backups/scheduler.go:121-147 | over every history whose last tick is over: at most one start per local day exactly when no run is released while a later tick of its own day has its router on the list |
| BackupDays.OnePerDayWhenQueueWaits | internal/server/backup_scheduler.go:101-150 | with a queue that waits for the run there is at most one start per local day |
| BackupDays.StaleListStartsTwice | internal/backups/scheduler.go:121-147 | a history in which a stale list starts a second run on the same day |
| BackupDays.FreeStartsWhenDue | internal/backups/scheduler.go:121-147 | a tick that finds a router free starts it exactly when it is due |
| BackupDays.FirstStartsAtOnce | internal/backups/due.go:90-100 | a router on any of the four schedules with nothing on record is started by the first tick that finds it free |
| BackupDays.IntervalStartsWhen | internal/backups/due.go:102-118 | hourly, and any schedule without a time of day, is started exactly when its hours have gone by since the latest record |
| BackupDays.AnchoredStartsWhen | internal/backups/due.go:102-125 | with a time of day, exactly when today's is past and the latest record is from before it, weekly and monthly only once their hours have gone by as well |
| BackupDays.CatchesUp | internal/backups/due.go:118-125 | at or after the chosen time it starts one exactly when every record is from before that time |
| BackupDays.IntervalIsKept | internal/backups/due.go:109-116 | every other schedule leaves its interval between a record and a later tick's start |
| BackupDays.LateRecordSkipsADay | internal/backups/due.go:118-125 | a run recorded past the next day's time takes that day's place |

## Left out

- Other components: the code generators apart from the type walk, the lab probes, start-up, the AI provider, ASN and branding clients, the declaration tables and every JavaScript tool; they are I/O, text templating or tables.
- Rules of the evaluator other than CPU and VPN: ping, BGP, netwatch, interface and update rules; ping repeats the CPU rule per target, and the others add cases without a stronger invariant.
- `RunClone`, `RunReset`, `Prepare`, `Analyze` and the reading of import replies: a rendering with its findings, and a reply, are answers of the router; the fingerprint is any function.
- Message texts, labels, logging, audit records, compression, encryption and SHA-256.
- The database-backed alert store and the memory store's own mutex; the memory store is used by one thread at a time, which is what the wire guarantees.
- Deploy.JudgeRendering: a finding's key is the pair of its code and line, not the text they are joined to.
- AdditionsRun.Stage: the recheck compares findings as a multiset of code, line and level, not as a sorted and joined string.
- Deploy.Sweep: sweeping files is one exchange.
- Revert.Arm: minting the revert's name and its password is one step, which may fail.
- AdditionsRun.AppliedRanTheText: file names are minted at random; that one repeats within a run counts as minting having failed.
- Hunks.KeepLine: the second of the source's two tests is an else branch, because a hunk that closes leaves exactly the context held back.
- Myers.Rounds: copying the map each round is assigning a value; the length of the trace is not tied to memory use.
- Stems.StemRoundTrips: only for the years 0000 to 9999, whose stems have a fixed width; the source formats no others in that width either.
- Prune.Archive.PruneFor: the stored rows, or that they could not be read, are a parameter; file sizes are not kept.
- TypeWalk.Generator.Walk: a type is a package and a name, not the string they are joined to; loading a package and parsing it are given; the message of a refusal is not modelled.
- Due.TimeMinutes: blanks around a stored time are ASCII blanks only; time zones are any division into days with a time of day inside its day.
- Scheduler.Scheduler.Tick: ticks do not overlap; a release between a failed claim, the counting of the skip and its report is put after them, which it commutes with; the history of backups can always be read; starting and stopping the timer, and clearing the claims when it stops, are not modelled.
- Wire.RunKeeps: the payload of an event and the rules it runs are one step under the router's lock; a call with no router or no wire returns at once and is not a step.
- VpnRule.AlertFollowsTunnel: readings are those of one router with alerts enabled; one with alerts off changes nothing.
- CpuRule.AlertFollowsEpisode: load, floor and level are real numbers, and the text of a message is not kept.
