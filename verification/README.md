# SandForge, modelled in Dafny

SandForge moves records between Salesforce orgs from command lines, and guards its own repository
with scripts. This project models the code whose mistakes are quiet: the gate that calls a module
dead, the gate that reads source text and translation files, and the parts of the command lines
that stop, undo and account for a run that writes to an org. It proves what each of them keeps over
all inputs, all orders of events and all failures of what lies outside.

Code that works in place is a class or a method with loops here, proved against a function of its
input; what the repository promises is proved of that function, or stated outright by the method.

| Files | What they model |
|---|---|
| `ModuleReader`, `StarSearch`, `OrphanWalk`, `OrphanPasses`, `OrphanAudit`, `OrphanTheorems`, `OrphanDerivation`, `OrphanOrder`, `OrphanGate` | the orphan-module audit: what a file asks of others, the two memoised searches, the rules and the passes of the walk, its loops, what its result means and depends on, and the report |
| `SourceText`, `Lexer`, `LexerGrammar`, `LexerRun`, `LexerBlanking`, `LexerTemplates`, `Brackets` | the lexer of the translation gate, what a token is by its spelling alone, and the bracket scanners |
| `JsonText`, `RepeatedKeys`, `DuplicateKeys`, `Flatten` | its walk over raw JSON for repeated keys, what there is to report by the places keys are written at, and its flattening of a locale |
| `WritePath`, `AutopilotRun` | the order a guarded run keeps, and one run from its gate to its end |
| `PanelRequests` | requests to a panel host and the messages that settle them |
| `StopSignals` | what a stop signal reaches, and when |
| `ListMerge`, `RunMerge`, `JournalParts` | the merged results of several removals; the parts read back from a run's journal |
| `CommandLine`, `HiddenKey` | the command-line grammar against the scripts' own readers; a secret typed with no echo |
| `Options` | the option type the others share |

## What is not as the documentation says

Each of these is a lemma or a clause below, with the exact condition where there is one.

- The audit's header names one way it can call live code dead. There is a second: two modules that
  re-export each other. The search remembers what it found of a module while the other one was cut
  off, so a later answer can miss names (`StarSearch.ExactIffNoCycle`) or emitted code
  (`OrphanGate.CheckExactIffNoCycle`). The walk then depends on the order of imports, and one import
  more can make it call a module dead that it called alive: `OrphanOrder.ImportsDecide` gives the
  imports that do, beside a repository as it stands, for any such pair whose first module declares a
  name that nothing else it leads to declares, or could hold out of sight. Of star edges, whatever the modules hold besides,
  both can happen if and only if two modules re-export each other
  (`OrphanOrder.OrderIsNothingIffNoCycle`, `OrphanOrder.MoreOnlyAddsIffNoCycle`). Where none do the
  result is the one the header describes (`OrphanTheorems.WalkIsExact`).
- Blanking comments is meant to leave the code as it was. It changes the tokens exactly when a
  literal the lexer gave up on is closed by the blanking (`LexerBlanking.SameTokensIffStaysOpen`).
- The mute lease is said to be given back however the run ends
  (`sandforge-autopilot.ts:1139-1140`), and a second stop signal to end the process at once
  (`sandforge-autopilot.ts:1096-1097`). The second undoes the first: the lease is left held exactly
  when such a signal comes after its acquisition and before it is asked back, and a checkpoint taken
  is then neither kept nor deleted by the run (`AutopilotRun.Autopilot`,
  `AutopilotRun.SecondSignalLeavesLease`). Asked back, a lease may still leave some of its sets
  assigned; that is a third outcome, apart from a lease given back.
- A run that wrote records is said to keep its checkpoint. It is deleted all the same
  exactly when no answer told of one, some answer was lost, the run was not ended before it
  settled, and the deletion succeeded (`AutopilotRun.Autopilot`,
  `AutopilotRun.LostAnswerLosesCheckpoint`).
- A switch looked for anywhere on the line is read where a value was given: `-h` after a flag asks
  for help (`CommandLine.SwitchReaderAgreesIff`).
- Backspace takes back the last letter exactly when the letter is one UTF-16 unit
  (`HiddenKey.BackspaceTakesLetterIff`).
- The registry takes any id again, and a stop then misses runs. Every stop that may follow a start
  reaches every checkpoint run if and only if the start is safe: that of a checkpoint once all
  earlier runs of its id have settled, that of anything else once no checkpoint run that goes on has
  its id (`StopSignals.SafeIffEveryStopReaches`). The ids the repository gives a checkpoint operation
  are random (`CheckpointHandler.ts:992`, `:1135` and `:1227`, and `panelHost.ts:353` for a request's
  own), so it makes no unsafe start, and every stop reaches every run
  (`StopSignals.StopReachesAll`).
- The audit lets `default` pass through `export *`, which ECMAScript does not; the model follows
  the script, for which a name is a name.

## Model

| member | source | states |
|---|---|---|
| ModuleReader.Reader.Ask | scripts/audit-orphan-modules.ts:408-417 | asking a module again joins the two demands, and asking for everything absorbs every name |
| ModuleReader.Reader.PullIn | scripts/audit-orphan-modules.ts:418-421 | the recorded demands are exactly the join of everything pulled so far |
| ModuleReader.OrderOfImportsIsNothing | scripts/audit-orphan-modules.ts:408-421 | two files with the same imports, in any order and any number of times, record the same demands |
| ModuleReader.NamespaceUsage | scripts/audit-orphan-modules.ts:244-277 | a namespace is asked for everything if and only if it is used as a value; otherwise for exactly the properties read off it |
| StarSearch.AnswerIsCached | scripts/audit-orphan-modules.ts:568-593 | a search from an empty stack leaves its answer in the cache and changes no earlier entry |
| StarSearch.SearchSound | scripts/audit-orphan-modules.ts:568-593 | no answer and no cache entry ever claims a name or everything that the transitive `export *` closure does not hold, cycles included |
| StarSearch.SearchGathers | scripts/audit-orphan-modules.ts:573-591 | when a search ends, what each module it met declares, and each star edge out of it, is accounted for by the answer, the cache or the stack, although inner entries were cut off |
| StarSearch.FirstCallExact | scripts/audit-orphan-modules.ts:568-593 | the first call, on an empty cache, is exactly the transitive closure, even on a cyclic graph |
| StarSearch.SearchExact | scripts/audit-orphan-modules.ts:568-593 | where no two modules reach each other, every later call and every cache entry is exact too |
| StarSearch.NoCycleAllExact | scripts/audit-orphan-modules.ts:567-593 | without such a cycle, calls in any order all answer the closure |
| StarSearch.CycleBreaksSecondCall | scripts/audit-orphan-modules.ts:574-591 | for any two modules that reach each other there are declared names with which the second call's answer is wrong |
| StarSearch.SecondCallMisses | scripts/audit-orphan-modules.ts:574-591 | of two modules that re-export each other, the first declaring a name that nothing else it leads to declares or absorbs: once it was searched, the cached answer for the other misses the name, and its call is wrong |
| StarSearch.SecondCallMissesAbsorb | scripts/audit-orphan-modules.ts:647-669 | the same of a module that emits code, by a statement past its re-exports, where nothing else it leads to does |
| StarSearch.ExactIffNoCycle | scripts/audit-orphan-modules.ts:567-593 | calls are exact in every order, for all declared names, if and only if no two modules re-export each other |
| StarSearch.ExactIsUnique | scripts/audit-orphan-modules.ts:568-593 | a module has one exact answer |
| OrphanAudit.ModuleWalk.constructor | scripts/audit-orphan-modules.ts:677-679 | the walk begins with the entries reached, in order, and nothing asked |
| OrphanAudit.ModuleWalk.ExportedNames | scripts/audit-orphan-modules.ts:568-593 | the recursion with its cache and stack updated in place computes the search function, cache and all |
| OrphanAudit.ModuleWalk.WantEverything | scripts/audit-orphan-modules.ts:710-714 | everything is asked of the target and its names are dropped; it says whether that is new |
| OrphanAudit.ModuleWalk.WantNames | scripts/audit-orphan-modules.ts:681-696 | the names are added unless everything is asked already; it says exactly whether one was new |
| OrphanAudit.ModuleWalk.PullFrom | scripts/audit-orphan-modules.ts:702-719 | one module pulls its plain targets in, in their order, and makes its demands, as the first pass does one by one; it says exactly whether anything changed |
| OrphanPasses.OneMoreDemand | scripts/audit-orphan-modules.ts:709-719 | demands made one by one, in any order, ask what all of them ask together: the state after a module does not depend on the order of its demands |
| OrphanPasses.PullOneDoes | scripts/audit-orphan-modules.ts:702-719 | afterwards the module's plain edges and demands are met, nothing asked before is lost, and only what every closed state holds was added |
| OrphanAudit.ModuleWalk.WantDemand | scripts/audit-orphan-modules.ts:709-719 | one demand is met, and it says whether that changed anything |
| OrphanAudit.ModuleWalk.CarryTo | scripts/audit-orphan-modules.ts:728-749 | one star edge looks its target up and, if the target offers any of what the barrel is asked for, reaches it and asks that of it; it says exactly whether anything changed |
| OrphanPasses.CarryEdgeDoes | scripts/audit-orphan-modules.ts:728-749 | afterwards the star target is reached and asked for exactly what the barrel is asked for and the target offers, by an answer kept in the cache, and only what every closed state holds was added |
| OrphanAudit.ModuleWalk.CarryFrom | scripts/audit-orphan-modules.ts:722-750 | the star edges of one module in their order, none where nothing is asked of it |
| OrphanAudit.ModuleWalk.PullPass | scripts/audit-orphan-modules.ts:700-720 | the first pass over the modules reached when it begins, in the order they were reached; it says exactly whether anything changed |
| OrphanAudit.ModuleWalk.CarryPass | scripts/audit-orphan-modules.ts:722-750 | the second pass, over the modules reached once the first is over |
| OrphanPasses.PassDoes | scripts/audit-orphan-modules.ts:698-751 | a pass loses nothing, adds only what every closed state holds, and if it changes nothing every reached module's plain edges, demands and star edges are met |
| OrphanAudit.ModuleWalk.Walk | scripts/audit-orphan-modules.ts:698-751 | the loop ends, with its collections, the order of the modules and the cache as the passes repeated until one changes nothing leave them |
| OrphanPasses.ResultIsLeast | scripts/audit-orphan-modules.ts:672-751 | from any entries, what the walk ends with is the least state closed under the entry, plain, demand and star rules for the exports it looked up, and it looked up every star target the rules speak of |
| OrphanAudit.WalkFrom | scripts/audit-orphan-modules.ts:677-751 | the walk from the entries ends with that result |
| OrphanWalk.GrowthShrinksMeasure | scripts/audit-orphan-modules.ts:672-676 | every change shrinks the unreached modules, else those not asked for everything, else the names not asked: names deleted when everything is asked do not undo progress |
| OrphanWalk.JsonIsNamed | scripts/audit-orphan-modules.ts:701-723 | a module is a `.json` file exactly when its path is something followed by `.json` |
| OrphanWalk.CarryForced | scripts/audit-orphan-modules.ts:728-749 | what a star edge adds is held by every state closed under the rules |
| OrphanTheorems.LeastIsUnique | scripts/audit-orphan-modules.ts:672-676 | for given export answers there is one least state (which answers the walk is given can depend on order: `OrphanOrder.OrderIsNothingIffNoCycle`) |
| OrphanTheorems.WalkNeverExceeds | scripts/audit-orphan-modules.ts:698-751 | even with star cycles the walk reaches and asks for nothing outside the least state of the exact exports |
| OrphanTheorems.WalkIsExact | scripts/audit-orphan-modules.ts:698-751 | without star cycles the walk's state is the least one for the exact exports |
| OrphanTheorems.DeadModulesKeepNothingAlive | scripts/audit-orphan-modules.ts:672-676 | whatever the modules outside the result import, demand or re-export, and whatever is offered of modules that the result does not re-export, the least state is the same |
| OrphanTheorems.DeadEdgesChangeNothing | scripts/audit-orphan-modules.ts:672-676 | for the exact exports: whatever a module imports, demands, declares or re-exports that is neither in the least state nor re-exported, however far, by one that is, the least state is the same |
| OrphanTheorems.MoreNeverRemoves | scripts/audit-orphan-modules.ts:672-676 | for the exact exports, with more entries, edges, demands, names or modules nothing reached or asked is lost |
| OrphanTheorems.ReachedExactlyWhenExplained | scripts/audit-orphan-modules.ts:39-49 | in any least state a module is reached if and only if it is an entry or a reached module pulls it in, or passes on to it, along star edges from a demand, everything or a name it offers |
| OrphanDerivation.ReachedIffDerivable | scripts/audit-orphan-modules.ts:39-49 | a module is reached, and a name or everything asked of it, if and only if a finite derivation from the entry points says so, each step an entry, an import, a demand or a name passed on by a barrel |
| OrphanTheorems.ChainOffers | scripts/audit-orphan-modules.ts:48-49 | a name declared at the end of a chain of barrels is offered by its first module, or that module is opaque below |
| OrphanTheorems.BarrelsResolve | scripts/audit-orphan-modules.ts:48-49 | a reached module asked for a name that a chain of barrels leads to: every module of the chain is reached and asked for it, the declaring one included |
| OrphanOrder.UnreachedChangeNothing | scripts/audit-orphan-modules.ts:672-676 | of the walk itself, star cycles or not: whatever a module imports, demands, declares or re-exports that is neither reached nor re-exported, however far, by one that is, every step, the order and the cache are the same |
| OrphanOrder.WalksGrow | scripts/audit-orphan-modules.ts:672-676 | what a walk reached and asked is reached and asked by the walk of any repository that has all of it and more, if no two modules of the larger one re-export each other |
| OrphanOrder.LookedUpFirst | scripts/audit-orphan-modules.ts:722-750 | beside a repository as it stands, of two of its modules that re-export each other, the first declaring a name that nothing else it leads to declares or could hold behind an opaque star: the second is alive if the walk looks it up first |
| OrphanOrder.LookedUpBehind | scripts/audit-orphan-modules.ts:722-750 | and dead, though the name is asked of a barrel over it, if the walk looks the first up before it: only the entry and the two barrels are reached |
| OrphanOrder.ImportsDecide | scripts/audit-orphan-modules.ts:51-57 | for any two such modules, all modules of the repository kept as they stand: an added entry, alone the entry of the walk, whose two imports, swapped, change whether the second is alive, and an import that, added, makes it dead |
| OrphanOrder.OrderIsNothingIffNoCycle | scripts/audit-orphan-modules.ts:672-676 | of star edges: over all that modules with these star edges, and others beside them that they do not re-export, declare, import and demand, the order of imports and entries changes nothing of the walk's result, if and only if no two modules re-export each other |
| OrphanOrder.MoreOnlyAddsIffNoCycle | scripts/audit-orphan-modules.ts:672-676 | over all the same, more entries, imports, demands and names only add to the walk's result, if and only if no two modules re-export each other |
| OrphanGate.RuntimeCheck.Emits | scripts/audit-orphan-modules.ts:603-670 | the check for emitted code is the same memoised search over statements, its cache updated in place |
| OrphanGate.RuntimeCheck.HasRuntimeCode | scripts/audit-orphan-modules.ts:595-670 | it answers as the memoised search does, never claims code where neither the module nor one that a chain of `export *` statements leads to holds a statement that is emitted, and misses none on a first call or without star cycles |
| OrphanGate.EmitsIffAbsorbing | scripts/audit-orphan-modules.ts:610-670 | what the check searches for is that a chain of `export *` statements leads to a module holding a statement that is none of: ambient, an interface, a type alias, a function with no body, an import of names, a type-only export, a named export all type-only, an `export *` to an audited module |
| OrphanGate.CheckExactIffNoCycle | scripts/audit-orphan-modules.ts:595-670 | of star edges: over all other statements that modules with these star edges hold, calls of the check are exact in every order, if and only if no two modules re-export each other |
| OrphanGate.EmittingBreaksSecondCall | scripts/audit-orphan-modules.ts:647-669 | of any two modules as they stand that re-export each other, the first emitting code past its re-exports and alone of those it leads to: the second of two calls misses the code |
| OrphanGate.Unreachable | scripts/audit-orphan-modules.ts:761-762 | the report holds only modules that emit code, are no `.json`, and were not reached; without star cycles it is all of them, in their order |
| OrphanGate.Audit | scripts/audit-orphan-modules.ts:677-762 | without star cycles the whole audit reports, in order, exactly the production modules from which a chain of `export *` statements leads to an emitted statement, and that no derivation from the entry points reaches |
| Lexer.PiecesCoverText | scripts/check-i18n-parity.ts:385-469 | of every text, the pieces joined are the text: spaces, comments, and tokens each spelled as it stands, every character in exactly one |
| LexerGrammar.NextIsTheCut | scripts/check-i18n-parity.ts:385-495 | of every text and context, the next piece is the one prefix its spelling makes a piece: quoted literals and template chunks of plain units and escapes, comments to their line's end or first `*/`, regex literals of escapes and classes where the last token lets one begin, longest words and numbers, `=>`, else one unit |
| LexerGrammar.ReadsIffPieces | scripts/check-i18n-parity.ts:385-469 | a text has one reading by that grammar, the last token and the nest of its tokens alone carried from piece to piece, and it is the lexer's |
| LexerGrammar.StringIsRead | scripts/check-i18n-parity.ts:433-438 | a quote, any units that are not the quote, a backslash or a newline, any unit behind a backslash, and the quote again are one string, whatever stands after |
| LexerGrammar.QuoteAloneIff | scripts/check-i18n-parity.ts:437-440 | a quote stands alone if and only if no such literal begins with it |
| LexerRun.Lex | scripts/check-i18n-parity.ts:385-478 | the cursor loop with its stack of substitutions ends, and gives the tokens of the text's one reading by the grammar and the text with each comment blanked |
| LexerRun.Run.Turn | scripts/check-i18n-parity.ts:423-469 | each turn moves the cursor on and takes the reference's next piece, tokens and comment spans pushed |
| LexerRun.Run.Chunk | scripts/check-i18n-parity.ts:394-412 | one template chunk, up to the closing backtick, the next substitution, or the end of the text |
| LexerRun.Run.Quoted | scripts/check-i18n-parity.ts:433-440 | a quoted literal, or its quote alone when it does not close on its line, as the reference cut that `LexerGrammar.StringIsRead` and `LexerGrammar.QuoteAloneIff` are about |
| LexerRun.Run.RegexAt | scripts/check-i18n-parity.ts:445-448 | a regex literal is taken exactly when one closes on its line |
| LexerRun.ScanRegex | scripts/check-i18n-parity.ts:481-495 | the scan finds the end the recursive definition gives, classes and escapes included, or the start when none closes |
| LexerRun.CutIsBlanked | scripts/check-i18n-parity.ts:471-477 | the code between the comment spans, with a space for each, is the blanked text, and the spans are ordered and disjoint |
| LexerBlanking.SameTokensIffStaysOpen | scripts/check-i18n-parity.ts:369-384 | lexing the blanked text gives the same tokens if and only if every literal given up on stays open in it |
| LexerBlanking.BlankingKeepsTokens | scripts/check-i18n-parity.ts:369-384 | so wherever no literal is given up on, blanking comments changes no token |
| LexerBlanking.BlankingMayCloseALiteral | scripts/check-i18n-parity.ts:437-440 | a comment over two lines between two apostrophes: two punctuators before blanking, one string after |
| LexerTemplates.TokensNest | scripts/check-i18n-parity.ts:441-467 | of any text, the template chunks nest as heads, middles and tails with brace counts never below zero, and the open heads are the lexer's own stack |
| LexerTemplates.LexedTokensNest | scripts/check-i18n-parity.ts:385-469 | so the tokens of every text nest to the end, which is all the scan for a template's next chunk asks |
| LexerTemplates.NextChunkCloses | scripts/check-i18n-parity.ts:1039-1044 | the tokens between two successive chunks of one template are brace-balanced, and the second is its middle or tail |
| LexerTemplates.FindChunk | scripts/check-i18n-parity.ts:1039-1044 | the scan from a head finds that template's next chunk; when there is none, the text ends inside the substitution |
| Brackets.OpenerOf | scripts/check-i18n-parity.ts:505-513 | from a closer, the index is the one opener with a balanced list between the two, and -1 if and only if there is none |
| Brackets.ListItems | scripts/check-i18n-parity.ts:520-539 | the loop gives the items of the reference split, with and without angle brackets: those of the tokens up to the first closer of nothing among them, split at the commas outside any bracket |
| Brackets.SplitOfAny | scripts/check-i18n-parity.ts:520-539 | for any tokens, balanced or not, angle brackets counted or not: rejoined with commas the items are the tokens read, up to one comma at the end; no item has a comma outside its brackets, and only the last may leave one open |
| Brackets.ItemsRejoin | scripts/check-i18n-parity.ts:520-539 | the split stops at the closing bracket; rejoined with commas the items are what it read, up to one trailing comma; each is balanced with no comma outside its brackets |
| Brackets.ItemsOfMatch | scripts/check-i18n-parity.ts:515-539 | for a matched pair, the items are those of exactly the tokens strictly between |
| Brackets.ItemsBefore | scripts/check-i18n-parity.ts:505-539 | backward and forward matching agree: the opener found from a closer lists the tokens between the two |
| JsonText.NothingRepeatsIffDistinct | scripts/check-i18n-parity.ts:102-108 | nothing is reported if and only if within every object at any depth the decoded keys differ |
| JsonText.EscapesAsWritten | scripts/check-i18n-parity.ts:115-120 | the two-character escapes are the eight of JSON, each standing for its unit |
| JsonText.HexIsTheUnit | scripts/check-i18n-parity.ts:115-120 | the four digits after `\u` are the hexadecimal digits of the unit they stand for, the first the highest |
| RepeatedKeys.RepeatsAreShown | scripts/check-i18n-parity.ts:102-158 | what is reported is, in document order, each member whose key an earlier member of its object has, once, shown by its way from the root, keys joined by dots and indexes in brackets |
| RepeatedKeys.DecimalReadsBack | scripts/check-i18n-parity.ts:143 | an index is shown in decimal digits that read back as it, with no zero in front |
| DuplicateKeys.DuplicateKeys | scripts/check-i18n-parity.ts:109-158 | for every tree, repeated keys allowed, and every legal layout of it: in document order exactly the ways to the second and later writings of a key in one object, and nothing if and only if all keys of each object differ |
| DuplicateKeys.Walker.ReadValue | scripts/check-i18n-parity.ts:121-155 | the cursor ends just past the value, never outside the text, and the value's repeats are appended |
| DuplicateKeys.Walker.ReadString | scripts/check-i18n-parity.ts:115-120 | the string at the cursor is read as JSON means it, escapes decoded, and the cursor ends past its quote |
| DuplicateKeys.Walker.ReadMembers | scripts/check-i18n-parity.ts:125-138 | the members of an object, up to its closing brace |
| DuplicateKeys.Walker.ReadElements | scripts/check-i18n-parity.ts:142-148 | the elements of an array, each under its index, up to its closing bracket |
| Flatten.Flattener.Flatten | scripts/check-i18n-parity.ts:81-95 | the recursion that fills one map in place is the recursive definition over the parsed entries |
| Flatten.ParsingKeepsLeaves | scripts/check-i18n-parity.ts:97-108 | where no key is written twice, parsing keeps every string leaf of the text, by route and in order |
| Flatten.LastWritingStands | scripts/check-i18n-parity.ts:97-108 | of a key written more than once in an object, parsing keeps the value of the last writing |
| Flatten.DottedIsInjective | scripts/check-i18n-parity.ts:87 | dotted paths of non-empty, dot-free keys are equal only for equal routes |
| Flatten.DottedIsJoined | scripts/check-i18n-parity.ts:87 | a dotted path is the route's keys with a dot between each two, but that empty keys at its front leave nothing |
| Flatten.FlattenedSetsLeaves | scripts/check-i18n-parity.ts:86-93 | flattening sets, in order, the dotted path of every string leaf reached through objects, and nothing else |
| Flatten.FlattenLosesNothing | scripts/check-i18n-parity.ts:81-108 | if no key repeats and every key is non-empty and dot-free, the entries of the map are in bijection with the string leaves, each path looking up its leaf |
| WritePath.AscendingDefects | packages/extension/src/modules/checkpoint/beforeRunCheckpoint.ts:150-207 | a path that never goes back in the order of steps has no defect but a lease taken and not given back |
| WritePath.DefectsAreTheRules | packages/extension/src/modules/checkpoint/beforeRunCheckpoint.ts:150-207 | the defects of any run are exactly the ordered pairs it inverts, the deliverability read after the question, a lease taken and never given back, and a step past its result |
| WritePath.LogDefects | packages/extension/src/modules/checkpoint/beforeRunCheckpoint.ts:150-207 | the same of any path a run can have taken |
| WritePath.LogKeepsOrder | packages/extension/src/modules/checkpoint/beforeRunCheckpoint.ts:150-207 | of two steps a run made, the earlier one is over before the later one is first made |
| AutopilotRun.Run.Gate | packages/extension/cli/sandforge-autopilot.ts:957-1090 | the run goes on past its gate exactly when it is a real one and no reason refuses it; the reasons, each on its own, are the last scope refused or failed, more rows than `--max-total`, another refusal, the mute's and the fit's |
| AutopilotRun.Run.CheckAndWrite | packages/extension/cli/sandforge-autopilot.ts:1149-1172 | writes exactly if the lease, read back, holds; the lease ends held exactly when the process is ended before it is asked back |
| AutopilotRun.Run.Release | packages/extension/src/modules/forge/AutomationMuteLease.ts:718-729 | the lease is asked back once, and ends given back, or with some of it still assigned; a second asking changes nothing |
| AutopilotRun.Run.MakeCalls | packages/extension/cli/sandforge-autopilot.ts:586-620 | the executor's calls up to a stop heard, a failure or the end of the process, with what was told of and what was written unheard |
| AutopilotRun.Run.WriteOnce | packages/extension/cli/sandforge-autopilot.ts:588-619 | the run counts as having written exactly when an answer told of a record |
| AutopilotRun.Run.Settle | packages/extension/cli/beforeRunCheckpoint.ts:326-327 | the checkpoint is deleted only when nothing is known written and its deletion succeeds |
| AutopilotRun.Run.RunThrough | packages/extension/cli/sandforge-autopilot.ts:1108-1189 | what a run does, of every step and every way it can end, as a condition on what the world answers |
| AutopilotRun.Autopilot | packages/extension/cli/sandforge-autopilot.ts:771-1189 | over every refusal, throw, lost answer, stop and second stop, answer by answer: exactly when a record is written, a checkpoint and a lease taken, and in what order; what refuses a run; a checkpoint asked for is taken before the first write; what was told of and what was lost; exactly when the lease is left held, given back or in part; one settlement unless the process was ended, and exactly when the checkpoint is deleted, and when it is though records were written |
| AutopilotRun.MadeAreTheFirst | packages/extension/cli/sandforge-autopilot.ts:586-620 | the calls made are the first of the plan's: none from where a stop is heard, none past a failure, and nothing else ends them |
| AutopilotRun.NothingUncounted | packages/extension/cli/sandforge-autopilot.ts:588-620 | every record of the calls made, up to the one the process was ended in, is told of or lost, and none is both |
| AutopilotRun.LostAnswerLosesCheckpoint | packages/extension/cli/sandforge-autopilot.ts:600-617 | some lost answers cost a run its checkpoint, records written, if and only if it takes one, comes to its writes with rows to write, and could delete it |
| AutopilotRun.SecondSignalLeavesLease | packages/extension/cli/sandforge-autopilot.ts:1096-1097 | some second signal leaves the lease held if and only if the run, let be, would take one |
| PanelRequests.PanelHost.Request | packages/extension/cli/panelHost.ts:345-378 | a request is waited for under its own id, its response type the one given or else its own type followed by `:response` |
| PanelRequests.PanelHost.PostMessage | packages/extension/cli/panelHost.ts:305-312 | a posted message takes from the open requests exactly the one whose id it carries, if it is its response, `bridge:error` or ends in `:error`, whichever order the waiters hear it in |
| PanelRequests.PostedCloses | packages/extension/cli/panelHost.ts:187-197 | and resolves that request alone: answered by its response, refused by `bridge:error`, failed by any other `:error`, with the time it waited |
| PanelRequests.PanelHost.GiveUp | packages/extension/cli/panelHost.ts:372-375 | a timer settles its own request as unanswered |
| PanelRequests.OpenRequestSettles | packages/extension/cli/panelHost.ts:187-197 | over any run an open request gets exactly the reply its events say, and is waited for exactly until then |
| PanelRequests.ClosedStaysClosed | packages/extension/cli/panelHost.ts:361-365 | a settled request gets no second reply |
| PanelRequests.RequestSettlesOnce | packages/extension/cli/panelHost.ts:345-380 | in every run of a host, whatever else happens, each request is replied to at most once, by the first later event that settles it, and the waiters are the open requests |
| PanelRequests.FirstEndingReplies | packages/extension/cli/panelHost.ts:345-380 | in every run of a host a request stays open exactly while no later event is its timer or a message with its id of one of the three kinds; the first such event ends it, once, its kind decides the outcome, and the wait is the time gone by since the request |
| PanelRequests.RequestSettlesExactlyOnce | packages/extension/cli/panelHost.ts:345-380 | it has its one reply if and only if a message settled it or its timer rang, and so in every run that lasts past its timer with no timer overdue |
| PanelRequests.RepliesKeepTime | packages/extension/cli/panelHost.ts:366-375 | an unanswered request waited at least its host's wait and its own timeout; an answer carries the request's id and is late exactly past the timeout |
| StopSignals.Stoppable.constructor | packages/extension/cli/stopSignals.ts:58-85 | every stop signal is heard, the parent's message only on a channel opened for it, and operations are watched |
| StopSignals.Stoppable.OnStop | packages/extension/cli/sandforge-checkpoint.ts:3585-3591 | every running checkpoint operation is aborted and no other, in whatever order they are listed |
| StopSignals.Stoppable.Signal | packages/extension/cli/stopSignals.ts:67-74 | the first signal releases the listeners and stops; one not heard ends the process |
| StopSignals.Stoppable.Message | packages/extension/cli/stopSignals.ts:75-83 | only the stop message on a heard channel stops, as an interrupt does |
| StopSignals.Stoppable.Register | packages/extension/src/core/engine/BackgroundOperationRegistry.ts:77-98 | an operation is listed under its id, and aborted at once when it is a checkpoint's and the stop came before it |
| StopSignals.Stoppable.Mark | packages/extension/src/core/engine/BackgroundOperationRegistry.ts:100-116 | a run that settles marks what its id lists as running, completed or failed, whichever run that is |
| StopSignals.Stoppable.Cancel | packages/extension/src/core/engine/BackgroundOperationRegistry.ts:151-160 | a cancel aborts what its id lists as running and leaves what has ended as it ended |
| StopSignals.Stoppable.Finish | packages/extension/cli/sandforge-checkpoint.ts:3592-3598 | the request is over with the signal that stopped it, if one did; nothing is heard or watched any more |
| StopSignals.NeverAfterRelease | packages/extension/cli/stopSignals.ts:61-66 | once released, by a stop or the end, the stop is never called, and a signal ends the process |
| StopSignals.StopsOnce | packages/extension/cli/stopSignals.ts:44-56 | over every order of events the stop is called for the first stop before the end and no other; the process is ended exactly by a signal after that |
| StopSignals.StopReachesAll | packages/extension/cli/sandforge-checkpoint.ts:3574-3599 | over every order of events whose starts are safe, once the stop was called every checkpoint run was aborted or had settled, one started after the signal included; ids may be given again |
| StopSignals.OnlyAskedAborted | packages/extension/cli/sandforge-checkpoint.ts:3585-3591 | and over every order of events no run is aborted but a checkpoint's once the stop was called, or one whose id was cancelled |
| StopSignals.SafeIffEveryStopReaches | packages/extension/src/core/engine/BackgroundOperationRegistry.ts:77-116 | no weaker guard will do: a start is safe if and only if every stop that may follow it reaches every checkpoint run |
| StopSignals.UnsafeStartEscapes | packages/extension/src/core/engine/BackgroundOperationRegistry.ts:95-116 | after an unsafe start some stop misses a run: the older one is no longer listed, or its end is marked on the newer one |
| ListMerge.BothOfLoop | packages/extension/cli/cloneRunParts.ts:213-215 | two lists as one, each entry once in first-mention order, cut to the limit |
| ListMerge.OnceIsFirsts | packages/extension/cli/cloneRunParts.ts:213-215 | what is kept of a list is each entry where it is first mentioned, the first so many of them |
| ListMerge.BothOfRegroups | packages/extension/cli/cloneRunParts.ts:213-215 | dedupe-then-cut is independent of grouping, although each step cuts |
| ListMerge.CutIsEnough | packages/extension/cli/cloneRunParts.ts:213-215 | a list already cut to the limit still fills what room is left, whatever was seen before |
| RunMerge.CombinedRegroups | packages/extension/cli/cloneRunParts.ts:238-266 | combining two results of an object is associative in every field |
| RunMerge.MergedUndoObjects | packages/extension/cli/cloneRunParts.ts:228-269 | the loop over a map in insertion order gives one entry for each object named, in first-mention order, each what the results of its object come to |
| RunMerge.MergedSums | packages/extension/cli/cloneRunParts.ts:228-269 | an object with one result is that result; of more, every counter is their sum, each list holds each of their entries once in first-mention order, reasons and file names the first five, holders are there if and only if one result lists some, and an optional field if and only if one result has it |
| RunMerge.EachObjectOnce | packages/extension/cli/cloneRunParts.ts:222-227 | each object is listed once, by its first mention |
| RunMerge.MergeConserves | packages/extension/cli/cloneRunParts.ts:238-266 | every counter, the optional ones and the file count included, sums to what the results held |
| RunMerge.MergeRegroups | packages/extension/cli/cloneRunParts.ts:222-227 | merging merged results is merging them all: however removals are grouped, they say the same |
| JournalParts.PartLines | packages/extension/cli/cloneRunParts.ts:64-108 | the line loop gives one part for each header, with what the lines up to the next one say |
| JournalParts.HeaderSays | packages/extension/cli/cloneRunParts.ts:75-84 | a part begins at each line that starts as a header, at the time the line names when it names one that is not empty |
| JournalParts.IdsSay | packages/extension/cli/cloneRunParts.ts:94-105 | a line names at most one record written to: exactly the second item of a `p` array or the third of a `g` array, where it is an id |
| JournalParts.IdsAsWritten | packages/extension/cli/cloneRunParts.ts:30 | an id is fifteen letters or digits, or eighteen |
| JournalParts.TimeSays | packages/extension/cli/cloneRunParts.ts:67-103 | a line holds a time exactly where it is an end with one, or an `x` array whose fourth item is one, and it reads as a date |
| JournalParts.PartsReadApart | packages/extension/cli/cloneRunParts.ts:74-84 | a part is read as if its lines stood alone |
| JournalParts.PassedOver | packages/extension/cli/cloneRunParts.ts:85 | lines before the first header change nothing |
| JournalParts.UnreadLineChangesNothing | packages/extension/cli/cloneRunParts.ts:61-62 | nor does an unreadable line, anywhere in the journal |
| JournalParts.EndIsLatest | packages/extension/cli/cloneRunParts.ts:67-72 | a part's end is the first of its latest valid times, and there is none exactly when no line holds one |
| JournalParts.JournalReadsBack | packages/extension/cli/cloneRunParts.ts:64-108 | a journal reads back as written: a part for each header with when it began, exactly the ids its lines wrote to, in order, and the latest of its times |
| CommandLine.EqualsAt | packages/extension/cli/commandLine.ts:50 | the place of the first equals sign, or -1 when there is none |
| CommandLine.UnreadArgument | packages/extension/cli/commandLine.ts:36-68 | the index loop refuses a line exactly where the left-to-right reading stops, for the same word and reason, past the command's own words |
| CommandLine.AcceptedIffSpelled | packages/extension/cli/commandLine.ts:26-35 | a line is accepted if and only if it is switches, and flags each with a value that does not start with two dashes; and it is read in one way |
| CommandLine.RefusedIff | packages/extension/cli/commandLine.ts:36-68 | a line is refused, and for this reason, if and only if past switches and flags with their values stands a flag with no value, or a word that is neither: a switch or a flag given with an equals sign, another word with a dash, or none |
| CommandLine.Collect | packages/extension/cli/sandforge-autopilot.ts:372-378 | the word after every place the flag stands |
| CommandLine.Get | packages/extension/cli/sandforge-autopilot.ts:368-371 | the first of these, or the fallback |
| CommandLine.Values | packages/extension/cli/sandforge-checkpoint.ts:702-714 | the reader that steps over what it takes, and refuses a flag with no value |
| CommandLine.ReadersAgreeIff | packages/extension/cli/sandforge-autopilot.ts:368-378 | looking for a flag anywhere gives, on every accepted line, the values the left-to-right reading gives it, if and only if the flag starts with two dashes |
| CommandLine.SteppedAgrees | packages/extension/cli/sandforge-checkpoint.ts:702-714 | so does the stepping reader, for such a flag |
| CommandLine.SteppedRefusesIff | packages/extension/cli/sandforge-checkpoint.ts:702-714 | it refuses any line if and only if its flag stands somewhere with no value after it, and otherwise takes the word after every place the flag stands |
| CommandLine.SwitchReaderAgreesIff | packages/extension/cli/sandforge-autopilot.ts:362-365 | looking for a switch anywhere says whether it was given, on every accepted line, if and only if it starts with two dashes or the command takes no values |
| HiddenKey.KeyReader.OnData | packages/extension/cli/prompt.ts:108-115 | reading a chunk letter by letter, surrogate pairs whole, is the fold over its units; once answered a chunk changes nothing |
| HiddenKey.KeyReader.OnEnd | packages/extension/cli/prompt.ts:116 | a terminal that closes first gives up, and only then |
| HiddenKey.KeyReader.Settle | packages/extension/cli/prompt.ts:100-107 | the answer is given once, with raw mode off and the listeners gone |
| HiddenKey.ChunksDoNotMatter | packages/extension/cli/prompt.ts:97-119 | how the keys are split into chunks never changes the answer |
| HiddenKey.KeptAreThoseThatStay | packages/extension/cli/prompt.ts:76-79 | the line holds exactly the letters after which backspaces never outnumber letters |
| HiddenKey.AnswerIsWhatStays | packages/extension/cli/prompt.ts:73-85 | for all keys: the first Enter enters those letters in order; Ctrl-C, or Ctrl-D when none is left, gives up |
| HiddenKey.BackspaceTakesLetterIff | packages/extension/cli/prompt.ts:112 | Backspace undoes the last letter if and only if it is one UTF-16 unit |
| HiddenKey.PairIsOneLetter | packages/extension/cli/prompt.ts:109 | two units are one letter if and only if they are the surrogate pair of a code point past the basic plane |

## Left out

- Reading files: the TypeScript syntax tree, specifier resolution, directory walking and the
  allowlist of `scripts/audit-orphan-modules.ts`; the walk starts from each module's facts, and the
  emptiness check from its statements.
- `functionAt`, `enclosingParameter`, the regex checks, the word lists and the printing of
  `scripts/check-i18n-parity.ts`: heuristics over tokens, and report text.
- Brackets.ItemsRejoin: for balanced tokens and the plain reading; of all tokens, and with angle
  brackets, `Brackets.SplitOfAny` says what the items are, though an arrow or a comparison in a
  parameter's default can hold a `>` that closes nothing of it.
- DuplicateKeys.DuplicateKeys: a value that is neither string, object nor array is any run without
  space, comma or closer, which holds every literal of section 3 and 6 of RFC 8259 and more.
- Flatten.Parsed: JavaScript lists integer-like keys first; the model keeps the order of writing,
  which no dotted path depends on.
- The engines a run calls (executor, fit, mute lease, checkpoint take, store) are their contracts at
  the call sites: each is an answer the run is given, and the run's own steps are modelled. Of the
  fit that is that it keeps no more rows than the plan counted, a source that holds more being
  refused (`packages/extension/src/modules/autopilot/autopilotFit.ts:174`, `:417` and `:786`); of the
  executor, that it reads, and so writes, none past those counted
  (`packages/extension/src/modules/autopilot/AutopilotExecutor.ts:2095` and `:2162`). Emails, storage
  and API budgets are one refusal.
- AutopilotRun.Run.Release: says that some of the lease stays assigned, not which sets; what a later
  run makes of them is the lease's own.
- AutopilotRun.Autopilot: the process is ended by a second signal alone; a power cut, or a failure of
  the process itself, is not modelled, and where one comes its outcome is that of such a signal.
- AutopilotRun.Run.Gate: logs the run's reads once, as its first step; what a fit reads again before
  the question is not logged apart.
- Messages, exit codes, JSON printing and help texts.
- A panel host with no panel registered rejects its requests at once; randomness is that ids are not
  given twice.
- `mergedPreviewObjects`, `stillLeft`, `laterPartsOf` and `spansOf` of
  `packages/extension/cli/cloneRunParts.ts`: the first repeats the merge that is proved, the others
  are single filters.
- JournalParts.PartLines: takes each line with what it parses to; the JSON parser itself, and the
  splitting of a file into lines, are not modelled, and a date is whatever the clock reads.
- JournalParts.JournalReadsBack: so the round trip is from what the lines say, not from their text.
- The registry's eviction of finished operations, which neither a stop nor an abort looks at; its
  progress events and its holds before a start.
- StopSignals.StopsOnce: a signal with no listener of the request ends the process, as it does where
  nothing else of the process listens.
- Bytes: a chunk of the terminal is text already; decoding a buffer that splits a letter is not
  modelled.
