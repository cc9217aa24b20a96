# Verified models of the astools runtime core

This project models the logic that decides what the C runtime does with tools: who
holds a pooled instance, what a call line means, which tool a reference resolves to,
what arguments and paths a tool receives, and how messages are framed, encoded and
compared. Each module follows one source file or one group of files. Code that
updates state or runs a loop is a method (or a class) proved against a specification
function; the laws about those functions are lemmas. Every lemma carries
`{:induction false}`, so every induction is written out.

`dafny verify dfyconfig.toml` checks the whole project.

| modules | subject |
|---|---|
| `Text`, `Types`, `Sorting` | shared vocabulary: buffers, numerals, xCDN values and types, sorting by a key |
| `Gbnf`, `CallLine`, `GrammarSound`, `GrammarExact`, `Spelling`, `GrammarLanguage` | the grammar exporter, the call-line recognizer, their agreement, which registries it covers, and the language of the grammar on characters alone |
| `Pool`, `Admission`, `Tasks`, `Runtime`, `RuntimePool`, `RuntimeSafe`, `RuntimeRuns`, `Refusals`, `Service` | pooled instances, invocation slots, asynchronous tasks, descriptor references, the step machine that interleaves them, and who is served by it |
| `Registry`, `RegistryScan`, `RegistrySearch`, `RegistryRuns`, `RegistryFlags`, `Catalogue` | the tool table over runs of scans and switches, what a scan and a switch make of it, which tool a reference means, its raw flags, and the catalogue |
| `Utf8`, `Json`, `JsonCodec`, `JsonRoundTrip`, `JsonGrammar` | the JSON codec, its round trips, and the grammar of RFC 8259 |
| `Schema`, `SchemaLaws`, `SchemaRespects`, `SchemaSupport`, `SchemaProfile`, `SchemaMeaning`, `Doubles` | schema equality, the profile check, the budgeted validator, and what every keyword means |
| `Duplicates`, `Args`, `ArgsLaws`, `Verdicts`, `ArgsMeaning` | argument checking with default injection, and exactly what passes it |
| `NodeStore`, `Layouts`, `Copies`, `StoreSteps`, `ArgStore`, `Standing` | argument trees as nodes with identity: copied, completed and rewritten in place beside the command's defaults |
| `Paths`, `PathParts`, `Canonical`, `Grants`, `PathWalk`, `PathWalkLaws`, `PathWalkAgain` | path containment by components and canonical form, effective grants, the policy walk |
| `Frames`, `FrameHeaders`, `FrameLaws`, `LineLaws` | length-delimited and line messages over any chunking, and which bytes announce one |
| `Semver`, `SemverOrder`, `Precedence` | versions and their precedence, by section 11 of Semantic Versioning 2.0.0 |
| `Discovery` | bounded ranking and the budgeted pick |
| `Calendar`, `Timestamps`, `TimestampText`, `Base64`, `Base64Bits`, `Rounds`, `Digest`, `DigestExample` | calendar arithmetic, RFC 3339, Base64, streaming SHA-256 |

## How the concurrent part is modelled

`Runtime.Step` is one locked region of one thread: a turn of an acquisition, a release,
a reference taken or dropped, one stage of a supervision pass, of a scan, of a listing.
`Runtime.Run` lets any number of threads take such steps in any order. A thread's
activity says what it holds; `RuntimeSafe` and `RuntimeRuns` prove that the shared
counters always equal what the threads hold, from which the safety results follow.
The regions themselves are methods of `ProcessPool` and `SlotGate`, proved to compute
the functions the steps are made of.

## How argument trees are modelled

`Args.Validate` and `PathWalk.Preflight` say, on value trees, what validation and the
policy walk make of the arguments; the laws in `ArgsLaws`, `PathWalkLaws` and `Verdicts`
are about them. `ArgStore.Store` is the code that does it: a heap of node and value cells
with addresses, in which defaults are deep-copied, fields appended and path texts replaced
where they stand, while any allocation may fail. Its methods refine the two functions
(`NodeStore.Erase` is the value tree of a tree of cells), and `ArgStore.Store.Prepare` adds
what only addresses can say: the command's own default trees are untouched and share no
cell with the arguments, however the call ends.

## How meanings are pinned

A method proved against a specification function is as right as that function. For each
decision there is therefore a second account that shares nothing with the first, and a
lemma that the two agree in both directions: spellings on characters for the grammar
(`Spelling`), threads and positions for the pool (`Service`), numbers and identifiers for
versions (`Precedence`, `RegistrySearch`), packages and flags for the tool table (`RegistryScan`), components for paths (`PathParts`), keywords on
exact numbers for schemas (`SchemaProfile`, `SchemaMeaning`), types on values for arguments (`ArgsMeaning`),
RFC 8259 for JSON (`JsonGrammar`), header lines for frames (`FrameHeaders`), positions for
timestamps (`TimestampText`), bits for Base64 (`Base64Bits`), and the published example for
SHA-256 (`DigestExample`).

## Findings

- Schema equality does not survive rewriting in one case: a double whose printed form
  is an integer beyond 2^53 comes back as an integer that the comparison refuses to
  match (`SchemaSupport.WideWholeLost`). `SchemaSupport.ReparsedEqual` gives the exact
  condition.
- The profile check does not respect equality: `1` and `1.0` are equal, but only the
  first is a count (`SchemaSupport.SupportDiffers`). `SchemaSupport.SupportRespectsEqual`
  gives the exact condition.
- The raw `enabled` flag of a tool that does not fit the platform may change without a
  new revision: switching on a tool that was never off does it
  (`RegistryFlags.SilentToggleHappens`). `RegistryFlags.SilentToggleExactly` gives the exact
  condition; a scan never does it (`RegistryFlags.ScanNeverSilent`), and what can be
  resolved never changes so (`RegistryRuns.StepView`).
- A sentence of the exported grammar may contain a NUL inside a string or a nested object;
  as C text it is cut there and recognized as no call. One command with one required string
  is enough (`GrammarExact.SayLosesOne`). `GrammarExact.SoundExactly` gives the exact
  condition on the listed commands, `GrammarSound.SentencesAreCalls` the one on a sentence.
- The hashed and the pairwise duplicate detector agree on whether a name repeats, but not
  on which name they report: on `a b b a` and 61 times `c` the table reports `b`, and the
  pairwise search, run when the table cannot be allocated, reports `a`
  (`Duplicates.CrossedDiffers`). `Duplicates.ReportsDiffer` gives the exact condition.

- Containment of squeezed paths is containment of components with one exception: a path that
  begins with two slashes never lies under one that begins with one, or the other way round,
  although both name the same components (`PathParts.DoubleSlashApart`).
  `PathParts.UnderComponents` gives the exact condition; canonical paths never begin so
  (`PathParts.UnderClean`).

## Model

| member | source | states |
|---|---|---|
| `GrammarSound.SentencesAreCalls` | src/gbnf.c:195-273 | every sentence derivable from the exported grammar is one line ending in its only newline, and the recognizer returns exactly the listed tool id, command and whole object it spells (or nothing when a NUL cuts the C text) |
| `GrammarSound.EveryCommandCallable` | src/gbnf.c:234-273 | no listed command is left out: some sentence of the grammar calls each of them |
| `GrammarSound.EmptyRegistry` | src/gbnf.c:234-273 | with no commands the only sentence is `CALL ` and a newline, which is recognized as no call |
| `GrammarSound.CommandShape` | src/gbnf.c:195-230 | whatever the parameter types, a command production derives the call, a space, and braces around text in which every brace and quote is balanced |
| `GrammarSound.ValueQuiet` | src/gbnf.c:151-193 | the production of every type at every nesting depth derives only text that leaves the brace and quote scanner where it was |
| `GrammarSound.ReadBack` | src/callline.c:50-159 | a call line assembled from an id, a command and a balanced object is read back exactly |
| `GrammarSound.CutShort` | src/callline.c:125-159 | an object cut by a NUL never closes, so the line is skipped |
| `GrammarExact.SoundExactly` | src/gbnf.c:38-50 | every sentence of the exported grammar is read back as a call if and only if every listed command has either no parameters, or a required one and none, at any depth, of a type spelled as text or as a free object |
| `GrammarExact.LostSentence` | src/gbnf.c:195-230 | any other command has a sentence with a NUL, which is recognized as no call |
| `GrammarExact.SayLosesOne` | src/gbnf.c:38-50 | a registry of one command with one required string has such a sentence |
| `GrammarExact.CleanYield` | src/gbnf.c:151-193 | a production made of integers, numbers, blanks, literals without NUL and their combinations derives no NUL |
| `GrammarLanguage.SentencesExactly` | src/gbnf.c:234-273 | the language of the exported grammar: a text can be derived exactly when it is the keyword, a listed id and command, and arguments that spell its parameters: `{}` for none, any balanced object when none is required, else every required one in order and then any of the optional ones in order |
| `GrammarLanguage.CommandSpeaks` | src/gbnf.c:195-230 | the production of one command derives exactly its call and such arguments |
| `GrammarLanguage.ValueSpeaks` | src/gbnf.c:151-193 | the production of a type at a depth derives exactly the spellings of the type: an optional minus and digits, digits with an optional fraction and exponent, `true` and `false`, a prefix letter and a string, a quoted enum value, a bracketed list of item spellings, a balanced object |
| `GrammarLanguage.StrSpeaks` | src/gbnf.c:38-50 | a string is quotes around plain characters, escape pairs and four-digit codes, and nothing else is derived |
| `GrammarLanguage.NumSpeaks` | src/gbnf.c:38-50 | a number is an optional minus, digits, an optional point and digits, an optional exponent with its optional sign |
| `GrammarLanguage.ObjSpeaks` | src/gbnf.c:38-50 | an object is balanced braces on one line around plain characters, strings and objects |
| `GrammarLanguage.QuotedExactly` | src/gbnf.c:120-147 | the token of an enum value is quotes around its characters, with a backslash pair for a quote, a backslash, a newline, a carriage return and a tab alone |
| `GrammarSound.EnumLiteralMeaning` | src/gbnf.c:120-147 | undoing the two layers of escaping of an enum literal gives the quoted token and then the enum value itself |
| `GrammarSound.RuleNamesDistinct` | src/gbnf.c:65-112 | no two commands share a rule name and none takes the name of a shared terminal |
| `GrammarSound.NamesSuffice` | src/gbnf.c:65-96 | up to a million commands, name allocation cannot fail, however ids and commands collide |
| `Gbnf.ExportCommands` | src/gbnf.c:234-273 | the exporter writes exactly the concrete text of the grammar whose language `GrammarLanguage.SentencesExactly` gives, or fails when names run out |
| `Gbnf.TerminalText` | src/gbnf.c:38-50 | the six shared rules are rendered as exactly the literal text of `k_terminals` |
| `Gbnf.EmitValue` | src/gbnf.c:151-193 | the recursive emitter appends the text of the production of a type, whose language `GrammarLanguage.ValueSpeaks` gives |
| `Gbnf.EmitEnumLit` | src/gbnf.c:120-147 | the character loop appends the grammar literal of the quoted token |
| `Gbnf.EmitCommand` | src/gbnf.c:195-230 | a command rule is written with its required parts in order and then its optional ones |
| `Gbnf.BuildRules` | src/gbnf.c:98-112 | the rule table holds the first free name of each command in order |
| `Gbnf.MakeRuleName` | src/gbnf.c:65-96 | the chosen name is the first candidate that no earlier rule took |
| `CallLine.ParseLineSound` | src/callline.c:50-123 | a recognized line is blanks, the keyword, blanks, a reference, a dot, a command, blanks, one closed object, and prose |
| `CallLine.ParseLineComplete` | src/callline.c:50-123 | every line of that shape is recognized as that call |
| `CallLine.ParseCallLine` | src/callline.c:50-123 | the cursor loop computes the line recognizer |
| `CallLine.ScanObject` | src/callline.c:85-123 | the brace and quote automaton finds the first closing brace |
| `CallLine.ParseOutput` | src/callline.c:125-159 | the first line of the output that is a call is returned |
| `Pool.ProcessPool.TryAcquire` | src/process_pool.c:24-86 | one turn of an acquisition under the pool mutex: the outcome, the list, the count and the waiters; `Service.ServedExactly` says when it grants |
| `Pool.ProcessPool.Choose` | src/process_pool.c:44-72 | a library instance is shared, an idle process is reused, a new one is created within the pool limit and the key limit; `Service.ServedWith` says which one is handed out |
| `Service.ServedExactly` | src/process_pool.c:24-86 | over every run: a turn for an instance that is neither cancelled nor late ends with one if and only if a fitting instance is shared or held by no thread, or there is memory and fewer fitting positions than the manifest allows and fewer than 64 instances; otherwise it waits exactly when the manifest's limit is reached |
| `Service.EmptyPoolServes` | src/process_pool.c:44-72 | an empty pool serves whoever has memory, whatever the limit |
| `Service.ServedWith` | src/process_pool.c:44-72 | what is handed out: a fitting instance that was free and stays in its place, or a new one of that tool, never seen before, in front of the others |
| `Pool.ProcessPool.PutBack` | src/process_pool.c:88-94 | a release lowers the busy count of that instance and changes nothing else |
| `Pool.ProcessPool.PinForReaping` | src/worker.c:12-22 | the supervisor's fixed array receives exactly the idle processes, which are now busy |
| `Pool.ProcessPool.RestoreIdle` | src/worker.c:41-45 | an examined instance that stays is idle again |
| `Pool.ProcessPool.Remove` | src/worker.c:28-40 | an unlinked instance leaves the list and the count together |
| `Pool.ProcessPool.TakeAll` | src/worker.c:82-109 | stopping takes every instance and leaves an empty pool |
| `Admission.SlotGate.TryEnter` | src/execution_queue.c:17-51 | one turn of a slot acquisition: cancellation first, then the deadline, then the slots, then the no-thread refusal |
| `Admission.SlotGate.Exit` | src/execution_queue.c:53-59 | a release gives one slot back and never goes below zero |
| `Service.AdmittedExactly` | src/execution_queue.c:17-51 | over every run: a turn at the gate that is neither cancelled nor late enters if and only if fewer threads than the maximum are between entering and leaving; otherwise it waits, or is refused where no thread may block |
| `RuntimeRuns.AlwaysSafe` | src/process_pool.c:24-94 | the invariant holds after every schedule of every number of threads |
| `RuntimeRuns.StepKeeps` | src/worker.c:7-47 | every step of every activity keeps the invariant, whatever the other threads hold |
| `RuntimeRuns.ExclusiveHolder` | src/process_pool.c:24-94 | in every run a process instance has at most one holder, borrower or reaper, and nothing held is unlinked or freed |
| `RuntimeRuns.BorrowsItsOwn` | src/process_pool.c:12-22 | a borrower only holds an instance of its own package, and of its own content unless it is a library |
| `RuntimeRuns.PoolBounded` | src/process_pool.c:44-72 | the count is the list length and at most 64, a library key has at most one instance, a process key never exceeds its limit |
| `RuntimeRuns.SweepMissesNothing` | src/worker.c:12-22 | after the pinning scan no idle process is left unpinned: the 64-slot array never runs out |
| `RuntimeRuns.CountersExact` | src/execution_queue.c:17-59 | used slots are exactly the admitted unreleased invocations, within the maximum, and both waiter counters count the blocked threads |
| `RuntimeRuns.ReferencesExact` | src/registry.c:84-98 | a descriptor's counter is table slots plus views plus pooled instances plus pins; it is destroyed exactly when that is zero, and nothing dead is touched |
| `RuntimeRuns.QuietHoldsNothing` | src/invoke.c:440-455 | when no thread is at work every slot, wait, busy count and pin has been given back |
| `RuntimeRuns.ClosedLeaksNothing` | src/registry.c:76-98 | after closing, every descriptor ever loaded has been destroyed once and only once |
| `Refusals.RefusalHoldsNothing` | src/invoke.c:278-286 | over every run: a refusal by the gate or the pool changes only the waiter counters, and from then on until it starts anew the thread has no waiter and no busy count, its slot only until its next release and its pin until it is idle; every shared counter is what the other threads hold plus that |
| `Refusals.OnlyReleases` | src/invoke.c:440-455 | after a refusal the thread's state is decided by its own releases alone, whatever the others do |
| `Tasks.DeliveredOnce` | src/execution_queue.c:148-201 | in every interleaving the result strings reach at most one waiter or stay with the `astools_task` that frees them, never both and never neither |
| `Tasks.OneVerdict` | src/execution_queue.c:64-76 | every wait that ends sees the one verdict, after completion; before it waits time out or go on |
| `Tasks.Task.Await` | src/execution_queue.c:148-173 | one turn of a wait: refusal when late, the verdict when done, the strings only the first time they are wanted |
| `Tasks.Task.SetCancelled` | src/execution_queue.c:175-181 | cancelling sets the flag and nothing else |
| `Tasks.Task.Finish` | src/execution_queue.c:64-76 | the end of `task_main` stores result and verdict and sets `done` |
| `Registry.ToolTable.Scan` | src/registry.c:354-520 | the publish phase: the new table with inherited flags, the statistics, and a new revision only when the tables differ |
| `Registry.ToolTable.SetEnabled` | src/api.c:420-459 | switching flips every named tool, recounts, and bumps the revision only when a resolvable flag flipped |
| `RegistryScan.ScanExactly` | src/registry.c:354-503 | a scan from any reachable state: the table becomes, in order, the packages whose version parses and whose id and version no earlier package has; each is off exactly if it was off before, and enabled exactly if it fits the platform, is approved where approval is enforced, and is not off; the revision grows by one exactly when the tables hold different keys or hold one differently often |
| `RegistryScan.SwitchExactly` | src/api.c:420-459 | a switch sets both flags of the tools of that id, and of that version text if one is given, and touches no other; the revision grows by one exactly when the host's wish changes for one of them |
| `Registry.ToolTable.Search` | src/registry.c:533-659 | the table search returns the best match of an id and version, or why there is none: `RegistrySearch.HitExactly` and its companions say which |
| `RegistrySearch.HitExactly` | src/registry.c:522-659 | a search finds a tool if and only if it is the first in the table among the eligible ones that no eligible one is preferred to: releases before pre-releases, then precedence |
| `RegistrySearch.HitIsHighest` | src/registry.c:522-531 | against every other eligible tool: a release if that one is; among the like, major, minor and patch lexicographically no smaller; with equal numbers, no pre-release that section 11 of Semantic Versioning 2.0.0 puts lower |
| `RegistrySearch.BlockedExactly` | src/registry.c:596-645 | with nothing eligible, a refusal names the first of the most preferred disabled tools and who disabled it |
| `RegistrySearch.AbsentExactly` | src/registry.c:596-657 | otherwise the reason is the platform, the version or the id, exactly when a tool of the version, of the id alone, or of neither is there |
| `RegistrySearch.VersionedReference` | src/registry.c:554-594 | a reference with a version asks for that version, whatever the pins say |
| `RegistrySearch.BareReferenceAsks` | src/registry.c:571-594 | a bare reference asks for the version of its first pin, or for any version |
| `RegistrySearch.ReachableTables` | src/registry.c:354-520 | every table that a registry reaches, and every version asked for, is of the kind these results are about |
| `RegistryRuns.ResolvableExactly` | src/registry.c:443-503 | in every reachable state a tool resolves exactly when it is available, not host-disabled and gated, and the statistics count those |
| `RegistryRuns.KeyTextInjective` | src/registry.c:278-297 | two different tool keys never have the same text |
| `RegistryRuns.SameKeysIfNotDiffer` | src/registry.c:301-339 | tables reported as equal hold the same keys equally often, in whatever order |
| `RegistryRuns.StepView` | src/registry.c:443-503 | a scan or switch that keeps the revision keeps the resolvable view, and no step lowers it |
| `RegistryFlags.SilentToggleExactly` | src/api.c:420-459 | a switch changes a raw flag without a new revision if and only if every tool it names already has that host setting and one of them does not fit the platform and carries another flag |
| `RegistryFlags.SilentToggleHappens` | src/api.c:420-459 | scan one package that fits no platform, then switch it on: its flag goes from false to true under the same revision |
| `RegistryFlags.ScanNeverSilent` | src/registry.c:467-503 | a scan that keeps the revision leaves the flag of every tool it finds again |
| `RegistryRuns.RunView` | src/api.c:420-459 | any two states of a run with one revision have one view |
| `RegistryRuns.BestByView` | src/registry.c:526-531 | equal views give every search the same id, version, package and content, whatever the table order |
| `RegistryRuns.RevisionIdentifies` | src/registry.c:533-625 | the same revision resolves every reference to the same id, version, package and content |
| `RegistryRuns.DisabledIsSticky` | src/registry.c:467-480 | a tool the host switched off stays off when a scan finds it again |
| `Catalogue.CatalogueAgrees` | src/selection.c:12-95 | a tool is listed under an id exactly when resolving the bare id returns that tool |
| `Catalogue.CollectOrder` | src/selection.c:40-95 | each id once, priority ids first in their order, the rest ascending |
| `Catalogue.CollectOrderFree` | src/selection.c:27-38 | the catalogue is the same for every order of the table |
| `Catalogue.CollectTools` | src/selection.c:40-95 | the selecting, sorting and reordering loops compute the catalogue |
| `Sorting.SortForgets` | src/selection.c:34-38 | sorting by distinct keys forgets the order of arrival and nothing else |
| `Utf8.EncodeAccepted` | src/json.c:92-113 | every scalar value encodes to one accepted sequence that denotes it |
| `Utf8.AcceptedEncodes` | src/utf8.c:7-43 | every accepted sequence is the encoding of exactly one scalar value: no overlong forms, no surrogates |
| `Utf8.ValidEncodes` | src/utf8.c:45-55 | an accepted text is the encoding of a sequence of scalars |
| `Utf8.EncodesValid` | src/utf8.c:45-55 | the encoding of any sequence of scalars is accepted and decodes to it |
| `Utf8.SurrogatePairs` | src/json.c:438-502 | each scalar beyond the basic plane has exactly one surrogate pair, and combining gives it back |
| `Utf8.CheckValid` | src/utf8.c:45-55 | the index loop decides well-formedness |
| `JsonRoundTrip.ReadStringValid` | src/json.c:438-502 | a decoded string is always well-formed UTF-8, whatever escapes it used |
| `JsonRoundTrip.StringRoundTrip` | src/json.c:734-761 | a written string reads back exactly, whatever follows it |
| `JsonRoundTrip.ValueRoundTrip` | src/json.c:785-824 | a written value, compact or pretty, reads back in any context within the depth cap and leaves exactly what follows |
| `JsonRoundTrip.ParsedRoundTrips` | src/json.c:713-834 | whatever was parsed is written to a text that parses again to the same value up to number spelling, and that rewriting reproduces |
| `JsonRoundTrip.CompactPrintable` | src/json.c:734-824 | compact output has no byte below 0x20 |
| `JsonRoundTrip.RewriteSame` | src/json.c:763-774 | reading a written number as the other kind does not change how the value is written |
| `JsonGrammar.ParseExactly` | src/json.c:713-730 | a text is read as a value if and only if it spells that value by the grammar of RFC 8259: blanks, six structural characters, three literals, numbers, strings with their eight escape letters, codes and surrogate pairs, at most 64 levels, distinct names without NUL, and an integer exactly when it is the decimal numeral of one within 64 bits |
| `JsonGrammar.WrittenText` | src/json.c:785-834 | whatever is written is such a text, of the value it reads back as |
| `JsonGrammar.NumberExactly` | src/json.c:504-570 | a number token has the value that the grammar gives it |
| `JsonGrammar.CodeRead` | src/json.c:419-434 | four hexadecimal digits, small or capital, are read as the number they form |
| `JsonCodec.ParseText` | src/json.c:713-730 | the cursor parser accepts exactly what the grammar function reads to the end |
| `JsonCodec.Reader.Value` | src/json.c:675-711 | one value from the cursor, with the depth restored on success and failure alike |
| `JsonCodec.Reader.ArrayAt` | src/json.c:572-612 | an array at the cursor, refused beyond the depth cap |
| `JsonCodec.Reader.ObjectAt` | src/json.c:614-673 | an object at the cursor, refused beyond the depth cap; a repeated or NUL-holding key is refused |
| `JsonCodec.Reader.StringRaw` | src/json.c:438-502 | the string loop decodes escapes and surrogate pairs and refuses malformed bytes |
| `JsonCodec.Reader.Hex` | src/json.c:419-434 | four hexadecimal digits, consumed only as a whole |
| `JsonCodec.Reader.Number` | src/json.c:504-570 | a number token, an integer when it is spelled as one and fits |
| `JsonCodec.WriteText` | src/json.c:826-834 | the writer appends exactly the specified text |
| `JsonCodec.EmitValue` | src/json.c:785-824 | the recursive writer, compact or indented |
| `JsonCodec.EmitString` | src/json.c:734-761 | the escaping loop |
| `SchemaLaws.EqualReflexive` | src/mcp_contract.c:37-69 | equality is reflexive on parsed values |
| `SchemaLaws.EqualSymmetric` | src/mcp_contract.c:37-69 | equality is symmetric: with unique keys, matching one way and equal counts match the other way |
| `SchemaLaws.EqualTransitive` | src/mcp_contract.c:37-69 | equality is transitive, the 2^53 guard included |
| `SchemaLaws.SupportsExactly` | src/mcp_schema_profile.c:22-80 | the profile check succeeds exactly for profile schemas whose node count fits the budget, and charges that count |
| `SchemaLaws.ValidateExactly` | src/mcp_schema_validate.c:34-93 | the validator accepts exactly the satisfying values whose walk fits the budget, and charges that walk |
| `SchemaRespects.ValidationRespectsEqual` | src/mcp_schema_validate.c:34-93 | equal supported schemas give the same verdict on equal values, whatever the member order and even when the budget decides |
| `SchemaRespects.RespectsEqual` | src/mcp_schema_validate.c:34-89 | satisfaction and the walk's length are both invariant under equality |
| `SchemaRespects.OrderExact` | src/mcp_schema_validate.c:11-33 | the mixed integer and double comparison orders the exact numbers |
| `SchemaSupport.SupportDiffers` | src/mcp_schema_profile.c:22-76 | a concrete pair of equal schemas of which only one is supported |
| `SchemaSupport.SupportRespectsEqual` | src/mcp_schema_profile.c:22-80 | a schema equal to a supported one is supported if and only if its counts are integer tokens |
| `SchemaSupport.ReparsedEqual` | src/mcp_contract.c:37-69 | a written and reparsed value equals the original if and only if no double is printed as an integer beyond 2^53 |
| `SchemaSupport.WideWholeLost` | src/mcp_contract.c:37-69 | 2^53 + 2 as a double is such a value |
| `SchemaSupport.RewrittenContract` | src/json.c:713-834 | a parsed contract and its rewriting are equal under exactly that condition |
| `Schema.CheckEqual` | src/mcp_contract.c:37-69 | the comparison loops compute schema equality |
| `Schema.Budget.Check` | src/mcp_schema_validate.c:34-89 | the recursive validator with its shared counter: the verdict, and what is left after success; `SchemaMeaning.SatisfiesMeets` says what the verdict means |
| `Schema.CheckAccepts` | src/mcp_schema_validate.c:90-93 | validation from the full budget; `SchemaMeaning.AcceptsExactly` says what is accepted |
| `SchemaMeaning.AcceptsExactly` | src/mcp_schema_validate.c:34-93 | a supported schema accepts a value if and only if the value meets every keyword at every depth and the walk visits at most 32768 values, which it does whenever the value has no more |
| `SchemaMeaning.SatisfiesMeets` | src/mcp_schema_validate.c:34-89 | satisfaction at every depth is meeting the keywords: properties and items by their schemas, other members by `additionalProperties` |
| `SchemaMeaning.LocalMeets` | src/mcp_schema_validate.c:6-60 | the checks on one value: `minimum` and `maximum` are at least and at most on exact numbers, the exclusive pair above and below, counts bound scalars, items and members, `type` is the kind of value and integrality, `const` and `enum` are equality, `required` is presence |
| `SchemaMeaning.CharactersCount` | src/mcp_schema_validate.c:60-66 | the bytes that are counted in a well-formed text are one for each scalar it encodes |
| `SchemaMeaning.NumbersEqual` | src/mcp_contract.c:45-51 | numbers are equal exactly when they are the same exact number, except that an integer beyond 2^53 equals no double |
| `SchemaMeaning.ObjectsEqual` | src/mcp_contract.c:60-66 | objects are equal exactly when they have the same keys with equal values, in any order |
| `SchemaMeaning.FieldExactly` | src/json.c:320-328 | with unique keys a keyword has a value exactly when some member has that name and that value, wherever it stands |
| `SchemaMeaning.FieldAbsent` | src/json.c:320-328 | a keyword is absent exactly when no member has its name |
| `Doubles.AsDoubleNearest` | src/json.c:158-166 | an integer is converted to a number of at most 53 significant bits, and no such number is nearer to it |
| `Schema.SchemaBudget.Check` | src/mcp_schema_profile.c:22-76 | the recursive profile check with its shared counter |
| `Schema.CheckSupported` | src/mcp_schema_profile.c:77-80 | the profile check from the full budget |
| `SchemaProfile.SupportedExactly` | src/mcp_schema_profile.c:22-80 | a schema is supported if and only if it is made of at most 1024 schemas, none more than 32 below the top, each true, false or an object of known keywords in any order that carry what they may |
| `SchemaProfile.PlainExactly` | src/mcp_schema_profile.c:32-75 | what each keyword may carry: the dialect, one of seven type names, at most 256 different names, whole counts up to 2^53, bounds within 2^53, one to 256 different values, texts, flags, a list, anything |
| `Duplicates.FindDuplicate` | src/types.c:170-196 | for any hash function, and with or without memory for the table, a name is reported if and only if one occurs twice: the earliest that recurs when names are compared pairwise, the earliest that repeats one before it when they are hashed |
| `Duplicates.Hashed` | src/types.c:170-196 | open addressing in a table at most half full: every probe ends, and the name reported is the one at the smallest place that repeats an earlier one |
| `Duplicates.Pairwise` | src/types.c:157-165 | the name reported is the one at the smallest place that occurs again later |
| `Duplicates.ReportsDiffer` | src/types.c:157-196 | the two searches report different names if and only if another name is repeated between the first recurring name and its next occurrence |
| `Duplicates.CrossedDiffers` | src/types.c:157-196 | a list of 65 names on which they do |
| `ArgStore.Store.Validate` | src/types.c:1199-1270 | on trees of cells: the arguments become, in place, what validation makes of their value, or the same error; nothing outside them is written |
| `ArgStore.Store.CheckNode` | src/types.c:922-1195 | the recursive type check in place, through lists, maps and closed objects, with the outcome of the check on values unless a needed allocation failed |
| `ArgStore.Store.CheckFieldsOf` | src/types.c:1136-1190 | a closed object in place: no repeated key, no unknown key, required fields present, absent defaults appended as copies |
| `ArgStore.Store.CloneNode` | src/types.c:339-390 | a copy that succeeds is an equal tree made of new cells only and within the depth cap; it fails only beyond that cap or when an allocation fails; no older cell changes |
| `ArgStore.Store.CloneValue` | src/types.c:255-337 | the same for a value, its items and its entries in order |
| `ArgStore.Store.Inject` | src/types.c:397-430 | an absent default arrives as the last field, a fresh copy of the command's own tree, or nothing changes |
| `ArgStore.Store.Unrepeated` | src/types.c:198-224 | the key array and the table may each fail to be allocated: the first is an error, the second only slower |
| `ArgStore.Store.Prepare` | src/invoke.c:241-262 | validate, then preflight: whether it succeeds or fails, and wherever, every cell reachable from a default of the command is as it was and no part of the arguments, and the command can be used again; on success the arguments are the rewritten validated ones |
| `StoreSteps.DefaultsUntouched` | src/types.c:397-430 | whatever evolves a tree beside the defaults leaves every cell on every path from a default alone, at every depth |
| `NodeStore.ReachedInside` | src/types.c:339-390 | following pointers from a tree never leaves its own cells |
| `NodeStore.KidEvolves` | src/types.c:922-1195 | a child changed in place leaves its parent a tree without shared cells, its other children untouched |
| `Standing.SideBySide` | src/types.c:860-885 | every command and every argument tree can stand in a heap as these methods require |
| `ArgsLaws.CheckConforms` | src/types.c:922-1195 | an accepted tree, as it is left, satisfies its type at every depth with every default in place |
| `ArgsLaws.ConformsChecks` | src/types.c:922-1195 | a tree that already satisfies its type is accepted and left alone |
| `ArgsLaws.CheckInjects` | src/types.c:397-430 | checking only appends defaults of absent optional fields, at every depth |
| `ArgsLaws.ValidatedConforms` | src/types.c:1199-1270 | validated arguments conform, differ only by injected defaults, and validate to themselves |
| `ArgsLaws.ConformingAccepted` | src/types.c:1199-1270 | arguments are accepted unchanged if and only if they already conform |
| `Paths.UnderTransitive` | src/path.c:257-294 | containment is transitive |
| `Paths.UnderAntisymmetric` | src/path.c:257-294 | paths without trailing slashes that contain each other are equal |
| `Paths.UnderComparable` | src/path.c:257-294 | two ancestors of one path are comparable |
| `Paths.CheckUnder` | src/path.c:257-294 | the trimming loop and the prefix test decide containment, which is containment of components by `PathParts.UnderComponents` |
| `PathParts.UnderComponents` | src/path.c:257-294 | for squeezed absolute paths: one lies under another if and only if that one is the root, or its components are the first components of the other and both or neither begin with two slashes |
| `PathParts.UnderClean` | src/path.c:257-294 | for clean paths, such as canonical ones, containment is exactly that the components are a prefix |
| `PathParts.UnderParts` | src/path.c:257-294 | for all paths, squeezed or not, the same on the parts between slashes, empty ones included |
| `PathParts.DoubleSlashApart` | src/path.c:257-294 | `//a` and `/a` name the same component, and the first does not lie under the second |
| `Canonical.SqueezeInPlace` | src/path.c:34-46 | the in-place rewrite leaves the squeezed path at the front of the buffer |
| `Canonical.SqueezeKeeps` | src/path.c:29-46 | squeezing keeps whether a path is absolute and which components it names |
| `Canonical.SqueezeSqueezed` | src/path.c:29-46 | the result has no trailing slash and, apart from a leading pair, no doubled one |
| `Canonical.SqueezeTwice` | src/path.c:29-46 | squeezing twice is squeezing once |
| `Canonical.FindCanonical` | src/path.c:122-245 | the ancestor walk with its growing tail computes the canonical form, or the error |
| `Canonical.CanonicalExactly` | src/path.c:122-245 | a path is canonical exactly when its deepest existing ancestor resolves and all missing components below are ordinary names, which must be allowed |
| `Canonical.CanonicalInside` | src/path.c:160-235 | a canonical path is absolute, without empty or dot components, and lies under the resolved deepest existing ancestor |
| `Canonical.CanonicalStable` | src/path.c:122-245 | canonicalizing a canonical path changes nothing, from any workspace |
| `Grants.EffectiveIsMeet` | src/policy.c:160-214 | the effective policy covers an access to a path if and only if one request covers it and one grant covers it |
| `Grants.Intersect` | src/policy.c:160-214 | the nested loops compute the intersection |
| `Grants.EnvironmentExactly` | src/policy.c:216-283 | a tool sees exactly the granted names it may ask for, each once |
| `Grants.PassedNames` | src/policy.c:216-283 | the environment loops compute that list |
| `ArgStore.Store.WalkNode` | src/policy.c:334-457 | the recursive walk rewrites path texts where they stand, with the outcome of the walk on values |
| `ArgStore.Store.WalkLeaf` | src/policy.c:346-393 | a path leaf is canonicalized, then checked against the grants, and only then for existence; its text alone is replaced |
| `ArgStore.Store.Preflight` | src/policy.c:459-495 | the walk over the parameters in place, followed by the process and network grants |
| `PathWalkLaws.GrantedArguments` | src/policy.c:334-495 | after validation and preflight every path leaf at every depth, defaults included, is covered by one effective grant, and only path texts and absent optional fields changed |
| `PathWalkLaws.LeafMeetsBoth` | src/policy.c:160-214 | such a leaf is covered by a request of the manifest and by a grant of the host |
| `PathParts.GrantedInside` | src/policy.c:334-495 | after validation and preflight every path argument, at every depth and in every injected default, has the components of some request and of some grant, each allowing the access, as its first ones |
| `PathParts.EffectiveInside` | src/policy.c:160-214 | whatever the effective policy covers lies, component by component, inside a request and inside a grant that allow the access |
| `PathParts.EffectiveExactly` | src/policy.c:160-214 | between clean paths the effective policy allows an access exactly where a request and a grant both do, component by component |
| `PathWalkLaws.WalkSettles` | src/policy.c:334-457 | a successful walk of a conforming tree leaves every path leaf covered |
| `PathWalkLaws.WalkRewrites` | src/policy.c:334-457 | a walk replaces path texts by their canonical forms and changes nothing else |
| `Verdicts.AcceptedExactly` | src/types.c:1199-1270 | arguments are accepted if and only if they are an object of known, unrepeated keys whose values fit at every depth, with nothing missing that is required and every absent default copyable |
| `Verdicts.CheckExactly` | src/types.c:922-1195 | the same for every type: the verdict does not depend on the order of visiting or injecting |
| `ArgsMeaning.TakenExactly` | src/types.c:1199-1270 | arguments are accepted if and only if they fit the parameters, said on values alone: lengths and counts within bounds where a bound is not negative, integers against the bounds of an integer exactly, enum values among the listed ones, list items and map values each fitting, objects with distinct known keys, required fields there, and absent defaults of at most 32 levels |
| `ArgsMeaning.ScalarExactly` | src/types.c:922-1060 | a value without parts passes the check of its type exactly when it is of that kind and within its bounds |
| `ArgsMeaning.IntGeExactly` | src/types.c:230-237 | rounding the bound up and comparing integers is comparing exactly, at the edges of 64 bits too |
| `ArgsMeaning.IntLeExactly` | src/types.c:239-245 | rounding the bound down and comparing integers is comparing exactly, at the edges of 64 bits too |
| `ArgsMeaning.ClonableExactly` | src/types.c:255-390 | a tree is copied if and only if its lists and objects nest within the depth cap: at most 32 levels from the top |
| `Verdicts.GrantedExactly` | src/policy.c:459-495 | validated arguments pass if and only if every path leaf has a covered canonical form that exists if it must, and the requested process and network grants are held |
| `Verdicts.WalkExactly` | src/policy.c:334-457 | the same for every type and depth, up to the nesting limit |
| `PathWalkAgain.GrantedAgain` | src/policy.c:459-495 | validating and walking the rewritten arguments succeeds and changes nothing |
| `PathWalkAgain.KernelIdempotent` | src/path.c:122-245 | over a fixed file system the canonical form used by the walk is idempotent |
| `PathWalkAgain.WalkTwice` | src/policy.c:334-457 | a second walk leaves the tree of the first alone, at every depth |
| `Frames.Pending.TakeFrame` | src/process_frame.c:16-69 | the header scan, the field loop and the in-place shift take one frame, or leave the buffer alone |
| `Frames.Pending.DetachLine` | src/process_io.c:12-27 | one line is taken and the rest shifted to the front |
| `Frames.Pending.Append` | src/util.c:52-61 | appending grows the buffer and keeps what was pending |
| `FrameHeaders.FrameExactly` | src/process_frame.c:16-69 | a message is taken exactly when the pending bytes start with a header of at most 8192 bytes and as many bytes as it announces: one length line, any capitals, digits from 1 to the cap, with or without one type line before or after it, and an empty line |
| `FrameHeaders.BusyExactly` | src/process_frame.c:16-69 | more bytes are waited for exactly when no header ends in fewer than 8192 good bytes, or a header announces more than there is |
| `FrameLaws.TakeStable` | src/process_frame.c:16-69 | any verdict but waiting is the same on every extension; a frame keeps its payload and passes the extra bytes through |
| `FrameLaws.LengthIsValue` | src/process_frame.c:41-50 | the accumulator is the decimal value when that is within the cap, and a refusal otherwise |
| `FrameLaws.FrameWithin` | src/process_frame.c:16-69 | no frame announces zero or more than the cap, and each consumes bytes |
| `FrameLaws.FrameRoundTrip` | src/process_io.c:168-176 | a written frame is taken back whole and what follows is left alone |
| `FrameLaws.FeedIsDrain` | src/process_io.c:32-88 | feeding chunks one by one is draining their concatenation |
| `FrameLaws.ChunkingImmaterial` | src/process_io.c:168-176 | payloads written as frames and delivered in any chunks come back exactly, in order, with nothing left over |
| `LineLaws.LineStable` | src/process_io.c:12-27 | a line that was read stays the same however much follows |
| `LineLaws.LineRoundTrip` | src/process_io.c:91-150 | a written line is read back without its newline |
| `LineLaws.LinesChunked` | src/process_io.c:12-27 | lines written one after another come back in order, whatever the chunks |
| `Semver.ParseVersion` | src/semver.c:53-86 | the cursor loops compute the parsed version |
| `Semver.ComparePreText` | src/semver.c:102-149 | the loop over dot-separated fields computes the pre-release comparison |
| `SemverOrder.ParseExactly` | src/semver.c:23-86 | the parser accepts exactly the version grammar and returns what is written without the build metadata |
| `SemverOrder.NumericOrder` | src/semver.c:102-149 | length, then bytes, orders numeric identifiers of any size as integers |
| `SemverOrder.CompareOrder` | src/semver.c:102-149 | comparison is antisymmetric and zero only for the same core and pre-release |
| `SemverOrder.CompareTransitive` | src/semver.c:102-149 | comparison is transitive, strictly where one step is strict |
| `Precedence.PrecedenceExactly` | src/semver.c:102-149 | for all versions that parse, the comparison is the precedence of section 11 of Semantic Versioning 2.0.0: major, minor and patch as numbers, a pre-release before its release, then the first identifier that differs |
| `Precedence.PreExactly` | src/semver.c:102-149 | numeric identifiers by value, others by bytes, numeric before others, and a longer list after its prefix |
| `Discovery.Rank` | src/discovery.c:154-197 | the bounded insertion keeps exactly the first 64 of the stable descending sort of all candidates that fit the budget |
| `Discovery.KeepIsTop` | src/discovery.c:178-197 | one more candidate turns the first 64 of the sort into the first 64 of the larger sort |
| `Discovery.SortStable` | src/discovery.c:178-197 | candidates with equal scores keep their order of arrival |
| `Discovery.StableSortUnique` | src/discovery.c:178-197 | any descending list with the same candidates of each score, in order, is that sort |
| `Discovery.Materialize` | src/discovery.c:82-131 | the greedy loop computes the pick, and omitted is candidates minus picks |
| `Discovery.PickWithin` | src/discovery.c:82-131 | the pick stays within budget and limit |
| `Discovery.PickExactly` | src/discovery.c:82-131 | a ranked candidate is left out only when the limit was reached or it did not fit what earlier picks left |
| `Calendar.CivilOfDays` | src/time.c:33-59 | a valid date is the date of its own day number, for every year |
| `Calendar.DaysOfCivil` | src/time.c:33-59 | every day number is the number of its date, and that date exists |
| `Calendar.DaysCount` | src/time.c:33-69 | day numbers start at 1970-01-01 and grow by one per calendar day across months, leap days and years |
| `Timestamps.InstantRoundTrip` | src/time.c:85-172 | parsing the formatted text of any instant in years 0 to 9999 gives it back |
| `Timestamps.OffsetMoves` | src/time.c:85-131 | an offset moves the instant by exactly its hours and minutes |
| `Timestamps.ParseTimestamp` | src/time.c:85-131 | the cursor parser computes the instant, or refuses |
| `TimestampText.ParseExactly` | src/time.c:85-131 | a text is read as an instant if and only if it is a date of the calendar, a time up to a leap second, an optional fraction and `Z` or an offset of at most 23:59, by position, and the instant is that local time less the offset |
| `Timestamps.FormatTimestamp` | src/time.c:133-172 | the formatter fills the array with the text and its terminator |
| `Base64.DecodeEncode` | src/util.c:171-264 | decoding an encoding returns the bytes |
| `Base64.EncodeDecode` | src/util.c:171-264 | an accepted text is the encoding of what it decodes to: padding and trailing bits are canonical |
| `Base64.EncodeBytes` | src/util.c:171-202 | the encoding loop and its tail compute the text |
| `Base64.DecodeText` | src/util.c:213-264 | the decoding loop computes the bytes, or refuses |
| `Base64Bits.EncodeExactly` | src/util.c:171-202 | by section 4 of RFC 4648: letter k is the alphabet's letter for bits 6k to 6k+5 of the data, zeros after its end, and `=` fills the text up to groups of four |
| `Digest.HashChunks` | src/sha256.c:73-137 | for every splitting into updates the 32 bytes are the SHA-256 digest of the whole message |
| `Digest.Context.Update` | src/sha256.c:87-110 | after every update whole blocks are in the state, the rest in the buffer, and the bit counter counts the message modulo 2^64 |
| `Digest.Context.Final` | src/sha256.c:112-130 | finishing appends exactly the padding and writes the digest of the message |
| `Rounds.Transform` | src/sha256.c:28-71 | the schedule array and the eight rotating variables compute the compression function of the standard |
| `DigestExample.KnownAnswer` | src/sha256.c:12-71 | the digest of `abc` is the one published with FIPS 180-4, computed through every constant, rotation and round |
| `Digest.PadMeaning` | src/sha256.c:112-130 | the padding is a 1 bit, the fewest zeros, and the message length in bits |
| `Digest.PadInjective` | src/sha256.c:112-130 | different messages are padded differently |

## Left out

- Threads, locks and condition variables: each locked region is one step; a timed wait is a turn that may or may not find what it waits for. Fairness and wake-up order are not modelled.
- Registry lookups inside the step machine: an invocation pins some table entry, chosen freely; which entry a reference means is the subject of `Registry` and `RegistryRuns`. `astools_registry_check_snapshot` and `astools_registry_revalidate` appear only as a step that may refuse.
- The list of instances is a sequence, not linked nodes with next pointers; freeing a node is the move of its identity to a set.
- Cells of an abandoned copy stay behind, unreachable, where the C code frees them. Annotations of nodes and the text of error messages, with their allocations, are not modelled; an array that grows is one allocation.
- xCDN parsing and printing, manifest and configuration reading, audit and log output, catalogue prose, JSON Schema text emission, the MCP server front end: plumbing around the modelled decisions.
- Bodies of process exchanges: poll slices, deadlines, stderr capture, restart backoff, graceful stops, and the overflow threshold of `read_message`.
- Sandboxing and the operating-system layer. `realpath` is a parameter; `Canonical.Realpath` states what is assumed of it over a file system that does not change.
- The Windows branches of `src/path.c`.
- FrameLaws.FrameRoundTrip: states payloads without NUL and at least one byte long, because the C copy of a payload stops at a NUL and a zero length is refused.
- LineLaws.LineRoundTrip: states texts without NUL, for the same reason.
- JsonRoundTrip.ParsedRoundTrips: the printing and scanning of doubles is a parameter with the stated print and parse assumptions (`Faithful`), not the C library's `strtod` and `snprintf`.
- SchemaRespects.ValidationRespectsEqual: states values with unique keys and comparable doubles (`Tidy`), which is what the parser produces.
- SchemaRespects.OrderExact: finite doubles are exact numbers with a sign of zero; rounding inside floating-point addition does not occur in the modelled code.
- SchemaMeaning.AcceptsExactly: states values as the parser makes them (unique keys, comparable doubles, well-formed texts) whose lists and texts are shorter than 2^64.
- ArgsMeaning.TakenExactly: states integers of 64 bits, which is all the C value holds; the checkers of date, duration and UUID texts are parameters.
- DigestExample.KnownAnswer: one message of one block; longer messages are `Digest.HashChunks` and `Digest.PadMeaning`.
- RegistryRuns.RevisionIdentifies: content digests are taken to be collision-free, and the pool limit and the platform check are functions of a package's content.
- Timestamps.InstantRoundTrip: seconds and day numbers are unbounded integers; the wrap-around of 64-bit arithmetic far outside years 0 to 9999 is not modelled.
- The hexadecimal form of a digest, and digests of files.
- Gbnf.ExportCommands: views are required to hold plain ids and names, as manifests guarantee.
- Base64.EncodeBytes: the alphabet table is written by its five ranges, and the length overflow check before allocation is not modelled.
- Allocation failure is a branch where it changes a decision (the instance pool, the duplicate detector, the argument store); elsewhere it is omitted, as are NULL arguments.
- Semantic validity of grammar sentences beyond the call line: the grammar is looser than the type checker by design.
- The lexical score, the allow lists, the effective-policy filter and the schema cost of discovery: candidates arrive with their score and cost.
- `src/duration.c`, `src/lsp_uri.c`, `src/lockfile.c` and call-line formatting: smaller instances of round trips already covered.
