# Verified models of the repository's gates, feed and border protocol

This project models four parts of the repository and proves what they are for.

**The runner guard** (`xtask/src/runners.rs`, `xtask/src/truth.rs`) reads every workflow and refuses a
job that pull-request code can reach on a runner that is not provably hosted by GitHub. The model has
the condition grammar as it is read (`Grammar`), the evaluator that computes while it reads
(`ExprParsing`), the language itself as concrete syntax with its space and parentheses (`Syntaxes`),
the proof that the reader accepts exactly that language (`Readings`), a printer (`Printer`), the
concrete meaning of a condition for one run (`IfExpr`), the byte reading of literals (`Encoding`,
`Conditions`), the fixpoint of entry events (`EntryEvents`), what repeated workflow names do to it
(`WorkflowNames`), the routing classifier (`Routing`) and the guard (`RunnerGuard`). A run fixes the value of every unknown context, function and comparison. The end
result joins them: `RunnerGuard.PassingIsSafe`.

**The border between workspaces** (`crates/chat/src/border.rs`, `crates/chat/src/consolidation_claim.rs`).
`Border` holds the two tables and each SQL statement as a function on them, and what one handover does
to one thread; `HandoverCases` says case by case what a handover leaves, and `BorderStores` is the
store that executes these statements. `Interleaving` is the same
statements as atomic steps of any number of runs that may stop anywhere and act on stale reads;
`Returns` accounts for what deliveries put into the served table and took out again, `Stranded` for
where a commission gets stuck, and `Undisturbed` connects the steps with the whole operations.
`Settlement` follows both records of one commission. `ThreadLog`, `Exchange`, `ExchangeRounds` and
`ExchangeRuns` are the op logs and the copying of a thread between them. `Consolidation` is the claim
on a round of a thread.

**The release feed and its calendar** (`xtask/src/changelog.rs`, `version.rs`, `facade.rs`, `deps.rs`):
`Calendar`, `Expiry`, `SemVer`, `Baseline`, `Feeds`, `ReleaseNotes`, `Aggregates`, `FeedOps`,
`Consuming`, `FeedRuns` and `Conservation`. Versions are those of items 2 and 11 of Semantic Versioning 2.0.0,
plain X.Y.Z only; dates have the full-date layout of section 5.6 of RFC 3339 with the day limits of
its section 5.7.

**The graph gates** (`xtask/src/layering.rs`, `xtask/src/macos_tests.rs`): `Layering`, `ModuleGates`.

`dafny verify dfyconfig.toml` checks everything.

## What the proofs found

- Of two workflows with one `name:` the guard's table keeps the last, while a `workflow_run` trigger
  hangs off every workflow of that name. A pull request can then reach a self-hosted job although the
  guard passes (`RunnerGuard.HolePasses`). The guard misses no way in exactly when every workflow that
  names an entered but shadowed one is entered as `workflow_run` all the same
  (`WorkflowNames.MissesNothingExactly`); distinct names are enough.
- The string comparison in the expiry gate is right through the year 9999. From the year 10000 on it
  is right exactly for expiry years at most the first four digits of the current year
  (`Expiry.ExpiredMeans`, `Expiry.WrongFrom10000`).
- The condition parser reads bytes as characters, so a string literal outside ASCII is read as the
  characters of its UTF-8 bytes (`Conditions.EncodedSame`). For the ASCII event names there are, this
  changes no verdict, because UTF-8 preserves every question a condition can ask of two texts
  (`Conditions.PrintedVerdict`).
- A second exchange of a thread can still copy, when two posts dispute a message
  (`ExchangeRounds.DisputedCopiesTwice`); it copies nothing exactly when it is refused or nothing was
  hidden from the far side (`ExchangeRounds.SecondExactly`), and a third never copies
  (`ExchangeRounds.ThirdExchange`). The two logs select the same ops exactly when they settle on every
  message (`Exchange.SelectedSameExactly`): always where no two posts dispute one, never where either
  side places a message in the thread whose lowest post lies elsewhere (`Exchange.DisputeUnsettles`).
- Giving a message back ignores a delete that fails. The message then stays the claim of that delivery
  for good, and no other delivery carries it (`Returns.FailedStaysClaimed`); every other message the
  delivery had won is taken out of the table again (`Returns.ClaimableAgain`).
- A refusal whose reply cannot be written, and a run that stops between winning an admission and
  recording the session, leave a row `working` without a session. No later handover acts on it
  (`Stranded.StrandedForever`), and no run is ever admitted again (`Stranded.StoppedForGood`).
- A final state survives handovers run one at a time (`BorderStores.BorderStore.HandOver`), but not
  every interleaving: a run that read the row before can overwrite it (`Stranded.FinalOverwritten`), by
  exactly three kinds of write (`Stranded.FinalKeptExactly`).
- `release_consolidation_claim` checks the round, not the owner. Whoever calls it, the claims stay
  sound exactly when the caller holds the current round or nobody does
  (`Consolidation.ReleaseKeepsExactly`); otherwise two processes can hold one round
  (`Consolidation.LateReleaseDoubles`).
- Items of version 0.0.0 are never promoted, because the first window is open below
  (`Conservation.ZeroIsNeverPromoted`).
- The comment of `consume` says items are deduplicated by type and texts; the code compares whole
  items, and the model follows the code.

## Model

| member | source | states |
|---|---|---|
| `Truths.ConnectivesAreBest` | xtask/src/truth.rs:28-62 | and, or and not of three-valued truths are decided exactly when every completion of the operands gives that one answer |
| `IfExpr.AbsSound` | xtask/src/runners.rs:188-393 | for every expression, event and run, a known abstract value is the value the run computes |
| `IfExpr.EqualIsBest` | xtask/src/runners.rs:362-379 | equality of two abstract values is decided, either way, exactly when every pair of values they describe compares so in every run: different known strings are different |
| `IfExpr.CallIsBest` | xtask/src/runners.rs:385-393 | a built-in call is decided exactly when every completion of its arguments gives that one answer in every run |
| `IfExpr.ClearIsDecided` | xtask/src/runners.rs:188-393 | a tree without numerals, order comparisons and unknown paths or functions is always decided, and its truth is that of every run |
| `IfExpr.CallSound` | xtask/src/runners.rs:385-393 | a built-in call on described arguments describes what the call gives in the run |
| `IfExpr.DescribesTruth` | xtask/src/runners.rs:125-148 | a described value has the truth the abstract value claims |
| `ExprParsing.ExprParser.Skip` | xtask/src/runners.rs:198-202 | moves to the first byte that is no whitespace, never past the end |
| `ExprParsing.ExprParser.Eat` | xtask/src/runners.rs:204-216 | consumes a token exactly when it stands next, and nothing but whitespace otherwise |
| `ExprParsing.ExprParser.ParseExpr` | xtask/src/runners.rs:218-225 | terminates on every input, stays within it, fails where the grammar fails, and otherwise returns the abstract value of the tree the grammar reads there |
| `ExprParsing.ExprParser.ParseConjunction` | xtask/src/runners.rs:227-234 | the same for conjunctions |
| `ExprParsing.ExprParser.ParseComparison` | xtask/src/runners.rs:236-256 | the same for comparisons: equality is compared, order is read and left unknown |
| `ExprParsing.ExprParser.ParseOperand` | xtask/src/runners.rs:258-266 | the same for a negation or an atom; `!=` is no negation |
| `ExprParsing.ExprParser.ParseAtom` | xtask/src/runners.rs:268-296 | the same for groups, literals, numbers, paths and calls |
| `ExprParsing.ExprParser.ParseString` | xtask/src/runners.rs:298-319 | reads a literal with doubled quotes, or fails when it is not closed |
| `ExprParsing.ExprParser.ParsePathOrCall` | xtask/src/runners.rs:321-358 | reads a path and, after `(`, the arguments of a call |
| `Conditions.EvalIf` | xtask/src/runners.rs:155-182 | the verdict on a raw condition: unknown unless it is understood to its end, else the truth of its tree; what the verdict is worth is said by the rows that follow |
| `Conditions.VerdictSound` | xtask/src/runners.rs:150-182 | a condition is called false only if no run makes it true |
| `Conditions.DecidedEverywhere` | xtask/src/runners.rs:150-182 | a decided verdict, either way, is the verdict of every run |
| `Conditions.ClearVerdict` | xtask/src/runners.rs:150-182 | the converse for clear trees: the verdict is decided, and is true or false exactly when no run makes it otherwise |
| `Conditions.DecidedIsWritten` | xtask/src/runners.rs:155-182 | a decided verdict is the truth of a tree that the whole unwrapped text is a way to write: nothing is understood in part |
| `Conditions.PrintedUnderstood` | xtask/src/runners.rs:155-358 | every well-formed tree, printed with quote doubling and parentheses, bare or in `${{ }}`, is read back as itself with its literals as bytes, unless its text holds `${{` |
| `Conditions.PrintedAnywhere` | xtask/src/runners.rs:155-182 | the same with any whitespace around the condition or its wrapper and any ASCII space inside the wrapper |
| `Conditions.AbsEncoded` | xtask/src/runners.rs:298-393 | for an ASCII event the tree with its literals as bytes means what the tree means, with the text as bytes |
| `Conditions.PrintedVerdict` | xtask/src/runners.rs:155-358 | whatever the literals, reading them as bytes changes no verdict: on the printed text it is the truth of the tree for every ASCII event, and for every event if the literals are ASCII; unknown if the text holds `${{` |
| `Conditions.PrintedClear` | xtask/src/runners.rs:150-358 | on the printed text of a clear tree the verdict is the truth of the condition in any run |
| `Encoding.PrefixKept` | xtask/src/runners.rs:385-393 | one text is a prefix of another exactly when its UTF-8 bytes are |
| `Encoding.ContainsKept` | xtask/src/runners.rs:385-393 | one text contains another exactly when its UTF-8 bytes do |
| `Encoding.SuffixKept` | xtask/src/runners.rs:385-393 | one text is a suffix of another exactly when its UTF-8 bytes are |
| `Encoding.CharEncoded` | xtask/src/runners.rs:192-196 | a character takes as many bytes as its shortest UTF-8 form, and they carry it |
| `Conditions.EncodedSame` | xtask/src/runners.rs:298-319 | reading bytes as characters leaves a tree as it is exactly when its literals are ASCII |
| `Syntaxes.OrExplained` | xtask/src/runners.rs:218-358 | whatever is read from a position on is the text of a concrete syntax of the language, read as the tree that syntax stands for |
| `Readings.ReadOr` | xtask/src/runners.rs:218-358 | wherever a syntax of the language stands and nothing after it runs on into it, it is read as its tree, to its end |
| `Readings.ReadsExactly` | xtask/src/runners.rs:155-358 | a text is read as a tree exactly when it is a way to write that tree: precedence, association to the left, comparisons that do not chain, space, parentheses, doubled quotes and calls; so no text has two readings |
| `Printer.PrintedWrites` | xtask/src/runners.rs:218-358 | the printed text of a well-formed tree is a way to write it, at every level of precedence |
| `EntryEvents.CanRunIsReachable` | xtask/src/runners.rs:532-537 | a job some run can start is never taken for unreachable |
| `EntryEvents.ClearlyGuarded` | xtask/src/runners.rs:532-537 | a job guarded by a clear condition is taken to run for an event exactly when the condition is true for it |
| `EntryEvents.LocalCalledMeans` | xtask/src/runners.rs:547-554 | a call is local to a file exactly when its text is `./.github/workflows/` and the file, without a further slash |
| `EntryEvents.ComputeEntryEvents` | xtask/src/runners.rs:562-631 | terminates, and an event is in a workflow's entry exactly when a chain of pull-request triggers, local calls and workflow runs brings it there: the least fixpoint |
| `EntryEvents.Pass` | xtask/src/runners.rs:578-629 | a round keeps the table sound and growing, and one that changes nothing has handed everything on |
| `EntryEvents.ChainInTable` | xtask/src/runners.rs:562-631 | a table that holds the triggers and hands everything on holds whatever any chain brings |
| `EntryEvents.OrderIndependent` | xtask/src/runners.rs:562-631 | for distinct names what reaches a workflow does not depend on the order of the list |
| `EntryEvents.ActualIsNamed` | xtask/src/runners.rs:532-560 | in every chain that can happen, by display names, the guard takes every calling job to run |
| `WorkflowNames.MissesNothingExactly` | xtask/src/runners.rs:574-577 | the table holds whatever any chain by display names brings exactly when each workflow that names an entered but shadowed one is entered as `workflow_run` all the same |
| `WorkflowNames.DistinctIsHarmless` | xtask/src/runners.rs:574-577 | which holds wherever the names are distinct |
| `Routing.HostedMeans` | xtask/src/runners.rs:105-114 | the whitelist is exactly an image family, a dash and a non-empty suffix of its alphabet |
| `Routing.KeyFound` | xtask/src/runners.rs:674-745 | the key read out of a label is the one its whole-value matrix template names |
| `Routing.MapGetMeans` | xtask/src/runners.rs:421-428 | a lookup finds the value of the first entry with that string key, and none exactly when no entry has it or it is no map |
| `Routing.MatrixCandidates` | xtask/src/runners.rs:647-665 | the candidates of a matrix key, or that it cannot be resolved |
| `Routing.CandidatesMean` | xtask/src/runners.rs:647-665 | the candidates are exactly the values a leg of the matrix can have; an unresolved key may be anything |
| `Routing.ClassifyRunsOn` | xtask/src/runners.rs:674-745 | a job is proven hosted exactly when every label it may land on is a hosted image, and a reported label is one it may land on that is not |
| `RunnerGuard.Violations` | xtask/src/runners.rs:765-820 | the jobs listed are exactly the flagged ones |
| `RunnerGuard.FlaggedMeans` | xtask/src/runners.rs:771-798 | a job is flagged exactly when it is no call, some event that reaches its workflow starts it as far as the guard can tell, and some label it may land on is no hosted image |
| `RunnerGuard.CheckWith` | xtask/src/runners.rs:765-877 | refuses an unreasoned exemption first, then stale ones, and passes exactly when every reason has 24 bytes and the exempted jobs are the flagged jobs; names an unreasoned exemption, all stale ones or all flagged jobs left |
| `RunnerGuard.PassingIsSafe` | xtask/src/runners.rs:532-862 | when it passes and repeated names do no harm, every job at the end of every actual chain, by the literal text of its calls and by display names, that some run starts, and that is not exempted, lands on hosted images only |
| `RunnerGuard.DistinctNamesAreSafe` | xtask/src/runners.rs:532-862 | the same for distinct names, with nothing else asked |
| `RunnerGuard.HolePasses` | xtask/src/runners.rs:574-625 | three workflows, two of one name, on which the guard passes without exemptions and a pull request reaches a self-hosted job |
| `Calendar.CivilIsDate` | xtask/src/changelog.rs:1315-1326 | every day number names a valid Gregorian date |
| `Calendar.CivilEpoch` | xtask/src/changelog.rs:1313-1326 | day 0 is 1970-01-01 |
| `Calendar.CivilNext` | xtask/src/changelog.rs:1315-1326 | day n+1 is the calendar successor of day n, across months, years, centuries and eras |
| `Calendar.NothingOverflows` | xtask/src/changelog.rs:1315-1326 | for every day number the first addition can hold, no later step leaves its type and no unsigned subtraction goes below zero |
| `Calendar.CountedBack` | xtask/src/changelog.rs:1315-1326 | counting the days of a date undoes the algorithm on every day number |
| `Calendar.DateFound` | xtask/src/changelog.rs:1315-1326 | and the algorithm undoes counting on every date |
| `Calendar.SameOrder` | xtask/src/changelog.rs:1315-1326 | dates and day numbers are ordered alike |
| `Expiry.ExpiryMeans` | xtask/src/deps.rs:116-138 | a reason is accepted exactly when it starts with `expires `, a four-digit calendar date written in full and a colon |
| `Expiry.StampOrder` | xtask/src/deps.rs:97-104 | four-digit dates compare as text as they do as days |
| `Expiry.TodayIsDate` | xtask/src/changelog.rs:1304-1311 | the clock always shows a valid date from 1970 on |
| `Expiry.ExpiredMeans` | xtask/src/deps.rs:87-112 | the text comparison is the comparison of days through 9999; afterwards exactly when the expiry year is at most the first four digits of today's year |
| `Expiry.WrongFrom10000` | xtask/src/deps.rs:97-104 | on 10000-01-01 an exception until 9999-12-31 is not reported |
| `Expiry.Problems` | xtask/src/deps.rs:87-112 | on the day the clock shows: who is reported expired, undated or without a board item, exactly; and no finding exactly when every exception is dated, not past as far as the gate can tell, and names its item |
| `Expiry.BoardItemMeans` | xtask/src/deps.rs:140-154 | a board item is named exactly where four lowercase letters or digits, a dot and four more stand with no letter or digit touching them |
| `Expiry.ReportedExactlyWhenPast` | xtask/src/deps.rs:87-138 | through 9999 the list of findings reports an id expired on a date exactly when a listed exception of that id is dated so and its day precedes today's day number |
| `SemVer.SemverComponents` | xtask/src/version.rs:23-41 | accepts exactly three canonical components within 64 bits |
| `SemVer.RenderRead` | xtask/src/version.rs:23-41 | reading a rendered version gives it back |
| `SemVer.ReadRender` | xtask/src/version.rs:23-41 | rendering a read version gives back the text |
| `SemVer.OneSpelling` | xtask/src/version.rs:23-41 | two accepted texts are equal exactly when they name the same version |
| `SemVer.VersionText` | xtask/src/version.rs:23-41 | a text is a version exactly when it is the decimal digits of its three numbers with dots between, each at most 18446744073709551615 |
| `Baseline.SelectBaseline` | xtask/src/facade.rs:193-217 | the tag chosen is a tag, at or below the current version, with none between; refuses exactly a malformed current version |
| `Baseline.AxisMeans` | xtask/src/facade.rs:173-190 | the axis is the first component that increased with all before it equal, and no bump exactly when the version is not above |
| `Baseline.OrderIrrelevant` | xtask/src/facade.rs:193-217 | the choice does not depend on the order of the tags |
| `Baseline.NoBumpMeansTagged` | xtask/src/facade.rs:173-217 | there is no bump exactly when the current version is itself tagged |
| `Baseline.StaysOnLine` | xtask/src/facade.rs:193-217 | the choice is on line x.Y as soon as that line has a release at or below |
| `Feeds.RenderNotes` | xtask/src/changelog.rs:434-462 | the notes are the rendering of the items, block by block |
| `ReleaseNotes.EveryItemShows` | xtask/src/changelog.rs:434-462 | every item stands in the notes of both languages, in the block under the heading of its type |
| `ReleaseNotes.FacadeItemShows` | xtask/src/changelog.rs:464-492 | an item with a facade flag stands in the facade contract too, with its label, in the block under that heading |
| `ReleaseNotes.BlocksInOrder` | xtask/src/changelog.rs:434-462 | the notes are the blocks of added, changed, fixed and removed items that are not empty, in this order, then the facade contract if an item is flagged |
| `ReleaseNotes.TypeItemsCount` | xtask/src/changelog.rs:434-450 | a block takes each item of its type as often as it is listed, and no other |
| `ReleaseNotes.TypeItemsInOrder` | xtask/src/changelog.rs:434-450 | and in the order they are listed |
| `ReleaseNotes.BulletsInOrder` | xtask/src/changelog.rs:434-450 | one bullet for each, in that order |
| `ReleaseNotes.ContractInOrder` | xtask/src/changelog.rs:464-492 | the contract has the bullets of the flagged items in their order, and nothing for the others |
| `ReleaseNotes.JoinParts` | xtask/src/changelog.rs:455-462 | blocks stand one after the other with an empty line between them |
| `ReleaseNotes.WrittenOut` | xtask/src/changelog.rs:87-100 | the eight headings, and that a bullet holds the trimmed text of its language |
| `ReleaseNotes.ContractWrittenOut` | xtask/src/changelog.rs:464-492 | the label, the security mark and the text of a contract bullet in both languages |
| `Feeds.UpsertKeeps` | xtask/src/changelog.rs:582-590 | upserting replaces the entry of one version and keeps the ring strictly newest first |
| `Feeds.RingDetermined` | xtask/src/changelog.rs:582-590 | a ring in that order is determined by its entries |
| `FeedOps.PrevMeans` | xtask/src/changelog.rs:931-942 | the predecessor is in the ring, below the version, with none between |
| `FeedOps.PrevStaysOnLine` | xtask/src/changelog.rs:923-942 | it is on line x.Y when that line has an earlier release |
| `FeedOps.ReleaseFeed.PrevStable` | xtask/src/changelog.rs:931-942 | returns its text, or none, or refuses a malformed version |
| `FeedOps.ReleaseFeed.Consume` | xtask/src/changelog.rs:1143-1187 | folds the fragments into the beta entry of the version and leaves the rest of the feed; refuses a malformed version unchanged |
| `Consuming.MergedCounts` | xtask/src/changelog.rs:1167-1178 | merging keeps what was listed as often as it was, and lists each new item once |
| `Consuming.MergedInOrder` | xtask/src/changelog.rs:1167-1178 | what is new follows what was there, in the order of its first appearance |
| `Consuming.ItemOfFragment` | xtask/src/changelog.rs:1116-1138 | a fragment becomes the item with its fields; only a facade verdict of none is dropped |
| `Consuming.ConsumedEntry` | xtask/src/changelog.rs:1143-1187 | consuming leaves one beta entry of the version, dated as asked, that lists what it listed as often and each new item once, in order; all other entries and rings as they were |
| `FeedOps.ReleaseFeed.Promote` | xtask/src/changelog.rs:946-972 | lifts the version into the stable ring with its beta date, or changes nothing when it is malformed or has no beta entry |
| `Consuming.PromotedEntry` | xtask/src/changelog.rs:946-972 | promoting leaves one stable entry of the version with the date of its beta entry, listing the curated items or, without any, each released item as often as the beta entries above the previous stable version and up to this one do; all else as it was |
| `FeedOps.ReleaseFeed.AggregateItems` | xtask/src/changelog.rs:1212-1232 | lists every released item of the window as often as its entries together do, entry by entry in ascending version order |
| `Aggregates.AggregateCounts` | xtask/src/changelog.rs:1212-1232 | the aggregate's count of any item is the sum of its counts over the entries of the window, none for an unreleased one |
| `Aggregates.SortOldestSorts` | xtask/src/changelog.rs:1212-1232 | sorting gives an ascending permutation |
| `Aggregates.ReleasedKeepsOrder` | xtask/src/changelog.rs:1212-1232 | leaving out unreleased items keeps the order of the others |
| `FeedOps.ReleaseFeed.Rerender` | xtask/src/changelog.rs:520-545 | names every entry whose notes differ from the rendering of its items, and restores them unless only checking |
| `FeedOps.NoDrift` | xtask/src/changelog.rs:520-545 | nothing is named exactly when rendering again changes nothing |
| `FeedOps.RenderedInOrder` | xtask/src/changelog.rs:520-545 | rendering again keeps every entry and its place and gives it the rendering of its items in both languages |
| `FeedOps.DriftedInOrder` | xtask/src/changelog.rs:520-545 | drift names the version of each entry whose notes are not that rendering, once, in the order of the ring |
| `FeedRuns.RunKeeps` | xtask/src/changelog.rs:494-590 | every run of consume, promote and rerender keeps each ring strictly newest first, notes equal to the rendering, no `facade: none`, old beta items a prefix, alpha untouched |
| `FeedRuns.StepKeeps` | xtask/src/changelog.rs:494-590 | the same for one operation, with the rings it does not own untouched |
| `FeedRuns.ConsumedTwice` | xtask/src/changelog.rs:1143-1187 | consuming the same fragments twice equals once |
| `FeedRuns.PromotedTwice` | xtask/src/changelog.rs:946-972 | promoting a version twice equals once |
| `Conservation.AggregateAdds` | xtask/src/changelog.rs:1212-1232 | adjacent windows lose and repeat nothing at the seam, whatever order the ring is in |
| `Conservation.RunConserves` | xtask/src/changelog.rs:931-972 | every run in release order keeps each stable entry the released beta items between its predecessor and itself |
| `Conservation.PromotionConservesItems` | xtask/src/changelog.rs:931-972 | from an empty stable ring the stable items, oldest first, are exactly the released beta items in (0.0.0, last promoted], and the stable ring counts every item as often as the beta entries there do |
| `Conservation.ZeroIsNeverPromoted` | xtask/src/changelog.rs:946-972 | promoting 0.0.0 lifts no items |
| `Layering.EdgeProblems` | xtask/src/layering.rs:220-236 | silent exactly when every package keeps every rule |
| `Layering.RulesWrittenOut` | xtask/src/layering.rs:45-339 | a package keeps the rules exactly as the table reads with every crate, dependency and feature named in full |
| `Layering.OwnEdges` | xtask/src/layering.rs:238-269 | adds nothing exactly when the crate has a row and each of its edges is allowed by it |
| `Layering.OwnFeatures` | xtask/src/layering.rs:271-282 | adds nothing exactly when the crate declares no feature but the host's `test-support` |
| `Layering.EdgeRules` | xtask/src/layering.rs:284-314 | adds nothing exactly when every edge is of an allowed importer and enables no `test-support` outside dev |
| `Layering.FeatureRules` | xtask/src/layering.rs:316-339 | adds nothing exactly when no feature but `test-support` itself names the host's `test-support` |
| `Layering.EdgeGoesDown` | xtask/src/layering.rs:45-83 | an edge out of a new crate leads to a new crate of a lower row, but for the host's own dev edge |
| `Layering.NewReachesOnlyNew` | xtask/src/layering.rs:220-282 | if the gate is silent, whatever a new crate reaches by any chain is a new crate |
| `Layering.OnlyTheHostsCycle` | xtask/src/layering.rs:45-83 | the only cycle among them is the host's own dev edge |
| `Layering.EntersThroughHost` | xtask/src/layering.rs:284-304 | if the gate is silent, every chain from outside to a new crate other than the contracts goes in by a named importer's edge to the host and stays among the new crates from there |
| `Layering.TestSupportStaysOff` | xtask/src/layering.rs:306-339 | no chain of non-dev edges and feature tables enables the host's `test-support` |
| `ModuleGates.InheritedGates` | xtask/src/macos_tests.rs:854-895 | terminates on every module graph and reports exactly the files reachable through a gated declaration and then any declarations, each with a gate that reaches it |
| `ModuleGates.ClosedHoldsAll` | xtask/src/macos_tests.rs:854-895 | files closed under gated children and children hold everything that inherits a gate |
| `BorderStores.BorderStore.ClaimAdmission` | crates/chat/src/border.rs:433-444 | wins exactly when the row is still submitted, and then makes it working |
| `BorderStores.BorderStore.MarkServed` | crates/chat/src/border.rs:415-423 | wins exactly when the pair was not there, and leaves it there |
| `Border.FirstRecordStands` | crates/chat/src/border.rs:374-390 | recording a thread changes no row that is there, a second record of it changes nothing, and a new one has the given fields and can be claimed |
| `Border.LastStateStands` | crates/chat/src/border.rs:392-405 | of two state changes the last state and the last reason given stand; nothing else of the row and no other row changes, and none appears |
| `BorderStores.BorderStore.Deliver` | crates/chat/src/border.rs:1536-1600 | marks all the messages, or none of them when nothing was put in motion; wakes exactly when one was unmarked and the session woke |
| `BorderStores.BorderStore.ActInbound` | crates/chat/src/border.rs:911-1018 | the receiver's record after a handover, on every verdict, start, reply, hop and resume outcome, executed statement by statement; the cases are those of the rows of `HandoverCases` |
| `BorderStores.BorderStore.ActOutbound` | crates/chat/src/border.rs:1233-1316 | the caller's record after a handover, likewise |
| `HandoverCases.AdmissionCases` | crates/chat/src/border.rs:913-965 | a submitted commission: admitted it is working with its session and its opening marked; refused by an unknown workspace, or with a written reply, it is rejected with the reason; a refusal without a reply leaves the claim; anything else leaves it |
| `HandoverCases.FollowCases` | crates/chat/src/border.rs:966-1036 | an admitted one: taken back it is canceled with the message's text and everything marked; without room for unserved messages it is left; else the newest message says its state (another sender: working; the worker escalating: input required; the worker's plain reply: completed), and all is marked unless nothing came of the wake |
| `HandoverCases.OutboundCases` | crates/chat/src/border.rs:1233-1299 | the caller's row while an answer is expected: canceled when it cannot be vouched for or is overdue in an open state; rejected when refused; where the newest message says once answered; else working once the peer holds it |
| `HandoverCases.OutboundMarks` | crates/chat/src/border.rs:1299-1316 | the caller's marks: what the worker wrote, unless nobody is expected, it gave up, or a session was resumed without room or effect |
| `HandoverCases.DueMarks` | crates/chat/src/border.rs:970-976 | marking what is due is marking all of the other side's messages, and nothing is due exactly when all are marked |
| `BorderStores.BorderStore.HandOver` | crates/chat/src/border.rs:774-804 | every listed thread ends as if it alone had been handled, no row appears or goes, and final rows stay as they were |
| `Border.DueMeans` | crates/chat/src/border.rs:970-976 | the messages to hand on are exactly those from the other side that are not served |
| `Border.NewestRefusal` | crates/chat/src/border.rs:1270-1274 | finds a refusal exactly when a message of the worker carries one, and then the one in the newest such message |
| `Border.HandledFrame` | crates/chat/src/border.rs:774-804 | acting on a thread touches no other thread and never gives a mark back |
| `Border.HandledTwiceInbound` | crates/chat/src/border.rs:771-774 | on an admitted commission a second handover after one that put its messages in motion changes nothing, however the host answers |
| `Border.HandledTwiceOutbound` | crates/chat/src/border.rs:771-774 | the same on the caller's side while the answer is vouched for and in time |
| `Interleaving.AdmissionThroughout` | crates/chat/src/border.rs:433-444 | in every interleaving at most one run holds an admission, and a held or started commission is not submitted |
| `Interleaving.OneStart` | crates/chat/src/border.rs:913-965 | two starts for one commission are never in flight together, at most one ever succeeds, and none is in flight after it |
| `Interleaving.DeliveryThroughout` | crates/chat/src/border.rs:1536-1600 | in every interleaving a delivery is under way in one run or over, and every message it holds or carried is marked in the table as its claim |
| `Interleaving.DeliveredOnce` | crates/chat/src/border.rs:1546-1600 | no message is carried by two deliveries that woke or held a session |
| `Interleaving.OnlyOwnClaimsReturned` | crates/chat/src/border.rs:425-431 | a step that takes a mark away is a delivery giving back its own claim, and takes nothing else |
| `Returns.GivesAllBack` | crates/chat/src/border.rs:1593-1598 | a delivery that put nothing in motion gives back exactly what its steps took out of the table, which is everything they had put in but the messages whose delete failed |
| `Returns.ClaimableAgain` | crates/chat/src/border.rs:1546-1598 | for every message a delivery won, a later step of it takes the message out of the table exactly when its delete did not fail, and these are the messages it counts as given back |
| `Returns.FailedStaysClaimed` | crates/chat/src/border.rs:425-431 | a message whose delete failed stays marked as that delivery's claim in every later state, and no other delivery carries it |
| `Returns.StillClaimedExactly` | crates/chat/src/border.rs:425-431 | once a delivery has given back, its claims that still stand are exactly those whose delete failed |
| `Stranded.StrandedForever` | crates/chat/src/border.rs:966-969 | a commission that is working without a session stays as it is through any number of handovers, whatever they answer |
| `Stranded.RefusalEndsExactly` | crates/chat/src/border.rs:1137-1211 | a refusal that is answered ends rejected exactly when its reply could be written, and leaves the commission stranded otherwise |
| `Stranded.StopStrands` | crates/chat/src/border.rs:926-938 | so does a run that stops after the claim or after the start |
| `Stranded.StoppedForGood` | crates/chat/src/border.rs:433-444 | in every interleaving, after a holder of an admission stops nobody holds it again and no start succeeds |
| `Stranded.FinalKeptExactly` | crates/chat/src/border.rs:392-405 | a final state survives a step exactly when the step is no other state's write, no refusal's record over another state and no admission given back |
| `Stranded.FinalOverwritten` | crates/chat/src/border.rs:1005-1015 | a run in which a canceled commission is completed by a run that read it earlier |
| `Undisturbed.StartAlone` | crates/chat/src/border.rs:924-940 | uninterrupted, the steps of an admission leave the record the whole operation leaves |
| `Undisturbed.FailAlone` | crates/chat/src/border.rs:929-936 | a start that fails leaves the record as it was |
| `Undisturbed.RefuseAlone` | crates/chat/src/border.rs:956-962 | uninterrupted, a refusal leaves the rejected row |
| `Undisturbed.DeliverAlone` | crates/chat/src/border.rs:1536-1600 | uninterrupted, the steps of a delivery leave the record the whole delivery leaves |
| `Settlement.Throughout` | crates/chat/src/border.rs:966-1035 | over every run of posts, withdrawal, discovery and handovers one at a time, the caller is canceled exactly when the commission is withdrawn, and a served withdrawal has canceled the receiver |
| `Settlement.InState` | crates/chat/src/border.rs:966-1018 | the receiver's state after its handover: canceled when withdrawn, else by the newest message: working after another sender, input required after the worker's escalation, completed after its plain reply |
| `Settlement.OutState` | crates/chat/src/border.rs:1233-1299 | the caller's state after its handover: canceled when withdrawn, else by the newest message once the worker has answered, else working once the peer holds it |
| `Settlement.BothSettle` | crates/chat/src/border.rs:966-1316 | after any such run of an admitted commission, one handover on each side in either order leaves both records in the one state the newest message says, or canceled when withdrawn |
| `ThreadLog.SomeoneHolds` | crates/chat/src/message_reducer.rs:42-98 | a claimed message or thread has a holder, the claimant none is lower than |
| `ThreadLog.OneHolds` | crates/chat/src/message_reducer.rs:195-219 | and only one, where no two ops share a coordinate |
| `ThreadLog.OwnerHoldsRow` | crates/chat/src/message_reducer.rs:42-98 | the op whose id a message or thread is named after holds its row |
| `ThreadLog.LowestHoldsRow` | crates/chat/src/message_reducer.rs:195-219 | where no such op is held, the claimant with the lowest Lamport number does, of equal ones that of the lowest site |
| `ThreadLog.RowDepends` | crates/chat/src/border.rs:537-542 | where a message lies depends on nothing but the ops about it |
| `ThreadLog.SelectedMeans` | crates/chat/src/border.rs:532-548 | the selection is exactly the four disjuncts of the query: ops of the thread, of a message placed in it and its channel, of the channel, and of memberships whose target is the channel, the separator and a handle |
| `ThreadLog.DirectMeans` | crates/chat/src/border.rs:515-531 | the check passes exactly when two distinct live adds are the only ones of the channel, its id is that of their two handles, and one of them opened the thread |
| `ExchangeRuns.LowestMessagePlaces` | crates/chat/src/store.rs:2922-2931 | a thread without a root stands in the channel of its message with the lowest id |
| `ExchangeRuns.OpLog.ThreadOps` | crates/chat/src/border.rs:515-548 | the ops of the query's four disjuncts and no others; refused exactly unless the channel is the direct conversation of its two live members and one of them opened the thread |
| `ExchangeRuns.OpLog.CopyThread` | crates/chat/src/border.rs:551-563 | afterwards the other log holds what it held and the ops of the four disjuncts, and nothing else; unchanged on a refusal; counts none exactly when nothing changed |
| `ExchangeRuns.OpLog.Exchange` | crates/chat/src/border.rs:808-831 | a push and a pull; a refusal of the pull leaves what the push did; reports movement exactly when a log changed |
| `ExchangeRounds.PushedAndPulled` | crates/chat/src/border.rs:808-831 | whatever the logs hold, a success puts every op of the thread as the near log places it into the far log, and every one as the far log then places it into the near log; nothing is lost |
| `ExchangeRounds.ExchangeCarries` | crates/chat/src/border.rs:808-831 | after a success every thread op, channel op and membership op of the conversation that either log held is in both |
| `ExchangeRounds.EverythingCrosses` | crates/chat/src/border.rs:551-563 | both copies together bring each such op that either log held into both logs, and the ops about each message a copying side places in the thread into the other |
| `Exchange.SelectedSameExactly` | crates/chat/src/border.rs:515-563 | after both copies the logs select the same ops of the thread exactly when they settle on every message |
| `Exchange.AgreedPostsSettle` | crates/chat/src/border.rs:515-563 | they settle when no two posts dispute a message |
| `Exchange.DisputeUnsettles` | crates/chat/src/message_reducer.rs:58-71 | they do not when either side places a message in the thread whose lowest post among both places it elsewhere |
| `ExchangeRounds.MergedTwiceExactly` | crates/chat/src/border.rs:551-563 | a second round of copies changes neither log exactly when no message the far log and both together place in the thread, but the near log does not, has an op at the near side that the far side lacks |
| `ExchangeRounds.DisputedCopiesTwice` | crates/chat/src/border.rs:551-563 | two logs whose second round does copy |
| `ExchangeRounds.ThirdCopiesNothing` | crates/chat/src/border.rs:551-563 | a third round changes neither log, whatever they hold |
| `ExchangeRounds.SucceedsExactly` | crates/chat/src/border.rs:808-812 | an exchange of a thread recorded once succeeds exactly when the near log's live membership tags, and the far log's with the near log's memberships added, are those of a direct conversation with the opener |
| `ExchangeRounds.SecondExactly` | crates/chat/src/border.rs:808-831 | after a success: the second exchange succeeds exactly when the near log, with the far log's memberships added, still sees the direct conversation; it copies nothing exactly when it is refused or nothing was hidden; both logs select the same ops exactly when they settled and neither refuses |
| `ExchangeRounds.ThirdExchange` | crates/chat/src/border.rs:808-831 | a third exchange never copies anything |
| `ExchangeRuns.RunGains` | crates/chat/src/border.rs:515-563 | over every run of writes and exchanges from either side, no log loses an op, and each gains only what is written into it or belongs to an exchanged thread in its two-party direct channel |
| `Consolidation.ClaimStore.ExpectsVersion` | crates/chat/src/consolidation_claim.rs:94-104 | the one position every claim of the thread is keyed on and a release removes; none for an unknown thread |
| `Consolidation.ClaimStore.ClaimConsolidation` | crates/chat/src/consolidation_claim.rs:106-124 | wins exactly when the thread is known, its register is not the JSON list of the marker, and its current round unclaimed |
| `Consolidation.ClaimStore.ReleaseConsolidationClaim` | crates/chat/src/consolidation_claim.rs:138-149 | removes the claim of the current round and no other |
| `Consolidation.RunKeeps` | crates/chat/src/consolidation_claim.rs:95-149 | in every interleaving every claim is at or before its thread's current round, the claimed rounds are the held ones, and each has one holder |
| `Consolidation.OneHolderPerRound` | crates/chat/src/consolidation_claim.rs:106-149 | from a device without claims at most one process holds a round, whichever markers are used |
| `Consolidation.NewRoundIsClaimable` | crates/chat/src/consolidation_claim.rs:78-124 | after a newer declaration the round can be claimed exactly when its value is not the claimer's marker, and by one claimer |
| `Consolidation.NewestDeclarationStands` | crates/chat/src/consolidation_claim.rs:76-104 | of two declarations the one of the higher number stands, of equal numbers that of the higher site, whichever comes first |
| `Consolidation.ReleaseUndoesClaim` | crates/chat/src/consolidation_claim.rs:126-149 | releasing a claim just taken leaves the tables as they were |
| `Consolidation.ReleaseKeepsExactly` | crates/chat/src/consolidation_claim.rs:126-149 | whoever releases, the claims stay sound exactly when the caller holds the current round or nobody does |
| `Consolidation.LateReleaseDoubles` | crates/chat/src/consolidation_claim.rs:126-149 | a release by a process that does not hold the claimed current round lets a second process claim it |

## Assumptions of the model

- The workflow files of a directory have distinct file names. The reason of an exemption is measured
  in UTF-8 bytes after trimming.
- A feed entry carries its version as three numbers: the feed is refused at load unless every version
  is plain SemVer, and `SemVer.OneSpelling` says text and numbers determine each other. Sorting a ring
  is modelled as a stable insertion.
- In `ThreadLog` the id of a direct conversation is a given function of its two handles. An op with an
  unreadable value says nothing, as the reducer stores it without folding it.
- In `ExchangeRuns` the side that runs an exchange holds the op that opened the thread, which
  recording the thread requires, and all opens of the thread among the ops name one channel and one
  opener. Log objects hold no two ops with the same coordinate.
- In `Consolidation` a register is overwritten only by a declaration of a strictly newer position, and
  a marker needs no JSON escaping.
- In `Settlement` both sides read the same acting messages, which holds once both logs hold the
  thread's ops and each side trusts the other's key; the commission is not refused and the deadline
  has not passed.

## Left out

- YAML, TOML and JSON decoding, SQLite, git, cargo and npm, and reading and writing files: tables are maps and sets, documents are datatypes, and failures are answers handed in.
- Session spawning, wake texts, guidance and prompts of `crates/chat`: an attempt to start or resume is an answer handed in.
- Signatures, trust lists and hashing: the acting messages, the admission verdict and the direct conversation's id are given.
- The clock of the border deadline: whether a thread is overdue is an answer handed in.
- The handover report and the open marker file: only the record and the logs are modelled.
- The peer's own handover started from an exchange: it is another run of the same model.
- `needs:` between jobs: a job is judged by its own condition, as the guard does.
- The line-based Rust scanners, `source_problems` of the layering gate and the finding of module declarations: the module graph is given.
- The macOS predicate evaluator (`eval`, `is_macos_only`), which folds the connectives of `Truths` over a `cfg` predicate.
- Curated rollups, migration guides and the changelog pull-request check: a promotion takes the curated items as given.
