# Verified models of OpenClaw's self-contained algorithms

This project models the algorithms of the OpenClaw repository that carry real
invariants and proves what they are for. Every statement holds for all inputs, all runs or all
interleavings of the modelled code. Check it with `dafny verify dfyconfig.toml`.

## What is modelled

**Import cycles** (`ModuleGraph`, `ImportCycles`, `CycleWitness`, `ImportWorklist`).
The cycle check runs Tarjan's algorithm as a recursive search that updates a stack, an on-stack set,
and index and low-link maps. `ComponentSearch` keeps those fields and that recursion; what each
step keeps is proved on values (`Search`, `Inv`). The result lists exactly the strongly
connected components that hold a cycle. The "stack underflow" error is reachable in one
case only: a file named by the empty string, which the popping loop takes for an empty stack. The witness search
then yields a genuine simple cycle for each reported component, and its fall-back to the whole
component is taken exactly when no cycle lies ahead of the first node. A separate module collects a file's relative
imports with a worklist and finds what graph reachability says.

**Locale sync** (`TranslationBatches`, `TranslateRetry`, `LocaleTree`, `LocaleObjects`, `LocaleSync`).
Translation objects are nested nodes on the heap, written through a moving cursor; a tree's texts are a map
from paths. Greedy batches are optimal. A batch that times out is retried and split; the
exact bound on prompts is proved and shown to be attained. A sync run decides each key from
memory, existing text, provider and fallback. Memory keys name the configured provider and model. As long as
those stay the same a second run without a provider changes nothing; when they change between runs, the exact
condition is proved. After a provider run nothing is left to translate.

**Active memory** (`OrderedMap`, `RecallCache`, `ToggleLock`, `XmlEscape`).
The recall cache is a class over an insertion-ordered map with a ghost history of all writes. The toggle
store is a state machine whose steps are the stretches between two waits; any number of calls may
interleave. Escaping by five passes equals one substitution with an exact inverse.

**Plugins** (`PairNotify`, `BedrockDiscovery`, `BedrockConfig`, `ClaudeArgs`).
Runs of the pairing notifier, interleavings of Bedrock discoveries, the migration of Bedrock settings, and the
two passes over Claude arguments.

**Texts and releases** (`Basics`, `JsText`, `MarkerBlock`, `Utf16`, `SparkleBuild`, `Appcast`).
Replacing a block between markers, cutting UTF-16 text, build floors of calendar
versions, and the check of the update feed.

Code that updates state in place is a class or a method with loops, proved equal to a function or related to a
specification predicate; the properties are lemmas about those. Clocks, hash functions, provider replies,
failures of reads and writes, and outcomes of sends are arguments about which nothing is assumed
except what a row says.

## Where a natural claim fails

Each of these is stated with its exact condition.

- The "stack underflow" error does occur, when a file is named by the empty string
  (`ImportCycles.CollectStronglyConnectedComponents`). Real file names are never empty.
- A locale key that begins with a dot does not survive flattening of the rebuilt tree: an empty prefix is
  dropped (`LocaleTree.FlattenOfBuild`; `LocaleTree.LeadingDotIsLost` is an instance).
- A second sync run without a provider can change texts: without an API key the configured provider can be another one,
  and the memory then answers under that provider's keys. It changes a text exactly when the memory overrules it
  (`LocaleSync.SecondRunOffline`; `LocaleSync.ChangedProviderOverrules` is an instance).
- The pairing subscriber keys can collide when a command names an account or thread with white space around it, since keys
  are made before trimming and the file is trimmed when read. They stay distinct exactly when the command changes nothing or
  no subscriber but the one it replaces has the trimmed key (`PairNotify.RereadKeepsDistinct`;
  `PairNotify.UntrimmedTargetsCollide` adds an entry, `PairNotify.ReplacedTargetsCollide` replaces one).
- The Bedrock migration changes the meaning of a field where both sides hold a record, where the plugin has the field
  as `undefined`, or where its name is blocked, unless nothing is there to move (`BedrockConfig.MigrationPreserves`;
  `BedrockConfig.RecordsChangeMeaning` is an instance).
- Replacing a marker block twice differs from replacing it once exactly when the start marker or an inserted line holds
  the end marker (`MarkerBlock.ReplaceIdempotent`; `MarkerBlock.EndMarkerInsideGrows` is an instance).
- A feed without errors can mix the two build schemes on two versions exactly when the one with the small build is dated
  before the year 1000 and not before the other (`Appcast.SchemesMixIff`; `Appcast.EarlyYearsMix` is an instance).

## Model

| member | source | states |
|---|---|---|
| `ImportCycles.CollectStronglyConnectedComponents` | scripts/check-import-cycles.ts:155-208 | the report names every strongly connected component with a cycle, nothing else, no file twice; it is empty iff the graph is acyclic; the underflow error occurs iff a file is named by the empty string |
| `ImportCycles.ComponentSearch.Visit` | scripts/check-import-cycles.ts:165-197 | the recursive visit keeps the search invariant, ends (each file is numbered once), and leaves a low-link that no edge of the node's subtree undercuts |
| `ImportCycles.ComponentSearch.Enter` | scripts/check-import-cycles.ts:166-170 | the first lines of a visit number the node and stack it |
| `ImportCycles.ComponentSearch.Finish` | scripts/check-import-cycles.ts:181-196 | the last lines of a visit either leave the node stacked or retire its component, and keep the invariant |
| `ImportCycles.ComponentSearch.PopComponent` | scripts/check-import-cycles.ts:184-193 | popping removes exactly the stack from the node upwards, and fails iff an empty name is among what it pops |
| `ImportCycles.PushKeepsInv` | scripts/check-import-cycles.ts:166-170 | numbering and stacking a new node keeps the invariant |
| `ImportCycles.ScanKnown` | scripts/check-import-cycles.ts:176-178 | an import already numbered, stacked or retired, lowers the low-link as far as needed and no further |
| `ImportCycles.ScanChild` | scripts/check-import-cycles.ts:173-175 | after a recursive visit the child's low-link accounts for all edges of its subtree |
| `ImportCycles.SegmentMeetsRoot` | scripts/check-import-cycles.ts:184-193 | every node stacked above a finished root and the root reach each other |
| `ImportCycles.SegmentIsMaximal` | scripts/check-import-cycles.ts:184-193 | nothing outside that segment is mutually reachable with it |
| `ImportCycles.SegmentIsComponent` | scripts/check-import-cycles.ts:184-193 | the popped segment is a strongly connected component |
| `ImportCycles.RetireKeepsInv` | scripts/check-import-cycles.ts:184-196 | popping a component, reported exactly when non-trivial, keeps the invariant |
| `ImportCycles.ExactReport` | scripts/check-import-cycles.ts:193-208 | reportable, disjoint components that cover every node on a cycle are exactly the components with a cycle |
| `ImportCycles.NontrivialIsOnCycle` | scripts/check-import-cycles.ts:193-195 | every member of a component with two members or a self-import lies on a cycle |
| `ImportCycles.ComponentsMeet` | scripts/check-import-cycles.ts:155-208 | two strongly connected components that share a file are the same |
| `CycleWitness.FindCycleWitness` | scripts/check-import-cycles.ts:210-243 | a simple cycle inside the component if one lies ahead of its first node, otherwise the component; always a simple cycle for a reported component |
| `CycleWitness.WitnessSearch.Visit` | scripts/check-import-cycles.ts:216-239 | the second search returns only simple cycles inside the component, and when it returns none it leaves the active path as it was |
| `CycleWitness.CloseCycle` | scripts/check-import-cycles.ts:225-230 | cutting the active path at an import it already holds gives a simple cycle |
| `CycleWitness.FinishedHasNoCycle` | scripts/check-import-cycles.ts:216-239 | no cycle inside the component can be reached from a node whose search ended empty-handed |
| `CycleWitness.FinishedNotReportable` | scripts/check-import-cycles.ts:210-243 | in a reported component no node is ever finished without a cycle: the search never backtracks |
| `CycleWitness.CheckImportCycles` | scripts/check-import-cycles.ts:253-275 | the whole check: no components iff acyclic, and one simple cycle inside each reported component |
| `ImportWorklist.CollectRelativeImportGraph` | scripts/load-channel-config-surface.ts:117-144 | the worklist finds the files reachable from the entry, each once, and nothing else |
| `ImportWorklist.PopNew` | scripts/load-channel-config-surface.ts:124-140 | taking up a new file and queueing its imports keeps every found file reachable and every edge inside what is found or waiting |
| `TranslationBatches.BuildTranslationBatches` | scripts/control-ui-i18n.ts:659-683 | the batches concatenate to the items in order, each within the limits, and no plan within the limits has fewer batches |
| `TranslationBatches.GreedyStaysAhead` | scripts/control-ui-i18n.ts:659-683 | any plan that still has at least as much to send needs at least as many batches |
| `TranslationBatches.RunningCharsExceedEstimate` | scripts/control-ui-i18n.ts:499-501 | the loop's running cost is the estimate of the batch plus two a string, so a batch within the budget is within it by the estimate too |
| `TranslationBatches.EstimateAdds` | scripts/control-ui-i18n.ts:499-501 | the estimate is 2 and, for each string anywhere in the batch, its key, its text and 8 more |
| `TranslationBatches.FitsInside` | scripts/control-ui-i18n.ts:659-683 | a part of a batch that fits, fits |
| `TranslateRetry.TranslateBatch` | scripts/control-ui-i18n.ts:925-987 | the attempts and splits of the code give the outcome, the number of prompts and the depth of the specification run |
| `TranslateRetry.TimeoutMessages` | scripts/control-ui-i18n.ts:473-475 | an error is a timeout exactly when its message says "timed out" somewhere, in any mixture of cases |
| `TranslateRetry.TimeoutSplits` | scripts/control-ui-i18n.ts:959-978 | a batch of two or more whose prompt timed out comes to what its halves come to after that one prompt, the first being the larger, the second asked only if the first returns; a single string fails after that one prompt |
| `TranslateRetry.OtherErrorAsksAgain` | scripts/control-ui-i18n.ts:933-986 | after any other failure the batch is asked for once more, and a second failure that does not split it ends it |
| `TranslateRetry.CompleteReplyReads` | scripts/control-ui-i18n.ts:942-952 | a reply with a non-blank value for every item is accepted with exactly those values |
| `TranslateRetry.IncompleteReplyFails` | scripts/control-ui-i18n.ts:944-949 | any other reply fails, naming the first item without one |
| `TranslateRetry.ReturnsComplete` | scripts/control-ui-i18n.ts:925-987 | whatever the replies, a batch that returns has a non-blank value for exactly its keys, each taken from a reply to this batch |
| `TranslateRetry.PromptBound` | scripts/control-ui-i18n.ts:925-987 | a batch of n strings takes at most 4n - 2 prompts |
| `TranslateRetry.PromptBoundIsMet` | scripts/control-ui-i18n.ts:925-987 | for every batch there are replies under which it takes 4n - 2 prompts and still returns |
| `TranslateRetry.DepthBound` | scripts/control-ui-i18n.ts:959-975 | the splitting depth is at most the ceiling of log2 n |
| `TranslateRetry.FailsWithLastError` | scripts/control-ui-i18n.ts:953-986 | a batch fails only with the error of its very last prompt, which gave up on a run of its items |
| `TranslateRetry.FieldsComplete` | scripts/control-ui-i18n.ts:942-952 | a reply is accepted only when it has a non-blank value for every item |
| `LocaleTree.FlattenOfBuild` | scripts/control-ui-i18n.ts:281-308 | rebuilding entries and flattening gives the entries back, in any order of insertion, exactly when no key begins another and none begins with a dot |
| `LocaleTree.LeadingDotIsLost` | scripts/control-ui-i18n.ts:281-308 | the key ".a" comes back as "a" |
| `LocaleTree.RebuildOriginal` | scripts/control-ui-i18n.ts:281-308 | the flattened form of a tree with non-empty dot-free keys, written back in any order, has the tree's own texts |
| `LocaleTree.DottedSplit` | scripts/control-ui-i18n.ts:281-297 | a key's parts are listed under the key itself exactly when it does not begin with a dot |
| `LocaleTree.SplitJoin` | scripts/control-ui-i18n.ts:293-294 | splitting undoes joining for parts without dots |
| `LocaleTree.BuildTexts` | scripts/control-ui-i18n.ts:293-308 | in a build no text lies above another, and each is the value of its key |
| `LocaleTree.BuildKeepsAll` | scripts/control-ui-i18n.ts:293-308 | when no key begins another, the build keeps every entry |
| `LocaleObjects.TranslationTree.SetNestedValue` | scripts/control-ui-i18n.ts:293-308 | writing through the cursor changes the tree's texts as one write at the split path: what lay on the way or below is gone, all else stays |
| `LocaleObjects.TranslationTree.EnterObject` | scripts/control-ui-i18n.ts:297-305 | one turn of the cursor enters the object under the key, or puts a new one in place of a text |
| `LocaleObjects.TranslationTree.PutText` | scripts/control-ui-i18n.ts:307-307 | the last step writes the text and cuts off what hung there |
| `LocaleObjects.FlattenTranslations` | scripts/control-ui-i18n.ts:281-291 | the recursive flattening adds every text below the object under its full key, and nothing else |
| `LocaleObjects.Flatten` | scripts/control-ui-i18n.ts:281-291 | flattening a tree gives a flattened form of its texts |
| `LocaleObjects.BuildLocaleMap` | scripts/control-ui-i18n.ts:1135-1138 | writing the entries one by one into an empty tree gives the build of the entries |
| `LocaleSync.SyncKeys` | scripts/control-ui-i18n.ts:1017-1128 | a run gives every source key the value, fallback mark and memory of the decision table, or ends with the error of a batch; with a provider the pending strings are sent in a greedy plan of batches, the values are those the batches return, in order, the run fails exactly when one of them fails, and it asks exactly their prompts |
| `LocaleSync.DecisionTable` | scripts/control-ui-i18n.ts:1021-1128 | which text each source string gets and whether it is marked as a fallback, from the memory, the existing texts, the previous fallbacks, the values returned and the two options |
| `LocaleSync.OfflineFallbacks` | scripts/control-ui-i18n.ts:1021-1128 | after a run without a provider the fallbacks are exactly the strings neither remembered nor there, which got the source text, and the previous ones; the next run with a provider asks for exactly these |
| `LocaleSync.PendingExact` | scripts/control-ui-i18n.ts:1021-1050 | what is asked for is exactly the strings that are not known, with their texts and hashes, in source order |
| `LocaleSync.Decide` | scripts/control-ui-i18n.ts:1021-1050 | each key is settled from memory or existing text, or pending, with the fallback marks carried over |
| `LocaleSync.TranslatePending` | scripts/control-ui-i18n.ts:1052-1112 | the batches of a greedy plan are sent one after the other up to the first that fails; their values go into the locale map and the memory |
| `LocaleSync.FillRest` | scripts/control-ui-i18n.ts:1114-1128 | strings left over keep the existing text or get the source text and the mark, as the table of leftovers says |
| `LocaleSync.LeftoverTable` | scripts/control-ui-i18n.ts:1114-1128 | a string left over gets the existing text, staying a fallback if it was one, or the source text and the mark |
| `LocaleSync.OfflineIsFixpoint` | scripts/control-ui-i18n.ts:1017-1147 | after any completed run, a run without a provider gives the same locale map, fallbacks and memory, as long as the configured provider and model stay the same |
| `LocaleSync.ProviderIsFixpoint` | scripts/control-ui-i18n.ts:1017-1147 | so does a second run with a provider, after one that translated all it was asked for |
| `LocaleSync.SecondRunOffline` | scripts/control-ui-i18n.ts:1017-1147 | whatever the second run's memory keys: fallbacks and memory repeat, and the locale map repeats exactly when the memory under those keys holds no other text for a source string |
| `LocaleSync.ChangedProviderOverrules` | scripts/control-ui-i18n.ts:198-249 | a concrete run with a key for one provider, after which a run without keys brings back a text remembered for another provider |
| `LocaleSync.OwnKeysAgree` | scripts/control-ui-i18n.ts:1017-1112 | the memory under the keys of a completed run never holds another text than the one it put out |
| `LocaleSync.SecondRunPending` | scripts/control-ui-i18n.ts:1017-1050 | whatever its memory keys, a second run has exactly the first run's fallbacks to work on, and only with a provider |
| `LocaleSync.SecondRunAfterProvider` | scripts/control-ui-i18n.ts:1017-1147 | after a complete provider run nothing is a fallback and nothing is pending in a second run, whatever its memory keys; that run writes the same map exactly when the memory under them holds no other text |
| `LocaleSync.CountsAddUp` | scripts/control-ui-i18n.ts:1144-1147 | fallbacks are among the source keys, so translated and fallback counts add up to the total |
| `LocaleSync.WrittenLocaleReadsBack` | scripts/control-ui-i18n.ts:1135-1138 | the written locale, read again, is the run's own map exactly when no source key begins another and none begins with a dot |
| `LocaleSync.SecondRunFromFile` | scripts/control-ui-i18n.ts:1000-1147 | a second run, with or without a provider, that loads the written locale has the same strings pending and ends like one that has the texts of the first, under source keys of which none begins another or begins with a dot |
| `RecallCache.CacheIsMostRecent` | extensions/active-memory/index.ts:780-816 | with one time to live, the unexpired part of the cache is exactly the 1000 most recently written distinct unexpired keys, with their latest values |
| `RecallCache.MissIsOld` | extensions/active-memory/index.ts:780-816 | with any times to live, a missing key has expired or 1000 other keys were written after it, and a present one has its latest value |
| `RecallCache.RecallStore.GetCachedResult` | extensions/active-memory/index.ts:780-790 | a hit is the latest unexpired value; with one time to live a lookup hits iff the key is live and among the 1000 most recent; an expired entry is deleted and no other changes |
| `RecallCache.RecallStore.SetCachedResult` | extensions/active-memory/index.ts:792-808 | a write is appended to the history and is in the cache; expired entries are gone, no other changes, and none is lost below 1000 entries |
| `RecallCache.RecallStore.EvictOverflow` | extensions/active-memory/index.ts:801-807 | an overfull cache loses exactly its oldest entry, any other stays as it is |
| `RecallCache.RecallStore.SweepExpiredCacheEntries` | extensions/active-memory/index.ts:810-816 | the sweep deletes exactly the expired entries |
| `RecallCache.OrderExpires` | extensions/active-memory/index.ts:792-808 | with one time to live, entries expire in the order of their last writes |
| `RecallCache.LatestIsLastWrite` | extensions/active-memory/index.ts:797-800 | the latest entry of a key is that of its last write in the history |
| `RecallCache.OrderByLastWrite` | extensions/active-memory/index.ts:794-800 | keys stand in the order of their last writes |
| `ToggleLock.TogglesAreSequential` | extensions/active-memory/index.ts:148-172 | in every interleaving at most one call is in its critical section, calls begin in order of arrival, and the file is what the committed calls make of the first file one after the other |
| `ToggleLock.StepKeeps` | extensions/active-memory/index.ts:390-406 | every step of every call, failed reads and writes included, keeps the invariant |
| `ToggleLock.NeverStuck` | extensions/active-memory/index.ts:148-163 | as long as a call is unfinished some call can step, whatever failed before |
| `ToggleLock.ReaderSeesPrefix` | extensions/active-memory/index.ts:371-388 | a reader without the lock sees the file as a prefix of the calls, in order of arrival, has left it |
| `ToggleLock.LastToggleWins` | extensions/active-memory/index.ts:326-406 | when no read failed, a session is disabled as its last committed toggle says, whatever other sessions did |
| `ToggleLock.CommittedCall` | extensions/active-memory/index.ts:326-406 | a committed call enters or deletes its own session, with the time of the call, and keeps the disabled entries of the others, or drops them all if its read failed |
| `ToggleLock.UncommittedCall` | extensions/active-memory/index.ts:360-369 | a call whose write failed changes nothing |
| `ToggleLock.RenameCommits` | extensions/active-memory/index.ts:360-369 | what a call renames into place was computed from the file as it still is |
| `XmlEscape.EscapeIsEncode` | extensions/active-memory/index.ts:954-961 | five passes, one after the other, equal one substitution per character |
| `XmlEscape.EscapeRoundTrip` | extensions/active-memory/index.ts:954-961 | reading the entities undoes escaping, escaping is injective, and it reaches exactly the texts that read back |
| `XmlEscape.BlockHasOneTagPair` | extensions/active-memory/index.ts:999-1008 | the block has one opening tag, at its start, and one closing tag, at its end, whatever the summary, which reads back from between them |
| `XmlEscape.BlockForSummary` | extensions/active-memory/index.ts:999-1002 | there is a block exactly when there is a summary that is not empty |
| `PairNotify.NotifierRuns` | extensions/device-pair/notify.ts:240-351 | over every run of ticks and commands from any file whose subscribers have distinct keys, with commands that keep them distinct: keys stay distinct, notified ids are pending ones, no delivered request that stays pending is sent again within 24 hours, two ticks that serve a one-shot subscriber have an arming of it in between, and it is never sent a request older than its last arming |
| `PairNotify.NotifierDelivers` | extensions/device-pair/notify.ts:290-351 | in every run a pending request that a persistent subscriber, or a one-shot one armed no later than its stamp, is to hear of, and whose send gets through, is delivered in the tick, unless it was delivered within the last 24 hours; either way it is remembered |
| `PairNotify.SentExactly` | extensions/device-pair/notify.ts:240-331 | a request is sent to exactly the persistent subscribers and the one-shot ones armed no later than its stamp, unless it is remembered from the last 24 hours or was delivered earlier in the tick |
| `PairNotify.TickExactly` | extensions/device-pair/notify.ts:301-345 | which ids are notified after a tick and with which time, which count as delivered, and which subscribers are gone |
| `PairNotify.OneShotTick` | extensions/device-pair/notify.ts:240-351 | within a tick a one-shot subscriber is sent only requests stamped no earlier than its entry, and is gone after a delivery |
| `PairNotify.StepKeeps` | extensions/device-pair/notify.ts:290-465 | every tick and every command keeps the run invariant |
| `PairNotify.RereadKeepsDistinct` | extensions/device-pair/notify.ts:82-134 | after any command that adds, replaces or keeps an entry, the file read again has distinct keys exactly when the command changes nothing or no subscriber but the one it replaces has the trimmed key |
| `PairNotify.UntrimmedTargetsCollide` | extensions/device-pair/notify.ts:187-209 | a concrete state where an untrimmed account makes two subscribers collide after reading |
| `PairNotify.ReplacedTargetsCollide` | extensions/device-pair/notify.ts:187-209 | a concrete state where an untrimmed account takes the entry of another subscriber and then collides with a third |
| `PairNotify.Notifier.ReadNotifyState` | extensions/device-pair/notify.ts:82-134 | whatever the file holds, reading gives its normalised state: texts trimmed, entries without target or id or with a non-positive stamp dropped, an unreadable file empty |
| `PairNotify.ReadsOneByOne` | extensions/device-pair/notify.ts:90-119 | subscribers are read one by one: dropped when the recipient is blank, and otherwise trimmed |
| `PairNotify.ReadsLastStamp` | extensions/device-pair/notify.ts:121-131 | an id is read with the last positive time listed for it |
| `PairNotify.NormalizeTrims` | extensions/device-pair/notify.ts:82-134 | the state read from any file is trimmed |
| `PairNotify.WrittenReadsBack` | extensions/device-pair/notify.ts:82-151 | what a written file reads as, in whatever order its ids were listed; a trimmed state reads as it was written |
| `PairNotify.FileFollows` | extensions/device-pair/notify.ts:290-465 | what a step leaves in the file reads as the state of the run |
| `PairNotify.Notifier.NotifyPendingPairingRequests` | extensions/device-pair/notify.ts:290-351 | for every file, a tick with its loops leaves a file that holds the specification tick of the state read, or leaves the file alone when that state is unchanged |
| `PairNotify.Notifier.SendToAll` | extensions/device-pair/notify.ts:310-331 | one request goes to every subscriber it concerns; delivery and served one-shots are those of the specification |
| `PairNotify.Notifier.UpsertNotifySubscriber` | extensions/device-pair/notify.ts:187-209 | for every file: adds the target or changes its mode, and leaves the file alone exactly when the entry has the mode already |
| `PairNotify.RereadUpsert` | extensions/device-pair/notify.ts:187-209 | after a command the file reads with the trimmed target appended, or in the place of the entry it replaces, or unchanged when the mode was the same |
| `PairNotify.RemoveKeeps` | extensions/device-pair/notify.ts:425-434 | removing a target leaves exactly the subscribers with other keys |
| `PairNotify.Notifier.RemoveNotifySubscriber` | extensions/device-pair/notify.ts:425-434 | for every file: writes the state without the subscriber found under the target's key, or leaves the file alone when there is none |
| `BedrockDiscovery.CoalescesInEveryRun` | extensions/amazon-bedrock/discovery.ts:329-429 | in every interleaving a cached key has at most one unfinished discovery, an entry holds either a value or a discovery, a served value is younger than the interval from the start of its fetch, a call joins only an unfinished discovery and starts one only when there is none |
| `BedrockDiscovery.AfterResume` | extensions/amazon-bedrock/discovery.ts:408-429 | a failed discovery leaves no entry, a finished one is served until it expires, and other keys are untouched |
| `BedrockDiscovery.JoinersShareTheFetch` | extensions/amazon-bedrock/discovery.ts:331-429 | whatever is done in between, a joined call gets the outcome of the one fetch for its key that it found unfinished: the models, or a rejection where the call that started it returns an empty list |
| `BedrockDiscovery.ServedWasFetched` | extensions/amazon-bedrock/discovery.ts:344-416 | what is served from the cache is the result with which a fetch for the key settled in the run |
| `BedrockDiscovery.NoIntervalNoCache` | extensions/amazon-bedrock/discovery.ts:331-339 | without an interval nothing is cached and every call starts a fetch |
| `BedrockDiscovery.DiscoveryCache.Await` | extensions/amazon-bedrock/discovery.ts:336-338 | a joined call returns the models or is rejected |
| `BedrockDiscovery.StepKeeps` | extensions/amazon-bedrock/discovery.ts:329-429 | every step of an interleaving keeps the invariant |
| `BedrockDiscovery.DiscoveryCache.Discover` | extensions/amazon-bedrock/discovery.ts:329-406 | a call up to its first wait changes the cache as its step does and answers from the state before |
| `BedrockDiscovery.DiscoveryCache.Finish` | extensions/amazon-bedrock/discovery.ts:408-429 | the rest of the call stores the value or deletes the entry, and a failure comes to an empty list |
| `BedrockConfig.MergeMissing` | extensions/amazon-bedrock/config-compat.ts:27-41 | the loop over the source's fields, in any order, computes the recursive merge |
| `BedrockConfig.MergeFieldByField` | extensions/amazon-bedrock/config-compat.ts:27-41 | what each field of a merge is: untouched when blocked or absent in the source, taken over whole when missing, merged when both are records, and otherwise kept |
| `BedrockConfig.MergeKeepsLeaves` | extensions/amazon-bedrock/config-compat.ts:27-41 | merging never changes a value that is already set |
| `BedrockConfig.MergeFillsLeaves` | extensions/amazon-bedrock/config-compat.ts:27-41 | every value of the source arrives, along unblocked keys, unless the target has a value there or on the way |
| `BedrockConfig.MergeIdempotent` | extensions/amazon-bedrock/config-compat.ts:27-41 | merging the same source again changes nothing |
| `BedrockConfig.MergeChangesNothing` | extensions/amazon-bedrock/config-compat.ts:27-41 | merging changes nothing exactly when the target has, at every depth where both hold records, every unblocked field of the source |
| `BedrockConfig.MigrateAmazonBedrockLegacyConfig` | extensions/amazon-bedrock/config-compat.ts:62-107 | the migration step by step computes the specified configuration, and reports a change iff there were legacy settings |
| `BedrockConfig.MigrationPlaces` | extensions/amazon-bedrock/config-compat.ts:47-107 | `models` stays exactly when it held more than the legacy settings, without them; the new place has the legacy settings, merged into what is there, unless they are empty |
| `BedrockConfig.MigrationKeepsFields` | extensions/amazon-bedrock/config-compat.ts:62-107 | no other field of the root changes, and `plugins` only when there are settings to move |
| `BedrockConfig.MigrationIsOnceAndLocal` | extensions/amazon-bedrock/config-compat.ts:62-107 | migrating twice equals once, no legacy settings remain, and no other path changes |
| `BedrockConfig.MigrationPreserves` | extensions/amazon-bedrock/discovery.ts:438-441 | the effective value of a field survives the migration exactly when the plugin has it and a record of its covers the legacy record, nobody has it, or the legacy value may be moved |
| `BedrockConfig.RecordsChangeMeaning` | extensions/amazon-bedrock/config-compat.ts:62-107 | a concrete configuration with a record on both sides whose effective value changes |
| `BedrockConfig.FlatSettingsKeepMeaning` | extensions/amazon-bedrock/config-compat.ts:62-107 | flat settings without undefined fields and blocked keys keep their meaning |
| `ClaudeArgs.NormalizePermissionArgs` | extensions/anthropic/cli-shared.ts:99-133 | the loop over the arguments computes the permission pass |
| `ClaudeArgs.NormalizeSettingSourcesArgs` | extensions/anthropic/cli-shared.ts:135-167 | the loop over the arguments computes the setting-sources pass |
| `ClaudeArgs.NormalizeBackendArgs` | extensions/anthropic/cli-shared.ts:169-175 | the composition in the source's order |
| `ClaudeArgs.NormalizeEstablishes` | extensions/anthropic/cli-shared.ts:99-175 | whatever the arguments: no legacy flag, a permission mode, user setting sources only; unrelated arguments and given modes stay in order |
| `ClaudeArgs.NothingGiven` | extensions/anthropic/cli-shared.ts:99-175 | among other arguments the legacy flag is dropped where it is, and sources and mode are added at the end, in this order |
| `ClaudeArgs.ModeGiven` | extensions/anthropic/cli-shared.ts:110-123 | a mode is kept where it is exactly with a value that is not blank and does not begin with a dash; without one the flag alone is dropped |
| `ClaudeArgs.SourcesGiven` | extensions/anthropic/cli-shared.ts:145-158 | sources with such a value become the user's where they are; without one the flag alone is dropped |
| `ClaudeArgs.SpelledTogether` | extensions/anthropic/cli-shared.ts:124-160 | in the spelling with an equals sign a mode is kept and sources become the user's, where they are |
| `ClaudeArgs.NormalizeIdempotent` | extensions/anthropic/cli-shared.ts:99-175 | normalising again changes nothing; the fixed points are exactly the clean lists |
| `ClaudeArgs.CleanByPosition` | extensions/anthropic/cli-shared.ts:99-175 | what a clean list says of each position |
| `ClaudeArgs.PermissionPassKeepsSources` | extensions/anthropic/cli-shared.ts:99-133 | the permission pass leaves clean setting sources clean |
| `ClaudeArgs.SourcesPassKeepsOthers` | extensions/anthropic/cli-shared.ts:135-167 | the setting-sources pass changes neither the unrelated arguments nor the modes |
| `ClaudeArgs.PermissionPassKeepsOthers` | extensions/anthropic/cli-shared.ts:99-133 | the permission pass keeps unrelated arguments and given modes, and adds a mode only when there is none |
| `MarkerBlock.ReplaceKeepsOutside` | scripts/sync-moonshot-docs.ts:15-51 | a replacement keeps the lines above the start marker, its indent, and the text behind the end marker's line |
| `MarkerBlock.BlockLines` | scripts/sync-moonshot-docs.ts:40-46 | the lines of the block are the start marker, the inserted lines in order and the end marker, each behind the indent |
| `MarkerBlock.MissingMarkers` | scripts/sync-moonshot-docs.ts:21-28 | which error is raised: the start marker is nowhere, or no end marker is at it or behind it |
| `MarkerBlock.AfterLineExact` | scripts/sync-moonshot-docs.ts:34-38 | what is kept behind the block is the text after the line break of the end marker's line, or nothing |
| `MarkerBlock.ReplaceIdempotent` | scripts/sync-moonshot-docs.ts:15-51 | a second replacement finds both markers, and changes nothing exactly when neither the start marker nor an inserted line holds the end marker |
| `MarkerBlock.EndMarkerInsideGrows` | scripts/sync-moonshot-docs.ts:15-51 | a concrete document that grows with each replacement, because an inserted line holds the end marker |
| `MarkerBlock.EndFoundAbove` | scripts/sync-moonshot-docs.ts:25-35 | if an upper line of the block holds the end marker, the block's last line is left behind as text |
| `MarkerBlock.EndFoundLast` | scripts/sync-moonshot-docs.ts:25-35 | otherwise the end marker is found on the block's last line |
| `Utf16.SliceUtf16Safe` | src/utils.ts:88-115 | the slice is the longest run of whole code points in the requested range, and well-formed if the text is |
| `Utf16.RequestedRange` | src/utils.ts:89-98 | negative positions count from the end, positions beyond an end are that end, and the two positions are taken in either order |
| `Utf16.TruncateUtf16Safe` | src/utils.ts:117-123 | the text if short enough, otherwise its first limit or limit - 1 units; well-formed if the text is |
| `Utf16.Adjusted` | src/utils.ts:100-112 | moving the ends off the middle of a pair gives the longest whole run |
| `Utf16.BoundarySplits` | src/utils.ts:80-112 | in well-formed text a cut is at a boundary exactly when both sides are well-formed |
| `Utf16.LongestFromStart` | src/utils.ts:117-123 | the longest whole run from the start is the truncation |
| `Utf16.TruncateIdempotent` | src/utils.ts:117-123 | truncating again, to a larger limit before or after, changes nothing |
| `SparkleBuild.MatchIsTheSplit` | scripts/sparkle-build.ts:12-20 | the version pattern splits a text in one way, and the match finds it |
| `SparkleBuild.FloorsByArithmetic` | scripts/sparkle-build.ts:39-53 | printing, padding, concatenating and reading back is decimal arithmetic on year, month, day and lane |
| `SparkleBuild.FloorsExist` | scripts/sparkle-build.ts:14-53 | a version that reads as numbers has floors exactly when they are a date |
| `SparkleBuild.LaneFloorsOrderReleases` | scripts/sparkle-build.ts:39-53 | lane floors order releases by date whatever the suffix, a plain release above every suffixed build of its day; legacy floors order by date |
| `SparkleBuild.LaneOfNumber` | scripts/sparkle-build.ts:40-49 | a suffix ending in the number n, leading zeros or not, is in lane n or 89, one without a number in lane 1 |
| `SparkleBuild.LaneFloorOfBuild` | scripts/sparkle-build.ts:39-53 | the lane floor of a build is its date with its number up to 89, with 1 when it has none, and with 90 for the release itself |
| `SparkleBuild.NumberedBuildsInOrder` | scripts/sparkle-build.ts:39-53 | of two builds of a day the one with the smaller number, up to 89, has the lower lane floor |
| `SparkleBuild.SchemesApart` | scripts/release-check.ts:59-60 | legacy floors lie below the lane minimum, lane floors at or above it exactly from the year 1000 on |
| `Appcast.CollectErrors` | scripts/release-check.ts:281-338 | the two loops report the item errors and then the floor errors, in order |
| `Appcast.VersionErrors` | scripts/release-check.ts:287-304 | which items are reported for a missing and for a non-numeric build, by title, and when there are none |
| `Appcast.FloorErrorsSay` | scripts/release-check.ts:316-335 | which builds are reported below which floor |
| `Appcast.ReportIsEmptyIff` | scripts/release-check.ts:281-338 | nothing is reported exactly when there are items, all have numeric builds, and every dated one reaches the floor of its scheme |
| `Appcast.SchemesDoNotMix` | scripts/release-check.ts:316-335 | in a feed without errors every dated sub-lane build is dated before the adoption date and before every dated lane build, unless its year is below 1000 |
| `Appcast.SchemesMixIff` | scripts/release-check.ts:316-335 | for any two dated versions: some feed without errors mixes the schemes on them exactly when the one with the small build is dated before the year 1000 and not before the other |
| `Appcast.MixedFeedMixes` | scripts/release-check.ts:316-335 | the feed of two items that does so |
| `Appcast.EarlyYearsMix` | scripts/release-check.ts:316-335 | a concrete feed without errors that mixes the schemes with years below 1000 |

## Left out

- File, process and network access, timers, prompts' wording, progress and log lines, command-line parsing, and parsing of source files: the graph, locale entries, replies and feed items are given.
- Order of the members in a reported component and of the reported components, which follow `localeCompare`; the witness search starts from whatever member comes first.
- Limits of the call stack for the recursive searches, and of memory.
- Inherited properties of the runtime's plain objects (`__proto__`, `constructor`) and the order in which integer-like keys are listed.
- Setting the batch budget, provider, model and time limit from the environment: the budget is any real number, and each run has memory keys and a provider, or none, of its own.
- Closing and reopening the provider client between attempts, and the texts of the wrapped errors.
- Metadata, glossary and memory file formats of the sync, and the decision whether a file is rewritten.
- The temporary file of a toggle write, and a crash in the middle of it; a write either commits or fails.
- Selection of recent turns for a recall query (`buildQuery`) and shortening of summaries (`truncateSummary`), which would add easy members.
- BedrockConfig.MergeMissing: does not model sharing of nested records between the merged and the existing settings, since configurations are values; the text of the migration notes is left out with it.
- BedrockConfig.MigrationPreserves: speaks of records and other values under fields; spreading a string or a list as if it were a record is not modelled.
- PairNotify.NotifierRuns: takes commands that keep the subscriber keys distinct (exactly those of `PairNotify.RereadKeepsDistinct`), and ticks whose request ids are trimmed and not empty; ticks and commands run one after the other, since the source does not lock them against each other; thread ids are texts, and stored fields of a wrong type are not modelled.
- PairNotify.StepKeeps: has the same limits.
- TranslationBatches.BuildTranslationBatches: counts characters where the source counts UTF-16 units; no result depends on which of the two a length is.
- RecallCache.RecallStore.SetCachedResult: requires a non-empty key, since the eviction takes an empty one for none; the keys the plugin builds are never empty.
- BedrockDiscovery.CoalescesInEveryRun: speaks of keys with a positive refresh interval, the only ones that are cached; the fetch itself, the filters and the inference profiles are not modelled.
- ImportWorklist.CollectRelativeImportGraph: requires non-empty file names, which absolute paths are; a file that cannot be read ends the source's run and is not modelled.
- MarkerBlock.ReplaceIdempotent: requires markers that are non-empty and without line breaks, as the callers' are.
- MarkerBlock.ReplaceKeepsOutside: requires such markers too.
- LocaleObjects.FlattenTranslations: leaves open which of two texts with the same full key wins; the source lets the one listed later win, and the order of listing is not modelled.
- LocaleObjects.Flatten: leaves the same open.
- Utf16.SliceUtf16Safe: positions are integers; fractions and not-a-number arguments are not modelled.
- Appcast.CollectErrors: builds are exact numbers; the source rounds builds beyond 2^53, which no comparison with a floor can notice, and the words of the messages are left out.
- ClaudeArgs.NormalizeBackendArgs: is for one argument list; the source does the same for `args` and `resumeArgs`, and leaves an absent list absent.
- The usage report over cron runs (`scripts/cron_usage_report.ts`), whose totals would add easy members.
