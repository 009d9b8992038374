# A Dafny model of the Meegle CLI's core algorithms

The Meegle CLI discovers commands from an untrusted tool list, runs them behind
enterprise plugins, refreshes OAuth tokens from several processes at once, fans batches
out over workers, follows pages, and reshapes, shortens and caches what it receives.
This project models the parts of it that compute or coordinate something, and proves
what they promise for every input, every interleaving and every run.

`dafny verify dfyconfig.toml` verifies everything with Dafny 4.11.

## How the model is laid out

| files | what they model |
|---|---|
| `Options`, `Text`, `Decimal` | options, the string operations used, digit strings and powers of ten |
| `JsonNumber`, `IdList`, `BatchIds` | JSON number lexemes (section 6 of RFC 8259) against the number they denote; the loop that collects the IDs of a batch, and its key |
| `Wrappers`, `RunE` | the tracker around one plugin wrapper; a whole stack of wrappers run by arbitrary threads; one command invocation |
| `TokenRefresh` | processes sharing a credential file, a lock file and an OAuth server (refresh grant, section 6 of RFC 6749) |
| `BatchFanout` | workers, job channel, cancellation and result slots of a batch, and the response made of them |
| `CommandTree`, `DynamicRegistry`, `AggregateTree`, `RootMerge` | the tree validator; screening, building and injecting discovered commands; why the accepted ones are valid together and beside the local tree |
| `TreeContents`, `Acceptance` | what stands in the built tree, node by node, and which commands of a list are accepted, said without the functions that build and screen |
| `Payload`, `Pagination`, `PageNumbers` | merging payloads, following page tokens, counting page numbers |
| `JsonMemory` | nested maps as cells of a memory that is walked and written in place, and what of it two walks may share |
| `FieldPaths`, `Accumulation`, `CleanPaths`, `Projection` | `--select`: projecting a value by a set of paths; accumulating path after path in memory; where the two agree |
| `PathGlob`, `Policy`, `HiddenCommands` | command path globs, restriction rules, the passes over the command tree |
| `SemVer`, `Constraints` | version order and comparator sets |
| `Truncate`, `CommandString`, `Params` | bracket-aware truncation, the command-string tokenizer, `--params`/`--set` and flag spellings |
| `FileCache`, `ConfigProvider`, `Retry` | the atomic cache file, the read-through configuration provider, bounded retry with backoff |

Code that loops or updates state is a method, a class or a step model; it is proved equal
to a function or to a declarative specification, and the theorems are about that. A
concurrent or crash-prone protocol is a state with atomic steps: a theorem about it
speaks of every state that any sequence of enabled steps reaches from an initial one.
What the outside world answers (a plugin, a server, a scheduler, a clock, the order in
which Go ranges over a map) is an arbitrary parameter or an arbitrary choice.

## Where the code does not do what it says, or not always

Each of these is stated below by the members named, with an input on which it happens or
the exact condition under which the promise holds, mostly both.

- A wrapper factory that leaks `next` and then fails leaves its tracker open: a later
  `next` still runs the command, after the invocation has already returned an error
  (`Wrappers.LateCallAdmittedIff`, `Wrappers.LeakedNextRuns`).
- The credential file is rewritten in place, so a `GetToken` that reads it without the
  lock during a refresh finds none and answers with an empty token
  (`TokenRefresh.FindsNothingIff`, `TokenRefresh.TornReadHappens`).
- A page that is not an object ends a run early, and what lies beyond it is dropped
  although neither truncation nor an early stop is reported; a token run even counts it as
  merged (`Pagination.DroppedIff`, `Pagination.DropHappens`, `PageNumbers.SilentEndIff`).
- A result of `--select` shares maps with the data and later paths write into them. Where
  paths go on below an array that holds more than objects, this mixes up records and
  overwrites the data (`Projection.RecordsMixedUp`), and the order of the paths matters
  (`Projection.OrderMattersForMixedArrays`). Neither happens if each path by itself selects
  its projection (`Projection.ProjectedIsKeep`, `Projection.OrderIrrelevant`), which it does
  exactly if every array below which it goes on holds objects only and is not indexed
  (`Projection.CleanIff`).
- A version identifier such as `-5`, or one of digits beyond 64 bits, is taken for the
  wrong kind, so the order differs there from item 11 of Semantic Versioning 2.0.0
  (`SemVer.AgreesIff`, `SemVer.HyphenMatters`).
- The comment on `TruncateBalanced` promises a well-formed JSON literal. The ellipsis is
  no JSON, so only brackets can be right, and they are exactly if the bracket open at
  the cut is of the outer bracket's kind (`Truncate.NestedIff`,
  `Truncate.EarlyCloseMismatches`).
- A cut before a comma is seen only if one more rune fits, so text whose only complete items
  would fill the width exactly falls back to plain truncation (`Truncate.LongestThatFits`).
- A quoted empty argument of a command string disappears (`CommandString.RoundTripIff`).
- `--params null` together with a first `--set` that is well formed writes into a nil map
  and panics, and nothing else does (`Params.MergeStructuredParams`, `Params.NullPanics`).
- A contributed key `params` or `set` is marked explicit but dropped from the flags, and no
  other key is (`Params.ContributedIff`).
- Which spelling of a flag wins depends on map iteration order as soon as two spellings
  of one known flag differ (`Params.OrderIrrelevantIff`).
- A retry base of 2^62 ns or more overflows at its first doubling, and drawing the jitter
  panics (`Retry.WaitLawIff`). The comment on `DefaultMaxRetries` speaks of four attempts
  at worst; with token refreshes that is eight requests (`Retry.BoundReached`).
- The TTL of a cached configuration bounds its age since it was stored. It bounds the age
  since the server's reply only for entries stamped in the millisecond of the reply
  (`ConfigProvider.FreshFromReplyIff`); the excess can be any delay
  (`ConfigProvider.AgeCountsFromStoring`).

## Model

| member | source | states |
|---|---|---|
| JsonNumber.ParseOf | pkg/framework/jsonvalue/jsonvalue.go:41-54 | the recogniser accepts every rendered valid lexeme and taking it apart undoes rendering, so a raw text stands for one lexeme |
| JsonNumber.NumberShape | pkg/framework/jsonvalue/jsonvalue.go:41-54 | no number has a digit after a leading zero, lacks one after its point, or ends with anything else |
| JsonNumber.ParseDecimalAtMost | pkg/framework/jsonvalue/jsonvalue.go:165-176 | a digit string of any length is compared with a bound by its value, without ever being converted when it exceeds it |
| JsonNumber.IsIntegerCorrect | pkg/framework/jsonvalue/jsonvalue.go:56-98 | true iff the rational value of the lexeme is integral, for exponents of any length |
| JsonNumber.Int64Correct | pkg/framework/jsonvalue/jsonvalue.go:102-163 | answers v iff the lexeme denotes the integer v within 64 bits; otherwise says which of the two fails |
| BatchIds.KeyIsNumber | internal/products/meegle/batch.go:678-707 | two lexemes have the same key iff they denote the same number |
| BatchIds.KeyIsNumberRaw | internal/products/meegle/batch.go:678-707 | the same for raw JSON number texts |
| BatchIds.CollectsByNumber | internal/products/meegle/batch.go:622-707 | collecting IDs by their key is collecting them by the number they denote, the first spelling of each |
| IdList.CollectBatchIds | internal/products/meegle/batch.go:622-673 | the loop over trimmed tokens yields, for any notion of ID and key, the result that `IdList.CollectsExactly` spells out |
| IdList.FirstsKept | internal/products/meegle/batch.go:645-671 | the kept tokens are in input order, pairwise of different keys, and every token's key is that of one kept no later |
| IdList.CollectsExactly | internal/products/meegle/batch.go:640-673 | the first item that is neither blank nor an ID is reported; without one, the IDs are, trimmed and in input order, the first item of each key, unless there is none or there are more than 200 |
| Wrappers.WrapperInvocationTracker.BeginCall | internal/extension/platform/runtime.go:78-91 | admits a call iff the tracker is open and was never called; a rejected call leaves the first violation and enters nothing |
| Wrappers.WrapperInvocationTracker.EndCall | internal/extension/platform/runtime.go:92-101 | records the error behind the earlier ones and takes the call out of flight |
| Wrappers.WrapperInvocationTracker.BeginClose | internal/extension/platform/runtime.go:103-108 | closes the tracker and changes nothing else |
| Wrappers.WrapperInvocationTracker.EndClose | internal/extension/platform/runtime.go:109-126 | with nothing in flight: a violation first, then that next was not called, then the first error from below |
| Wrappers.AtMostOnce | internal/extension/platform/runtime.go:78-101 | however many threads call next however often, the command and every wrapper is entered at most once |
| Wrappers.NilMeansAllRan | internal/extension/platform/runtime.go:413-452 | a nil result of the stack means the command ran exactly once and returned nil and every wrapper called next exactly once |
| Wrappers.ErrorSurvives | internal/extension/platform/runtime.go:420-451 | an error from below is never turned into success; if the wrapper swallows it, it is the result |
| Wrappers.EndDecides | internal/extension/platform/runtime.go:426-451 | when a wrapper is over, its own error comes out as a failure; without one, a second or late next does, then that next was not called, then what came from below |
| Wrappers.HandlerErrorComesOut | internal/extension/platform/runtime.go:427-450 | an error a wrapper's handler returned anywhere in a run is its result once it is over: the downstream error it matches, else the structured error in it, else a failure naming the hook |
| Wrappers.FactoryFailureComesOut | internal/extension/platform/runtime.go:417-424 | a factory that failed anywhere in a run makes its wrapper fail with a failure naming it |
| Wrappers.NilMeansNoFailure | internal/extension/platform/runtime.go:413-452 | a nil result means that no handler and no command returned an error and no factory failed |
| Wrappers.EveryRunCanEnd | internal/extension/platform/runtime.go:103-126 | from every reachable state some continuation lets the whole stack return, so closeAndWait never waits for what cannot finish |
| Wrappers.CanSucceed | internal/extension/platform/runtime.go:413-452 | every stack has a run in which the command runs and all return nil |
| Wrappers.LateCallsRejected | internal/extension/platform/runtime.go:103-126 | once closeAndWait has returned nothing is in flight and every later next is turned away without entering anything |
| Wrappers.ResultIsFinal | internal/extension/platform/runtime.go:413-452 | no later step by any thread changes a result once returned |
| Wrappers.LateCallAdmittedIff | internal/extension/platform/runtime.go:417-424 | a next gets through after its handler is over iff the factory failed and next had not been called |
| Wrappers.LeakedNextRuns | internal/extension/platform/runtime.go:417-424 | a run in which the command starts after the stack has returned an error |
| RunE.BuildChain | internal/extension/platform/runtime.go:342-362 | going from the last wrapper to the first, the chain holds exactly the selected ones in order, or the first failure met that is not to be ignored |
| RunE.RunObservers | internal/extension/platform/runtime.go:373-398 | the first failure of an observer or selector that must not be ignored; told are, in order, the selected observers of the stage up to that one |
| RunE.StageMeans | internal/extension/platform/runtime.go:373-398 | a stage is stopped iff a fail-closed observer of it fails, by its selector or, selected, by itself; and by such a failure |
| RunE.ChainMeans | internal/extension/platform/runtime.go:342-362 | the chain is the matching wrappers at their places in the registered order; it fails iff a fail-closed selector failed or a matching wrapper has no factory, with such an error |
| RunE.WrapRunE | internal/extension/platform/runtime.go:305-371 | one invocation, from the observers, rules and wrappers registered: the command runs at most once, and not at all if a rule denies it or anything before it fails; it succeeds iff nothing did, and then the command ran once and succeeded inside exactly the selected wrappers in their order, each passing it on once, and none returned an error; an error the outermost wrapper returns comes out; the observers of the last stage are told whatever came of it; otherwise the error is the one of the stage that failed first |
| TokenRefresh.MutualExclusion | internal/products/meegle/auth/file_store.go:64-95 | in every interleaving at most one process is between creating and removing the lock file, crashes included |
| TokenRefresh.RotationChain | internal/products/meegle/auth/token_manager.go:54-122 | the successful exchanges form one chain: each presents the token and expiry of the answer before it, and that answer's refresh token if it had one, else the one presented before, so no credential is exchanged twice |
| TokenRefresh.RefreshTokensUsedOnce | internal/products/meegle/auth/token_manager.go:111-119 | a server that always sends a new refresh token is never presented one twice |
| TokenRefresh.SavesTheReply | internal/products/meegle/auth/token_manager.go:108-135 | what is saved is the last answer's token and expiry, its refresh token or else the one presented, and the client |
| TokenRefresh.HandsOut | internal/products/meegle/auth/token_manager.go:54-122 | a stored token that has not expired is handed out, before and after waiting for the lock; an expired one is refreshed if it can be; the newest is handed out after a refresh; a failed refresh or lock fails the call |
| TokenRefresh.LockedCallsDecide | internal/products/meegle/auth/token_manager.go:140-196 | under the lock a clear removes exactly the expected token, and a forced refresh is skipped, made or refused by what the file then holds |
| TokenRefresh.RestsOnNewest | internal/products/meegle/auth/token_manager.go:54-88 | whenever the lock is free the file holds the newest credential, or is absent if it was cleared |
| TokenRefresh.ClearsOnlyExpected | internal/products/meegle/auth/token_manager.go:176-196 | a clear removes the file only while it holds the expected access token |
| TokenRefresh.StaysRefreshable | internal/products/meegle/auth/token_manager.go:90-122 | in every reachable state, a refresh under way or a holder crashed included, a stored credential is still refreshable for the same client if the initial one was |
| TokenRefresh.RefreshedMeansChanged | internal/products/meegle/auth/token_manager.go:140-169 | TryRefresh reports success only when the stored credential is no longer the one it saw first |
| TokenRefresh.TokensAreIssued | internal/products/meegle/auth/token_manager.go:54-88 | every token handed out is empty or one the server issued |
| TokenRefresh.FailureKeepsFile | internal/products/meegle/auth/token_manager.go:90-122 | the steps of a process whose exchange fails leave the file as it was |
| TokenRefresh.FindsNothingIff | internal/products/meegle/auth/file_store.go:205-243 | short of a clear, an unlocked load finds no credential iff some process has truncated the file and not yet written it |
| TokenRefresh.LockedLoadFinds | internal/products/meegle/auth/token_manager.go:66-75 | a load under the lock finds the newest credential unless it was cleared |
| TokenRefresh.TornReadHappens | internal/products/meegle/auth/file_store.go:205-243 | a run in which an unlocked GetToken answers with an empty token while another process saves |
| BatchFanout.CalledAtMostOnce | internal/products/meegle/batch.go:294-350 | over every interleaving of the workers no ID is called twice and at most three calls are in flight |
| BatchFanout.AllRecorded | internal/products/meegle/batch.go:294-374 | when a response is made every slot holds its own ID with the answer of that ID's only call |
| BatchFanout.AuthFailureIff | internal/products/meegle/batch.go:325-361 | the step fails for authorisation iff some call did, with the error of such a call |
| BatchFanout.FirstRefusalDecides | internal/products/meegle/batch.go:325-361 | the first refused call that is recorded stops its worker and decides the error, whatever the others do |
| BatchFanout.EveryEnd | internal/products/meegle/batch.go:346-374 | over every run: the error of a refused call if any call was refused, cancelled if the caller cancelled, otherwise the response of all slots |
| BatchFanout.NoResponseWhenCancelled | internal/products/meegle/batch.go:346-369 | a cancelled batch never becomes a response |
| BatchFanout.AssembleBatchResponse | internal/products/meegle/batch.go:412-444 | the loop sets successes and errors apart in slot order, and the summary counts add up |
| BatchFanout.RowsPartition | internal/products/meegle/batch.go:412-444 | results are exactly the IDs whose call succeeded and errors those whose call failed, each in input order with its own answer |
| BatchFanout.ResponseIsComplete | internal/products/meegle/batch.go:294-374 | in a returned response each ID was called exactly once and stands in results or errors with its own answer |
| CommandTree.ValidateFlags | pkg/framework/registry/validator.go:139-170 | appends nothing iff names and shorts are distinct, no built-in flag is redefined and no required flag has a default; otherwise exactly the rules some flag breaks |
| CommandTree.ValidateArgs | pkg/framework/registry/validator.go:172-179 | appends nothing iff only the last argument is variadic, otherwise that rule |
| CommandTree.ValidateChildren | pkg/framework/registry/validator.go:181-196 | appends nothing iff names and aliases of all siblings differ, ignoring case, otherwise that rule |
| CommandTree.ValidateNode | pkg/framework/registry/validator.go:80-137 | appends nothing iff the node and everything below it is valid, otherwise exactly the rules broken there; earlier errors stay |
| CommandTree.ValidateTree | pkg/framework/registry/validator.go:52-66 | reports no error iff the tree is valid, otherwise exactly the rules that nodes of it break |
| CommandTree.ValidMeans | pkg/framework/registry/validator.go:80-196 | valid means, of every node at any depth: a plain name, perhaps after a plus; something to run or below it; a brief; flags and siblings that do not clash; a variadic argument only at the end |
| Text.LettersFold | pkg/framework/registry/validator.go:139-196 | names are compared with each capital letter as its small one and everything else as it is |
| DynamicRegistry.InjectSugarCommands | internal/products/meegle/registry.go:785-812 | appends `me` to the first group named user and changes no other |
| DynamicRegistry.InjectAttachmentCommands | internal/products/meegle/attachment_register.go:116-165 | appends each missing shortcut whose sibling exists to the attachment group, the second looking at the result of the first |
| DynamicRegistry.InjectBatchCommands | internal/products/meegle/batch.go:84-122 | appends the batch command to the workitem group iff it is missing and its sibling exists |
| DynamicRegistry.BuildCommandTree | internal/products/meegle/registry.go:557-648 | the three passes in place over the groups give the tree whose order `AggregateTree.TreeIsSorted` and whose nodes `TreeContents.TreeHolds` state |
| AggregateTree.TreeIsSorted | internal/products/meegle/registry.go:557-580 | one group for each resource, in strict text order; each begins with exactly its own commands, ordered by action |
| TreeContents.TreeHolds | internal/products/meegle/registry.go:557-720 | each group holds a node for each command of its resource with that command's action and tool, a flag for each parameter but url in order with its name, type and required mark, and its description with the hints; then exactly the injected nodes, each calling the tool of the command it stands beside; and nothing else |
| TreeContents.OneNodeEach | internal/products/meegle/registry.go:557-623 | in a valid tree each command has exactly one node at its path, its own |
| TreeContents.AcceptedHasNode | internal/products/meegle/registry.go:319-397 | every accepted command has exactly one node at its path, which calls the command's tool with the command's flags |
| DynamicRegistry.SanitizeMappedCommands | internal/products/meegle/registry.go:319-397 | the loop with its path index gives the accepted commands and the issues that `Acceptance.AcceptedExactly` and `Acceptance.IssuesExactly` spell out |
| DynamicRegistry.ScreenCommand | internal/products/meegle/registry.go:329-384 | the first check that fails, in the code's order, the last being the command's own one-command tree |
| DynamicRegistry.CheckParameters | internal/products/meegle/registry.go:347-377 | valid iff every parameter but url makes a plain flag name that is neither reserved nor global |
| Acceptance.ScreenMeans | internal/products/meegle/registry.go:329-384 | a command passes iff its path is unclaimed, its names are plain, each parameter but url makes a plain flag that is neither reserved nor global, and its own one-command tree is valid; the code says whether the path or anything else was wrong |
| Acceptance.AcceptedExactly | internal/products/meegle/registry.go:319-397 | accepted are, in order and with clean help texts, exactly the commands that pass and are the first to pass with their path |
| Acceptance.IssuesExactly | internal/products/meegle/registry.go:319-397 | every other command is an issue, in order, with the code of its fault |
| AggregateTree.ExtrasOf | internal/products/meegle/attachment_register.go:116-165 | what the three passes add to a group of plain commands depends only on its three sibling commands |
| AggregateTree.ExtraFromOne | internal/products/meegle/batch.go:84-122 | every injected command of a group is already injected beside one of its commands alone |
| AggregateTree.AcceptedScreened | internal/products/meegle/registry.go:319-397 | accepted commands have distinct paths and each passed every screen |
| AggregateTree.AggregateIsValid | internal/products/meegle/registry.go:319-397 | the commands accepted one by one, built together with all three injections, form a tree the validator has no error for |
| AggregateTree.AggregateRoots | internal/products/meegle/registry.go:35-53 | its roots are distinct plain names without aliases and none is reserved |
| RootMerge.CompositeSetup | pkg/framework/registry/setups.go:51-89 | merges iff no source fails and all root names and aliases differ, trimmed and ignoring case; then nodes, flags and versions are those of the sources in order |
| RootMerge.BuildReservedResources | internal/products/meegle/registry.go:35-53 | the eight fixed roots and every root name and alias of the local tree, and nothing else |
| RootMerge.NeverShadowsLocal | internal/products/meegle/registry.go:29-53 | whatever the server lists, the discovered tree and the local tree merge without a duplicate root |
| Payload.MergePayloads | internal/products/meegle/mcp_runtime.go:709-742 | in whatever order the map is ranged over the result is the field-by-field merge that `Payload.ArraysConcatenate`, `Payload.LastPageWins` and `Payload.LastNestedWins` describe |
| Payload.ArraysConcatenate | internal/products/meegle/mcp_runtime.go:709-742 | an array field of merged pages holds the items of all pages in their order |
| Payload.LastPageWins | internal/products/meegle/mcp_runtime.go:709-742 | of a field that is neither array nor object the last page that has it wins |
| Payload.LastNestedWins | internal/products/meegle/mcp_runtime.go:726-737 | a nested object takes each field from the last page whose object has it, and has no other |
| Payload.MergeAssociative | internal/products/meegle/mcp_runtime.go:698-742 | merging payloads of one shape is associative and keeps the shape |
| Payload.MergeAllConcat | internal/products/meegle/mcp_runtime.go:698-742 | merging pages in two blocks is merging them in one go |
| Payload.MergeNotAssociative | internal/products/meegle/mcp_runtime.go:709-742 | one field changing its type is enough to lose that |
| Payload.GetListLength | internal/products/meegle/mcp_runtime.go:883-897 | the length of the first of list, items and data that is an array, else of any array, else 0 |
| Payload.LengthOrder | internal/products/meegle/mcp_runtime.go:883-897 | the same by name: list before items before data before any other array |
| Payload.ListOfMergeAll | internal/products/meegle/mcp_runtime.go:709-742 | the list of merged well-shaped pages is their lists one after the other |
| Pagination.PaginateByToken | internal/products/meegle/mcp_runtime.go:465-545 | the loop returns the merge, page count, item count, token and stop flag of the run defined on the server alone |
| Pagination.TokenRunIsPrefix | internal/products/meegle/mcp_runtime.go:465-545 | a run merges the first n pages of the token chain in order, n at most 199, and all the chain gives within that bound unless it stopped early; without a report it read to the end or met data that is no object |
| Pagination.DroppedIff | internal/products/meegle/mcp_runtime.go:481-503 | pages are left unread without a report iff fewer than 199 further pages came, no three in a row were empty, and the token they end with gets data that is no object |
| Pagination.DropHappens | internal/products/meegle/mcp_runtime.go:481-503 | a run that loses its third page and reports two pages merged |
| Pagination.StopsIff | internal/products/meegle/mcp_runtime.go:488-520 | the early stop is reported iff three pages in a row were empty; the run fails iff none were and the token left is refused |
| Pagination.TruncatedIff | internal/products/meegle/mcp_runtime.go:481-486 | truncation with token t is reported iff 199 further pages came, no three in a row were empty and the last names t; without truncation no token is reported |
| Pagination.ResumedIsChain | internal/products/meegle/mcp_runtime.go:465-545 | runs resumed from the reported token, merged, equal the unbounded chain in every field, if no three pages in a row are empty |
| PageNumbers.PaginateByPageNum | internal/products/meegle/mcp_runtime.go:554-696 | the loop returns the merge, counts, next page and stop flag of the run defined on the server alone, or the invalid start or exhausted range |
| PageNumbers.StartsAt | internal/products/meegle/mcp_runtime.go:555-581 | a run starts at the given page, at page 1 without one, fails for one that is no positive integer, and is idle unless the first page announces more |
| PageNumbers.TotalHeeded | internal/products/meegle/mcp_runtime.go:585-590 | the total heeded is the one in the pagination object unless 0 or no integer, then the one at top level, else none |
| PageNumbers.TotalOfRun | internal/products/meegle/mcp_runtime.go:659-668 | the pagination object goes; the total is that of the last page with one at top level, else the last positive one of the pagination objects |
| PageNumbers.NumberRunIsConsecutive | internal/products/meegle/mcp_runtime.go:588-658 | a run merges the pages right after the start without a gap, at most 199, fetches none once the total is reached or no more is promised, and all promised ones unless it stopped early |
| PageNumbers.NumberTruncatedIff | internal/products/meegle/mcp_runtime.go:588-658 | truncation is reported iff 199 promised pages came, no three in a row empty, and the last promises another; the early stop iff three in a row were empty; a next page only after truncation |
| PageNumbers.SilentEndIff | internal/products/meegle/mcp_runtime.go:588-658 | a run reports nothing iff no three pages in a row were empty and either no more is promised, or the total is reached, or the next page is no object; it fails for its number iff a page is wanted beyond the integer range |
| PageNumbers.ResumedIsBook | internal/products/meegle/mcp_runtime.go:554-696 | runs resumed from the reported number, merged, equal all pages to the last in every field but the total and the pagination object, if no total promised is reached before the last page and no three pages are empty |
| PageNumbers.NextPageIsUnread | internal/products/meegle/mcp_runtime.go:670-688 | after truncation the reported page is the first one not read, absent iff the next number exceeds the integer range |
| Projection.ProjectMapPath | pkg/framework/output/hooks.go:64-95 | the walk writing in place: whatever clean paths the target held of a source, it then holds one more, and every cell of the source is as it was; for any input the memory is the one `Accumulation.PutHeap` gives |
| Accumulation.PutHolds | pkg/framework/output/hooks.go:64-95 | one more path into a target that holds the projection by some paths: only cells of the target are written or made, and it holds the projection by one more |
| Accumulation.BroadcastHolds | pkg/framework/output/hooks.go:133-154 | the records of a clean array, continued where an earlier path left some, hold the projections of its items by one more path |
| Accumulation.PutShared | pkg/framework/output/hooks.go:64-95 | writing a clean path of the source into the source itself changes nothing, which is why a target may share its maps |
| Accumulation.PathFound | pkg/framework/output/hooks.go:64-127 | any single path put into an empty map: where it leads in the source over maps and array positions is what stands under its segments, the positions being keys, and no other old cell is written |
| Projection.OnePathFound | pkg/framework/output/hooks.go:29-127 | the same for selecting one path from any object whatever |
| Projection.Process | pkg/framework/output/hooks.go:18-53 | without expressions the data itself; otherwise, on clean data, a new value that is the projection by the set of all dotted paths, the data untouched cell by cell |
| Projection.ProjectedIsKeep | pkg/framework/output/hooks.go:29-154 | on clean data, accumulating path after path in memory leaves the data as it was and gives the declarative projection by the set of paths |
| Projection.CleanIff | pkg/framework/output/hooks.go:29-154 | the data is clean for a set of paths iff each of them, selected by itself, gives its declarative projection |
| CleanPaths.PutUnclean | pkg/framework/output/hooks.go:64-154 | a path that meets an array with anything but objects, or indexes one, put into an empty map, does not give its projection |
| Projection.OrderIrrelevant | pkg/framework/output/hooks.go:29-53 | neither the order of the expressions nor repeating one matters |
| Projection.Idempotent | pkg/framework/output/hooks.go:29-49 | selecting again from what was selected changes nothing |
| Projection.LeafStays | pkg/framework/output/hooks.go:29-95 | a leaf of the data is in the result, at its address, iff some path is a prefix of its field names, or it has no field name |
| Projection.OnlySourceValues | pkg/framework/output/hooks.go:29-95 | everything in the result is a source value at its old address |
| Projection.OrderMattersForMixedArrays | pkg/framework/output/hooks.go:133-154 | `l,l.x` and `l.x,l` differ on `{"l":[1]}` |
| Projection.RecordsMixedUp | pkg/framework/output/hooks.go:133-154 | `l,l.x,l.y` on `{"l":[1,{"x":1,"y":2},{"x":3}]}` gives the records `{"x":3,"y":2}` and `{"y":2}` and writes y into the data |
| PathGlob.MatchIffAssigned | extension/platform/types.go:215-234 | for any segment matcher a glob matches iff every `**` can be given a run of segments with every other pattern segment matching exactly one |
| PathGlob.PathMatches | extension/platform/types.go:215-234 | the same for glob and path texts, with any slashes around either |
| Policy.EvaluateRule | internal/extension/platform/policy.go:55-105 | nil iff the deny, allow, risk and identity tests all pass; otherwise the first of them that fails, with the first deny pattern that matches |
| Policy.PermittedMeans | internal/extension/platform/policy.go:12-105 | a command is permitted iff of every rule no deny pattern matches, an allow pattern does if there is any, the risk is known and not above the greatest allowed one, read before write before high-risk-write, and an identity is wanted if any is |
| Policy.FindDenial | internal/extension/platform/policy.go:12-53 | nil iff every rule permits the command; otherwise the first rule with a matching deny pattern, or the last that fails |
| Policy.OrderIrrelevant | internal/extension/platform/policy.go:12-53 | the order of rules and repeating one never change the verdict |
| Policy.TighteningPermitsLess | internal/extension/platform/policy.go:12-105 | replacing rules by tighter ones and adding rules never permits more |
| Policy.AddingPermitsLess | internal/extension/platform/policy.go:12-105 | adding a rule or a deny pattern never permits more |
| Policy.FirstAllowCloses | internal/extension/platform/policy.go:65-76 | an added allow pattern leaves a permitted command permitted iff there was an allow list already or the pattern matches it |
| HiddenCommands.AllCommands | internal/extension/platform/runtime.go:292-303 | the walk lists everything below a command, each before its own descendants |
| HiddenCommands.WalkIsTopDown | internal/extension/platform/runtime.go:292-303 | every command of the walk stands before all its children |
| HiddenCommands.Apply | internal/extension/platform/runtime.go:242-290 | in place: each executable command gains a layer iff it had none; a command ends hidden iff it was, or is executable and not permitted, or is a group with children all of which end hidden, all told from the final fields |
| HiddenCommands.VisibleLeads | internal/extension/platform/runtime.go:266-289 | below every visible command there is, visible, a permitted command or an empty group |
| HiddenCommands.PermittedStays | internal/extension/platform/runtime.go:266-289 | a permitted command that was visible stays so, and so do the groups above it that were |
| HiddenCommands.HidingIsStable | internal/extension/platform/runtime.go:240-242 | applying again hides nothing more |
| SemVer.CompareSemanticVersion | internal/extension/platform/version.go:129-160 | the loops compute the order defined by numbers, then pre-release identifiers, then their count |
| SemVer.TotalPreorder | internal/extension/platform/version.go:129-185 | that order is a total preorder: reflexive, antisymmetric in sign, transitive, on versions with any identifiers |
| SemVer.ClassifiedAgree | internal/extension/platform/version.go:162-185 | identifiers the code takes for the right kind compare as item 11.4 of Semantic Versioning 2.0.0 says |
| Decimal.AtoiReads | internal/extension/platform/version.go:162-164 | digits, with or without a sign, are read as their number iff it is within 64 bits |
| SemVer.SpecIsPrecedence | internal/extension/platform/version.go:129-160 | the reference order is the precedence of items 11.2 to 11.4 spelled out on major, minor, patch and identifiers |
| SemVer.OrderedAsSpelled | internal/extension/platform/version.go:129-185 | valid well-classified versions are compared as that precedence says, and equal only if they are the same |
| SemVer.AgreesIff | internal/extension/platform/version.go:129-185 | a valid version is ordered as the standard says against all well-classified valid versions iff it is well classified itself |
| SemVer.HyphenMatters | internal/extension/platform/version.go:162-185 | `-5` is ranked below `1`, the standard ranks it above |
| Constraints.SplitConstraintParts | internal/extension/platform/version.go:68-84 | the index loop yields the parts of the fields, or none |
| Constraints.PartsFailIff | internal/extension/platform/version.go:68-84 | splitting fails iff some comparator is followed by nothing or by another comparator |
| Constraints.PartsOfText | internal/extension/platform/version.go:68-84 | the parts of a constraint text are its comparators, each with its version, whatever blanks and commas stand before, between and after them |
| Constraints.SpacingIrrelevant | internal/extension/platform/version.go:17-66 | a constraint text accepts exactly the versions on which every comparator holds, however it is spaced |
| Constraints.ParsesExactly | internal/extension/platform/version.go:104-127 | a text is read as a version iff, trimmed, it is three numerals within 64 bits with dots, perhaps after a v, with dotted identifiers after a hyphen and anything after a plus |
| Constraints.ParseOfText | internal/extension/platform/version.go:104-127 | reading a written version undoes writing it, with or without a v before and build metadata behind |
| Constraints.PartMeaning | internal/extension/platform/version.go:44-63 | each operator asks what its name says in terms of that precedence; none asks equality |
| Constraints.AcceptsAsSpelled | internal/extension/platform/version.go:20-66 | a constraint text accepts exactly the versions that stand to each of its versions as the operator before it asks |
| Constraints.CheckCLIVersion | internal/extension/platform/version.go:20-66 | nil iff the constraint is blank, or the version parses and every part parses and holds; otherwise the first thing wrong: the version, a lone comparator, no part at all, or the first part that cannot be read or does not hold |
| Constraints.AcceptedIsConvex | internal/extension/platform/version.go:20-66 | a version between two accepted ones is accepted |
| Truncate.LastCut | pkg/integrations/formatting/truncate.go:46-88 | the scanner finds the last place between top-level items within the budget, or that there is none |
| Truncate.TruncateBalanced | pkg/integrations/formatting/truncate.go:24-99 | unchanged if it fits, else the longest prefix of complete top-level items between the outer brackets, else plain truncation |
| Truncate.LongestThatFits | pkg/integrations/formatting/truncate.go:46-99 | the prefix kept is the longest of whole items that fits, where one that does not end with a bracket must leave a rune to spare; without one the text is truncated plainly |
| Truncate.PlainMeans | pkg/integrations/formatting/truncate.go:101-120 | plain truncation keeps the first width - 1 runes and ends with the ellipsis |
| Truncate.WithinWidth | pkg/integrations/formatting/truncate.go:11-99 | at most the given number of runes for every positive width and every input |
| Truncate.EndsBalanced | pkg/integrations/formatting/truncate.go:90-93 | read from its start a bracketed result ends at depth zero outside any string |
| Truncate.NestedIff | pkg/integrations/formatting/truncate.go:14-18 | a cut of well-nested text is well nested iff the bracket open at the cut is of the outer bracket's kind |
| Truncate.ValueStaysNested | pkg/integrations/formatting/truncate.go:14-18 | a rendered object or array, shortened between items, is well nested again |
| Truncate.EarlyCloseMismatches | pkg/integrations/formatting/truncate.go:90-93 | balanced text whose outer bracket closes early comes out with a brace closed by a bracket |
| CommandString.ParseCommandStringArgs | pkg/runtime/cliapp/command_string.go:14-62 | the byte loop with its skipped index and its builder yields the arguments of the recursive reading |
| CommandString.RoundTrip | pkg/runtime/cliapp/command_string.go:8-62 | printing any words, each any mixture of bare and quoted stretches with needed or needless escapes, is undone, but for empty words |
| CommandString.RoundTripIff | pkg/runtime/cliapp/command_string.go:8-62 | the words come back exactly iff none is empty |
| CommandString.LiteralKept | pkg/runtime/cliapp/command_string.go:11-13 | text without quotes and known escapes, and without blanks outside quotes, is one argument as it stands, backslashes included |
| Params.SetNestedField | pkg/framework/router/params.go:92-106 | the loop down the nested maps in memory, making those that are missing, and the write: an object that shares no map becomes the object with the value at the path |
| Params.CollectSets | pkg/framework/router/params.go:42-51 | the items written one after another into the same map, which then holds the base with all of them; or an item that is malformed |
| Params.AssignmentMeans | pkg/framework/router/params.go:84-90 | an item is read as keys and value iff it is the keys with dots between them, not all blank, an equals sign, and the value |
| Params.BaseMeans | pkg/framework/router/params.go:34-82 | `--params` contributes its decoded text, or that of the file named after an @; nothing if blank |
| Params.SetThenGet | pkg/framework/router/params.go:92-106 | the value is found at its path, and what is neither above nor below it is untouched |
| Params.LastSetWins | pkg/framework/router/params.go:42-51 | an item holds against all earlier ones and against later ones with unrelated paths |
| Params.UnrelatedStays | pkg/framework/router/params.go:42-51 | a path no item is related to keeps what `--params` gave it |
| Params.MergeStructuredParams | pkg/framework/router/params.go:26-62 | flags and explicit flags after the merge are those before with the entries of a map that holds what `--params` and `--set` contribute, for any order of that map; on failure flags unchanged and what is wrong with `--params`, or the first malformed item; panics iff `--params` is JSON null and the first `--set` item is well formed |
| Params.JudgeMeans | pkg/framework/router/params.go:26-51 | a merge panics iff `--params` is JSON null and the first item is an assignment, and comes through iff every item is one and `--params`, unless there is no item, gives a map |
| Params.NullPanics | pkg/framework/router/params.go:35-50 | `--params null --set a=1` panics |
| Params.ContributedIff | pkg/framework/router/params.go:52-60 | a contributed key not given explicitly becomes explicit, and is among the flags with the same value iff it is neither `params` nor `set` |
| Params.Precedence | pkg/framework/router/params.go:14-62 | for one spelling an explicit flag beats `--set` and `--set` beats `--params` |
| Params.NormalizeStructuredFlagNames | internal/products/meegle/validation.go:97-120 | the maps after some order of the explicit flags, whichever the runtime takes |
| Params.RenamedMeans | internal/products/meegle/validation.go:97-120 | a key is renamed iff it has an underscore and its spelling with hyphens is known |
| Params.OrderIrrelevantIff | internal/products/meegle/validation.go:97-120 | every order gives the same maps iff no two spellings of a known flag that is not itself given carry different values |
| FileCache.PathIsWhole | internal/products/meegle/file_cache.go:75-111 | with any writers, readers, clears, crashes and power loss the path is absent or names one complete value of some Set or the initial one |
| FileCache.ReadsAreWhole | internal/products/meegle/file_cache.go:42-53 | a read returns exactly what the path held when it was opened, whatever is renamed or removed meanwhile |
| FileCache.PathIsLastSet | internal/products/meegle/file_cache.go:75-111 | in every run the path names the value of the Set that renamed last, unless a removal came after it; a power loss changes nothing |
| FileCache.SetEnds | internal/products/meegle/file_cache.go:75-111 | a Set succeeds exactly when it has renamed and fails exactly when it has removed its temporary file |
| FileCache.GetReturnsLastSet | internal/products/meegle/file_cache.go:42-53 | a Get returns the value of the Set that renamed last before it began |
| FileCache.UnsyncedMayChange | internal/products/meegle/file_cache.go:95-104 | what a Set has not synced a power loss may turn into anything, and the path never names that |
| FileCache.NoLitter | internal/products/meegle/file_cache.go:85-94 | once no Set is under way only crashed ones have left a temporary file |
| ConfigProvider.AnswersAreServed | internal/products/meegle/cli_config_provider.go:39-59 | every answer was returned by the server; a cached one was stored after that, no longer than the TTL before the answer |
| ConfigProvider.FreshFromReplyIff | internal/products/meegle/cli_config_cache.go:52-57 | from any reachable state with an entry that can still be an answer, every later answer of it is within the TTL of the server's reply iff it was stamped in the millisecond of the reply |
| ConfigProvider.AgeCountsFromStoring | internal/products/meegle/cli_config_cache.go:52-57 | a run in which a cached answer is older than the server's reply by any delay one likes |
| Retry.Call | internal/products/meegle/cliapiclient/client.go:185-207 | the retry loop sends the requests and returns the outcome of the run defined on the server's replies |
| Retry.RequestsBounded | internal/products/meegle/cliapiclient/client.go:185-221 | at most two requests an attempt, whatever is answered |
| Retry.FollowedOnlyIf | internal/products/meegle/cliapiclient/client.go:185-221 | a request is followed by another only if it failed in a retryable way or for a token that was then refreshed |
| Retry.ResultIsLastReply | internal/products/meegle/cliapiclient/client.go:185-221 | the result is the last reply, or that the refresh after it failed |
| Retry.GivesUpOnlyIf | internal/products/meegle/cliapiclient/client.go:185-207 | a retryable failure is returned only after the last attempt or once the context is over |
| Retry.CallLaw | internal/products/meegle/cliapiclient/client.go:185-221 | one call makes between one and two requests an attempt, with as many retries as configured, three by default and none if negative; a request is followed only after a timeout, an unavailable server, a 429 or a status from 500 on, or for a token then refreshed; such a failure is returned only after the last attempt or once the context is over |
| Retry.BoundReached | internal/products/meegle/cliapiclient/client.go:58-61 | a server answering 401 and 503 in turn makes it reach that bound |
| Retry.Interval | internal/products/meegle/cliapiclient/client.go:371-387 | the doubling loop with its early exit computes the wrapped, capped doubling |
| Retry.DoubledIsPower | internal/products/meegle/cliapiclient/client.go:376-387 | below 2^62 that is min(base times 2^(attempt-1), cap) |
| Retry.WaitLawIff | internal/products/meegle/cliapiclient/client.go:368-393 | every retry waits between half of that interval and all of it iff the base is below 2^62 ns |
| Retry.WaitBackoff | internal/products/meegle/cliapiclient/client.go:371-401 | below 2^62 ns a retry waits between half of its doubled, capped base and all of it whatever is drawn; from there on the second retry panics |

## Left out

- Text beyond ASCII and invalid UTF-8: lower-casing, trimming and folding are modelled on ASCII; `Truncate` works on a list of runes.
- JSON decoding itself, including how `Unmarshal` treats raw messages and structs on the way into `--select`: values are taken as decoded.
- Wrappers: `runtime.Goexit` in a plugin, and which structured error a wrapper's error matches, are parameters.
- TokenRefresh: no lock outlives its stale limit, so `removeStaleRefreshLock` takes no step; saving succeeds; the server reissues no access token; logging in and out do not interleave; encryption of the file is not modelled.
- BatchFanout: request parameters, coercion of IDs and `classifyBatchError` are not modelled; an answer is data, an item error or an authorisation failure.
- CommandTree: warnings, handler reuse counts, message texts, tags, risk and long help of a node do not decide errors and are absent.
- DynamicRegistry: the fallback table is an arbitrary owner function, `sanitizeHelpText` an arbitrary function, and the stable order of equal actions in one group does not occur among accepted commands.
- RootMerge.NeverShadowsLocal: the local tree is any tree whose own root names and aliases differ.
- RootMerge: nil trees and nil nodes are skipped by the code and appear as absent sources or not at all; what a setup does while it runs is not modelled.
- Pagination.PaginateByToken: the server is a function of the token and its pages fit one shape with a fixed list field, since with fields that change type the code's merge is not associative (`Payload.MergeNotAssociative`).
- PageNumbers.PaginateByPageNum: the same assumption; a total is a whole number, other numbers count as absent.
- Payload: array concatenation is on values, so what `append` shares between backing arrays is not visible.
- JsonMemory: a map is a cell and a reference its index; lists are values, since the modelled code never writes into one.
- Projection.ProjectedIsKeep: clean data only. Each path of an unclean set that is not clean itself already fails alone (`Projection.CleanIff`); what several such paths make together, which depends on their order, is shown on inputs only.
- Accumulation.PathFound: one path and a target of its own; positions mixed with names under one array replace each other.
- PathGlob: `path.Match` is an arbitrary predicate on one segment; `Policy` and `HiddenCommands` hold for any way of matching a pattern with a path.
- Policy: selector combinators other than path globs, nil rules and nil commands, and denial texts.
- Constraints: error texts.
- Params.MergeStructuredParams: where the decoder put its map in memory is part of the decoder's answer.
- Params.OrderIrrelevantIff: a flag's value is of any kind, compared by that kind's equality.
- Params: `inferType`, which yields no map or list, the JSON decoder and the file behind `@path` are parameters.
- FileCache: directory creation, file modes and the failure of `CreateTemp` itself; a rename survives a power loss.
- ConfigProvider: the clock never goes back; a cache read takes the entry at the moment the path is opened, as `FileCache.ReadsAreWhole` shows.
- Retry: how an HTTP exchange produces its error code, attempt timeouts and idempotency keys; the retry count is far below the integer range.
- HTTP and TLS, OAuth discovery and login flows, key storage, Cobra and flag parsing, help and tables, prompts, shell completion, telemetry, the npm wizard: foreign calls or presentation.
- Identity priority, config get and set, the discovery-cache fallback, error envelopes and lifecycle logging: branch by branch with little to relate.
