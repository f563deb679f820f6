# CodexManager: verified models of its stateful core

CodexManager keeps a pool of model-provider accounts and upstream APIs, and serves them through a local gateway with a
web and a desktop front end. This project models the parts of it whose correctness spans several functions or a whole
run, and proves what they promise. Every definition follows the code branch by branch.

The models, by theme:

* **Self-update of two binaries** (`Syscalls`, `Updater`, `OperationLock`, `UpdateRuns`). The disk is a map from paths
  to bytes; every remove, rename and write consults a fault oracle; a rename is atomic and replaces its target. The
  update and rollback handlers are methods on a `FileSystem` object, proved to perform exactly a `Program` of calls.
  One lemma covers every pattern of failures of a replacement (all or nothing; no original is lost). A small-step
  scheduler interleaves any number of handlers call by call under the one operation lock; runs are proved
  serialisable for arbitrary programs, and then to refine a one-level undo model.
* **The model-forward-rule editor** (`ForwardRules`). Parser and printer, the exact round trip without preconditions,
  convergence of repeated load/store, the exact set of fixed points, and exactly when one round is enough.
* **Account order** (`AccountOrder`, `SortKeys`). Moves in a filtered view carried out on the full list; sparse sort-key
  updates sent one by one to a server; order by size group as a stable sort; and the whole path from a click to the
  refetched list.
* **Account identity** (`AccountIdentity`, `AccountLookup`). Storage ids and when they can be decoded; the frontend's
  partial decoder; and the layered lookup and its independence of list order.
* **Aggregate API records** (`QueryParams`, `AggregateApi`, `AggregateApiRuns`, `AggregateApiEffects`,
  `AggregateApiProbe`). Create, update (nine partial writes, each
  of which may be refused or fail), delete and read as methods on a `Storage` object; runs of calls keep records and
  secrets matched; repeated updates; what a call means for every field; what the connection probe sends.
* **Small algorithms**: HTML escaping (`EscapeHtml`), dotenv loading (`Dotenv`), the updater's and the plugin page's
  version orders (`UpdateVersions`, `PluginVersions`), and the build script's tree fingerprint (`Fingerprint`).

`Text` holds strings: trimming as JavaScript and as Rust do it (they differ on U+FEFF and U+0085), searching, splitting,
joining and decimal numbers. `Sequences` holds filtering and finding.

Where the code falls short of what one would expect, a lemma shows an input at which it does, and another says for all
inputs when it does not:

* Keeping the originals does not extend to two replacements: after a failed restore the next one deletes the last copy
  of the live web binary (`Updater.TwoReplacementsCanLoseWeb`; exactly when an update does,
  `UpdateRuns.UpdateKeepsLastWeb`; the service binary is safe, `UpdateRuns.UpdateKeepsLastService`).
* A failed replacement takes away the earlier possibility to roll back (`Updater.FailureRefusesRollback`; exactly when
  an update does, `UpdateRuns.FailedUpdateForgetsBackups`).
* A rollback can leave a mixed pair (`Updater.RollbackCanMix`; exactly when, `Updater.RollbackHalfDone`).
* One load/store round of the rule editor is not always enough (`ForwardRules.OneRoundIsNotEnough`; exactly when it is,
  `ForwardRules.OneRoundIsEnough`).
* Moving an account up and down again need not restore the full list (`AccountOrder.UpThenDownCanDiffer`; exactly when
  it does, `AccountOrder.UpThenDown`).
* Two different accounts can get one storage id (`AccountIdentity.TagsCanCollide`; exactly when,
  `AccountIdentity.StorageIdIsShared` and `AccountIdentity.ScopedIdIsShared`).
* A workspace-only lookup can depend on list order (`AccountLookup.WorkspaceTwoMatches`; exactly when,
  `AccountLookup.WorkspaceOrderMatters`).
* A refused update of an aggregate API may leave a secret that does not fit the type
  (`AggregateApiRuns.RefusedUpdateCanBreak`; exactly when, `AggregateApiRuns.RefusedUpdate`).
* A key that was accepted may be unsendable (`AggregateApiRuns.KeysCanBeUnsendable`,
  `AggregateApiRuns.OwnHeadersCanBeUnsendable`; exactly when, `AggregateApiRuns.ProbeSends`).
* In a dotenv file a comment need not be cut off: right behind the equals sign it becomes the value
  (`Dotenv.CommentAloneIsValue`; exactly when it is cut off, `Dotenv.CommentIsCut`).
* Versions far enough apart compare the wrong way round (`UpdateVersions.NegativeComponentsOverflow`; exactly when,
  `UpdateVersions.CompareSign`).

## Model

| member | source | states |
|---|---|---|
| Syscalls.ExecExtends | crates/web/src/updater.rs:532-573 | Whatever a handler's program does, the history of calls made before it is only ever extended |
| Syscalls.FileSystem.Invoke | crates/web/src/updater.rs:540-557 | One call either takes its whole effect or none, and is recorded; it succeeds iff it is possible and not faulted |
| Updater.ReplaceBinaryPair | crates/web/src/updater.rs:532-561 | The step-by-step replacement makes exactly the calls of `ReplacePair`, including the compensating ones, under every fault pattern |
| Updater.RestoreBothOutcome | crates/web/src/updater.rs:550-551 | With both originals in the backups, the two compensating renames keep each original and put both back unless one of them fails |
| Updater.ReplaceIsAllOrNothing | crates/web/src/updater.rs:532-561 | For every fault pattern: Ok gives new pair live and old pair in the backups; Err with no failed restoring rename leaves both live files as they were, and a backup pair only if it is the earlier one; each original is always at its place or in its backup; nothing else is touched; without faults it is Ok iff all four inputs exist |
| Updater.FailureForgetsBackups | crates/web/src/updater.rs:532-561 | After a failed replacement whose restores worked, a backup pair is left iff there was one and each of the first three calls (both removes and the first backup) failed too |
| Updater.FailureRefusesRollback | crates/web/src/updater.rs:289-291 | So once the first remove worked, a failed update takes away an earlier possibility to roll back |
| Updater.ReplaceWithoutLiveWeb | crates/web/src/updater.rs:540-543 | With the live web binary missing, a replacement fails, and the web backup survives it iff its first, best-effort remove fails |
| Updater.LastWebSurvives | crates/web/src/updater.rs:540-557 | The last web binary survives a replacement iff it was live, or its backup could not be removed |
| Updater.LastServiceSurvives | crates/web/src/updater.rs:540-557 | The last service binary survives a replacement iff it was live, or its backup could not be removed |
| Updater.RestoreCanFail | crates/web/src/updater.rs:544-547 | Two faults in a row leave no live web binary; its bytes are only in the backup |
| Updater.TwoReplacementsCanLoseWeb | crates/web/src/updater.rs:532-561 | Conservation does not extend to two replacements: after a failed restore, a faultless second one destroys the original web binary |
| Updater.SwapBackBackup | crates/web/src/updater.rs:563-573 | The swap makes exactly the calls of `SwapBack` under every fault pattern |
| Updater.SwapBackThen | crates/web/src/updater.rs:293-294 | A continuation runs, on the disk the swap left, iff the swap alone reports success |
| Updater.SwapBackOutcome | crates/web/src/updater.rs:563-573 | Ok makes the backup live and uses it up; Err leaves the backup, keeps the live bytes, and restores them unless the restoring rename fails; without faults Ok iff both files exist |
| Updater.SwapBackSucceeds | crates/web/src/updater.rs:563-573 | A swap of an existing backup succeeds iff the live file exists and neither rename fails |
| Updater.RollbackUpdate | crates/web/src/updater.rs:275-300 | The handler, with the answer of the runtime check, makes exactly the calls of `GuardedRollback` under every fault pattern |
| Updater.RollbackOutcome | crates/web/src/updater.rs:275-300 | Refused without a trace unless both backups exist; Ok restores both and consumes both; a failure leaves the service half as before and a mixed pair iff the web half had been swapped; backup bytes are never lost |
| Updater.RollbackHalfDone | crates/web/src/updater.rs:293-294 | Exactly which calls must work and which must fail for a rollback to fail with its web half swapped |
| Updater.RollbackCanMix | crates/web/src/updater.rs:293-294 | A single fault, on the first service rename, leaves the old web binary beside the new service binary |
| OperationLock.RunIsSerial | crates/web/src/updater.rs:95-134 | At every point of every schedule the disk is that of a serial run in lock order with at most the last program under way |
| OperationLock.Serialisable | crates/web/src/updater.rs:95-134 | Whenever the lock is free, disk and all answers are those of the handlers run one after the other in lock order |
| OperationLock.NoDeadlock | crates/web/src/updater.rs:95-134 | In every reachable state all handlers have answered or some handler can move |
| OperationLock.TurnCosts | crates/web/src/updater.rs:95-134 | A turn that changes anything uses up part of a total that bounds all remaining turns |
| OperationLock.FairRunsEnd | crates/web/src/updater.rs:95-134 | Every run ends: when the scheduler gives each handler a turn in more rounds than all programs can need steps, every handler has had the lock and answered, and the lock is free |
| UpdateRuns.PerformUpdate | crates/web/src/updater.rs:204-273 | The update handler's body performs exactly the update program: runtime check, release found, version check, sibling check, download, unpacking, replacement |
| UpdateRuns.UpdateShows | crates/web/src/updater.rs:204-273 | Without faults an update succeeds iff the undo model accepts it; then the files show the new release live and the old one as backup; otherwise the disk is untouched |
| UpdateRuns.RollBackShows | crates/web/src/updater.rs:275-300 | Without faults a rollback succeeds iff there is a backup; then the files show it live and no backup; otherwise the disk is untouched |
| UpdateRuns.SerialShows | crates/web/src/updater.rs:95-134 | Any serial run of requests leaves files that show the undo model's state |
| UpdateRuns.RunsRefineUndo | crates/web/src/updater.rs:95-134 | Under every interleaving without faults, files seen while the lock is free show the undo model after the requests in lock order, and each answer is Ok iff the model accepts the request there: the live pair, and the backup pair, is always of one release |
| UpdateRuns.RefusedChangeNothing | crates/web/src/updater.rs:204-230 | Refused requests leave the installation as it is |
| UpdateRuns.RollbackUndoesLatestUpdate | crates/web/src/updater.rs:275-300 | After the latest accepted update and any refused requests the backup is the pair live before it; a rollback restores that pair and consumes the backup; a further one is refused and changes nothing |
| UpdateRuns.BackupCheckPredictsRollback | crates/web/src/updater.rs:366-374 | The backup check is true iff a rollback started now succeeds |
| UpdateRuns.FaultyUpdate | crates/web/src/updater.rs:204-273 | Under any faults after which restoring works: the live pair is wholly new if the update answered Ok and wholly old otherwise, and a backup pair is the remembered one |
| UpdateRuns.FaultyRollBack | crates/web/src/updater.rs:275-300 | The same for a rollback that answers Ok, is refused, or fails before its web half is swapped |
| UpdateRuns.FaultyRunsKeepOneRelease | crates/web/src/updater.rs:95-134 | Under any faults and interleavings of updates and rollbacks that leave no half-done work: the live pair is always of one release, the one the Ok answers so far amount to, and a backup pair is the one live before the last Ok update |
| UpdateRuns.UpdatesAreWhole | crates/web/src/updater.rs:95-113 | For updates alone it is enough that no restoring rename failed anywhere in the history |
| UpdateRuns.FailedUpdateForgetsBackups | crates/web/src/updater.rs:204-273 | After a failed update whose restores worked, a backup pair is left iff there was one and either the replacement was never reached, or the three calls that clear the backups away failed too |
| UpdateRuns.UpdateKeepsLastService | crates/web/src/updater.rs:226-265 | Under every fault pattern an update keeps the last service binary, because the sibling check stops it when none is live |
| UpdateRuns.UpdateKeepsLastWeb | crates/web/src/updater.rs:204-273 | An update keeps the last web binary iff it does not reach the replacement, or that binary is live, or its backup could not be removed |
| ForwardRules.ParseModelForwardRuleRows | apps/src/app/settings/settings-page-helpers.ts:319-351 | The loop over lines collects, in order, the rows and passthrough lines of the specification `Parse` |
| ForwardRules.RuleCut | apps/src/app/settings/settings-page-helpers.ts:338-347 | A rule line is cut at its first arrow, or its first equals sign if it has no arrow; later separators stay in the target |
| ForwardRules.ParseClean | apps/src/app/settings/settings-page-helpers.ts:319-351 | For every text, parsed pieces are trimmed and line-free, no source starts with a hash, and passthrough lines are comments or hold no equals sign |
| ForwardRules.ParseTwo | apps/src/app/settings/settings-page-helpers.ts:326-348 | Reading two texts with a line feed between them gives the rows and lines of the first and then those of the second, for all texts |
| ForwardRules.BlankLinesAddNothing | apps/src/app/settings/settings-page-helpers.ts:326-330 | Blank lines, line feeds at the end and carriage returns, at either end of any text, change nothing |
| ForwardRules.PaddedLine | apps/src/app/settings/settings-page-helpers.ts:327 | Blanks around a line do not count |
| ForwardRules.ParsedArrowFree | apps/src/app/settings/settings-page-helpers.ts:338-347 | No parsed source holds an arrow |
| ForwardRules.RowRoundTrip | apps/src/app/settings/settings-page-helpers.ts:338-363 | A clean non-empty row reads back from its printed line iff its source has no equals sign or leading hash and its target no arrow or leading `>` |
| ForwardRules.RoundTrip | apps/src/app/settings/settings-page-helpers.ts:319-368 | For all rows and passthrough lines: parsing the printed text gives exactly them back iff every piece is printable |
| ForwardRules.TidyRoundTrip | apps/src/app/settings/settings-page-helpers.ts:319-368 | Untidy rules are printed like their trimmed selves without empty rows and lines, and come back as these iff these are printable |
| ForwardRules.ReprintLine | apps/src/app/settings/settings-page-helpers.ts:335-363 | Reading and printing one rule line keeps it, drops it, or makes it strictly shorter |
| ForwardRules.NormalizeShrinks | apps/src/app/settings/settings-page-helpers.ts:319-368 | Printing what was parsed never lengthens a text |
| ForwardRules.RoundShortens | apps/src/app/settings/settings-page-helpers.ts:319-368 | From the second round on each round leaves the text alone or makes it strictly shorter, and keeps the passthrough lines |
| ForwardRules.Converges | apps/src/app/settings/settings-page-helpers.ts:319-368 | Repeated load/store reaches a fixed point within the length of the text plus one rounds |
| ForwardRules.PassthroughSurvives | apps/src/app/settings/settings-page-helpers.ts:331-341 | All comment and passthrough lines survive any number of rounds, in order |
| ForwardRules.ReprintExact | apps/src/app/settings/settings-page-helpers.ts:335-363 | A rule line is reprinted unchanged iff it has no arrow and no blanks or nothing around its first equals sign |
| ForwardRules.FixedPoints | apps/src/app/settings/settings-page-helpers.ts:319-368 | The fixed points of load/store are exactly the texts of comment and plain lines followed by settled rule lines |
| ForwardRules.SettledRow | apps/src/app/settings/settings-page-helpers.ts:338-363 | The printed line of a parsed row stays as it is iff its target has no arrow and no leading `>`, and an equals sign left in its source is not first and has no space beside it |
| ForwardRules.OneRoundIsEnough | apps/src/app/settings/settings-page-helpers.ts:319-368 | For every text: a second round changes nothing iff all rows read from it that have both sides are of that kind |
| ForwardRules.OneArrow | apps/src/app/settings/settings-page-helpers.ts:335-363 | A text of one arrow line loses exactly the `>` of its arrow in one round |
| ForwardRules.OneRoundIsNotEnough | apps/src/app/settings/settings-page-helpers.ts:335-363 | `a=>>b` needs two rounds: it becomes `a=>b` and only then `a=b` |
| AccountOrder.LastIndexOf | apps/src/app/accounts/page.tsx:174-178 | The index map's entry for an id is the last place where that id stands, and is missing iff the id is |
| AccountOrder.HandleMoveAccount | apps/src/app/accounts/page.tsx:383-418 | The handler gives the result of `Move`: one of four refusals, or the reordered list |
| AccountOrder.MoveShape | apps/src/app/accounts/page.tsx:393-418 | Moving up puts the account right before its view predecessor, moving down right behind its successor, hidden accounts keeping their places |
| AccountOrder.MoveSwapsNeighbours | apps/src/app/accounts/page.tsx:98-114 | A move in any view permutes the full list, keeps the relative order of all other accounts, and swaps exactly two neighbours of the view |
| AccountOrder.MoveRefused | apps/src/app/accounts/page.tsx:387-412 | Refusals happen exactly outside the view and at its two ends; the target is never missing |
| AccountOrder.UpThenDown | apps/src/app/accounts/page.tsx:383-418 | Up then down always restores the view, and the full list iff the two accounts were adjacent in it |
| AccountOrder.UpThenDownCanDiffer | apps/src/app/accounts/page.tsx:383-418 | With one hidden account between two shown ones, up then down changes the full list |
| SortKeys.BuildAccountOrderUpdates | apps/src/app/accounts/accounts-page-helpers.tsx:530-544 | The accumulator ends as the specified list of updates |
| SortKeys.UpdatesExactly | apps/src/app/accounts/accounts-page-helpers.tsx:530-544 | An account gets an update iff its key is not five times its position, and the update carries that number |
| SortKeys.UpdatesByFields | apps/src/app/accounts/accounts-page-helpers.tsx:533-539 | An account is updated to five times its position iff its priority, or its sort if it has none, is another number |
| SortKeys.NoUpdatesMeansRight | apps/src/app/accounts/accounts-page-helpers.tsx:530-544 | There are no updates iff every key is already five times its position |
| SortKeys.AccountService.ReorderAccounts | apps/src/hooks/useAccounts.ts:333-339 | The loop applies exactly a prefix of the updates, up to the first failing request, and succeeds iff that is all of them |
| SortKeys.ResumeAfterFailure | apps/src/hooks/useAccounts.ts:333-339 | After any applied prefix, recomputing for the same order gives exactly the unapplied suffix |
| SortKeys.OrderIsApplied | apps/src/app/accounts/accounts-page-helpers.tsx:530-544 | With all updates applied, position i shows key 5i, stored keys increase strictly along the order, and other accounts' keys are untouched |
| SortKeys.StoredKeys | apps/src/app/accounts/accounts-page-helpers.tsx:530-544 | After all updates the stored key at position k is 5k; only a negative key at the front, shown as zero, stays |
| SortKeys.RefetchShowsOrder | crates/core/src/storage/accounts.rs:612-621 | Any refetch sorted by stored key, ties broken anyhow, shows exactly the requested order |
| SortKeys.MoveEndToEnd | apps/src/app/accounts/page.tsx:383-430 | From click to refetched list: the view shows the same ids with exactly two neighbours swapped |
| SortKeys.BuildAccountsBySizeOrder | apps/src/app/accounts/accounts-page-helpers.tsx:563-580 | The three buckets end as the specified groups, concatenated in the order of the mode |
| SortKeys.BySizeIsStableSort | apps/src/app/accounts/accounts-page-helpers.tsx:563-580 | The bucket order is a permutation sorted by group rank that keeps order inside groups, and is the only such list |
| SortKeys.SizeOrderByPlan | apps/src/app/accounts/accounts-page-helpers.tsx:546-580 | With large first, accounts on a plus, pro, team, business or enterprise plan (in any case, with blanks around) stand before all others and free ones behind all others; with small first the reverse |
| SortKeys.SizeOrderKeepsPlans | apps/src/app/accounts/accounts-page-helpers.tsx:563-580 | It is a permutation in which large, free and other accounts each keep their order |
| SortKeys.SortedStays | apps/src/app/accounts/accounts-page-helpers.tsx:563-580 | A list already in rank order is left alone |
| SortKeys.BySizeAbsorbs | apps/src/app/accounts/accounts-page-helpers.tsx:563-580 | Any earlier size sort, of either mode, leaves no trace in a later one; in particular the sort is idempotent |
| SortKeys.SizeSortSettles | apps/src/app/accounts/page.tsx:432-448 | After its updates are applied and the list refetched, the same size sort needs no updates |
| AccountIdentity.NormalizeNonEmpty | crates/service/src/account_identity.rs:41-43 | What passes is trimmed and not empty |
| AccountIdentity.PartIsCleaned | crates/service/src/account_identity.rs:41-59 | Blanks around an id part do not count, a blank part is as good as none, and every `::` inside becomes `_` |
| AccountIdentity.BuildAccountStorageId | crates/service/src/account_identity.rs:115-133 | The id is the printed form of the normalised base, scope and tag |
| AccountIdentity.NormalIsPossible | crates/service/src/account_identity.rs:56-59 | Whatever the inputs, scope and tag come out trimmed, not empty and without `::`, and the workspace different from the chatgpt id |
| AccountIdentity.PossibleIsNormal | crates/service/src/account_identity.rs:56-59 | Every such identity is its own normal form, so each is really produced by some inputs |
| AccountIdentity.ReadsBackExactly | crates/service/src/account_identity.rs:88-133 | The printed id decodes to base, scope and tag iff the base is separable, scope fields hold no bar, and the tag does not pose as a missing scope field |
| AccountIdentity.StorageIdsDecodeUniquely | crates/service/src/account_identity.rs:88-133 | Equal storage ids of two such identities imply equal base, scope and tag (a workspace equal to the chatgpt id being the same as none) |
| AccountIdentity.StorageIdIsShared | crates/service/src/account_identity.rs:88-133 | Over all inputs: a different account gets the same storage id iff this one has a scope or tag, or its subject can be cut at two colons into a subject and a tag |
| AccountIdentity.ScopedIdIsShared | crates/service/src/account_identity.rs:88-133 | Among accounts whose subject can be told from its suffix: a different one gets the same storage id iff this one has a chatgpt or workspace id, or a tag that spells one |
| AccountIdentity.TagsCanCollide | crates/service/src/account_identity.rs:123-132 | Two concrete accounts, one scoped and one with a tag, get one storage id |
| AccountIdentity.FallbackShowsSuffix | apps/src/app/logs/page.tsx:338-344 | The frontend shows the printed suffix trimmed its way, hence the suffix itself iff that is trimmed in JavaScript's sense; and nothing if there is no suffix |
| AccountLookup.PickedIsListed | crates/service/src/account_identity.rs:164-229 | A picked id is that of a listed account |
| AccountLookup.PairDecides | crates/service/src/account_identity.rs:178-188 | With both ids given the answer exists iff some account has that pair, and does not depend on the hints |
| AccountLookup.PairAnswer | crates/service/src/account_identity.rs:178-188 | With both ids the answer is the first account with that pair, or none |
| AccountLookup.ChatgptAnswer | crates/service/src/account_identity.rs:190-205 | With the chatgpt id alone: its only account; of several, the first without a workspace; else a known id |
| AccountLookup.WorkspaceAnswer | crates/service/src/account_identity.rs:207-214 | With the workspace alone: the first account with it, else a known id |
| AccountLookup.KnownIdAnswer | crates/service/src/account_identity.rs:216-228 | With neither: the trimmed hint if it is the id of an account, else the trimmed fallback key if it is one, else none |
| AccountLookup.PickIgnoresOrder | crates/service/src/account_identity.rs:164-229 | With distinct ids and distinct scope pairs, every query that is not workspace-only is answered the same for all orders of the list |
| AccountLookup.WorkspaceTwoMatches | crates/service/src/account_identity.rs:207-214 | With two matching accounts there are two orders that answer differently |
| AccountLookup.WorkspaceOrderMatters | crates/service/src/account_identity.rs:207-228 | A workspace-only query is order-independent iff at most one account matches |
| QueryParams.WithQueryParam | crates/service/src/aggregate_api.rs:313-331 | The rebuilt query is the old one without the name, in order, plus the new pair; an unparsable URL comes back as it is |
| QueryParams.BothShape | crates/service/src/aggregate_api.rs:361-366 | After two settings the two names stand last, once each (once in all if they coincide), behind the unrelated parameters in their old order |
| QueryParams.SetBothTwice | crates/service/src/aggregate_api.rs:361-366 | Setting username and password again is a fixed point, even with coinciding names; unrelated parameters keep their order and each name occurs exactly once |
| QueryParams.SetOneTwice | crates/service/src/aggregate_api.rs:377-379 | Setting one parameter again is a fixed point |
| AggregateApi.NormalizeAuthType | crates/service/src/aggregate_api.rs:115-129 | Every accepted spelling becomes one of the two stored types |
| AggregateApi.Storage.Perform | crates/core/src/storage/aggregate_apis.rs:135-245 | One write puts its value into its field of the row, or into the secret, and leaves every other field, and everything under other ids, as it was |
| AggregateApi.Storage.UpdateAggregateApi | crates/service/src/aggregate_api.rs:969-1099 | The chain of partial writes leaves exactly the prefix that `UpdateEntry` describes, answers accordingly, and touches no other id; unknown or empty ids change nothing |
| AggregateApi.Storage.CreateAggregateApi | crates/service/src/aggregate_api.rs:878-956 | Refused requests write nothing; success stores record and secret together; a failed secret is compensated by a delete, whose own failures are spelled out |
| AggregateApi.Storage.Delete | crates/core/src/storage/aggregate_apis.rs:258-266 | The secret goes first; the record goes only if both statements succeed |
| AggregateApi.Storage.DeleteAggregateApi | crates/service/src/aggregate_api.rs:1112-1120 | Ok iff the id is not empty and both statements succeed; then record and secret are gone |
| AggregateApi.Storage.ReadAggregateApiSecret | crates/service/src/aggregate_api.rs:1133-1165 | Which of the four errors or which credentials a stored entry reads as |
| AggregateApiRuns.RunThrough | crates/service/src/aggregate_api.rs:969-1099 | An update goes through iff no step refuses and no write fails, and then has made all its writes |
| AggregateApiRuns.UpdateDone | crates/service/src/aggregate_api.rs:969-1099 | After an update that returned Ok every write it meant is in place, and type, parameters and secret are as before where it meant none |
| AggregateApiRuns.UpdateKeepsSound | crates/service/src/aggregate_api.rs:969-1099 | An update that returned Ok leaves the announced type and a secret of that type |
| AggregateApiRuns.RepeatedUpdate | crates/service/src/aggregate_api.rs:969-1099 | Repeating an update that returned Ok returns Ok and changes nothing |
| AggregateApiRuns.UpdateParams | crates/service/src/aggregate_api.rs:1039-1052 | After an Ok update the parameters fit the type iff the request spoke about them or the old ones fit the new type |
| AggregateApiRuns.ProbeAccepts | crates/service/src/aggregate_api.rs:333-406 | For a sound entry with fitting parameters, building the probe is refused only for a bare key that cannot stand in a header, and always for that |
| AggregateApiRuns.ProbeSends | crates/service/src/aggregate_api.rs:333-406 | For such an entry the probe is built and its headers can be sent iff, where credentials become header values, the header names are valid and the credentials hold no control characters; in the address or in basic authentication anything goes |
| AggregateApiRuns.KeyPrepared | crates/service/src/aggregate_api.rs:878-956 | A request with an API key is accepted iff supplier and key are not blank and its parameters, if any, pass; the trimmed key and the parameters are stored |
| AggregateApiRuns.KeysCanBeUnsendable | crates/service/src/aggregate_api.rs:396-402 | Creation accepts a key with a line break and stores it as it is, and building any probe with it is refused |
| AggregateApiRuns.OwnHeadersCanBeUnsendable | crates/service/src/aggregate_api.rs:381-393 | With parameters that name a header of its own the same key is accepted, stored, and put into a probe that cannot be sent |
| AggregateApiRuns.ProbeAddressIsFixed | crates/service/src/aggregate_api.rs:650-657 | The second pass of the probe, on the address the first one returned, adds the same headers and keeps the address |
| AggregateApiRuns.SetBothParamsTwice | crates/service/src/aggregate_api.rs:361-366 | Through parsing and printing, setting both credentials in the URL again gives the same URL |
| AggregateApiRuns.Serve | crates/service/src/rpc_dispatch/aggregate_api.rs:34-112 | A create, update or delete call answers Ok iff the table model has a successor, and then leaves the storage showing it |
| AggregateApiRuns.PreparedIsSound | crates/service/src/aggregate_api.rs:878-956 | A created entry has a secret of its type and parameters of its type |
| AggregateApiRuns.RunsStaySound | crates/service/src/aggregate_api.rs:878-1120 | After any run of Ok calls every record has a secret of the kind its type calls for, and reading it succeeds with that type |
| AggregateApiRuns.CarefulRunsFit | crates/service/src/aggregate_api.rs:969-1099 | If every type change also spoke about the parameters, all stored parameters fit their types |
| AggregateApiRuns.CarefulRunsCanProbe | crates/service/src/aggregate_api.rs:333-406 | After such runs building the probe refuses no stored parameters or secrets, with the one exception of a bare key that cannot stand in a header |
| AggregateApiRuns.CarefulRunsCanSend | crates/service/src/aggregate_api.rs:333-406 | And after such runs the probe of a record can be sent iff its credentials and header names fit wherever they become headers |
| AggregateApiRuns.RefusedUpdate | crates/service/src/aggregate_api.rs:983-1098 | An update that returned Err never wrote the secret, and leaves a sound record sound iff the type was not written or the old secret fits the new type |
| AggregateApiRuns.RefusedPrefix | crates/service/src/aggregate_api.rs:983-1098 | An update that returned Err has made exactly the writes of the steps before the first one that refused or failed |
| AggregateApiRuns.RefusedParams | crates/service/src/aggregate_api.rs:1039-1052 | After a refused update the parameters of a sound record fit its type iff the first seven steps passed and the request spoke about them, or the old ones fit the type the record now has |
| AggregateApiRuns.SwitchLeavesUnsound | crates/service/src/aggregate_api.rs:983-1098 | Switching an API-key record to userpass without credentials is refused and still changes its type; the record stays sound iff its key happens to decode as a username and password |
| AggregateApiRuns.RefusedUpdateCanBreak | crates/service/src/aggregate_api.rs:983-1098 | A sound record whose secret cannot be read any more after such a refused update |
| AggregateApiEffects.WordsAreCleaned | crates/service/src/aggregate_api.rs:101-129 | Words for type, provider and status are compared without the blanks around them, in lower case, and with `_` for every `-` |
| AggregateApiEffects.UpdateAccepted | crates/service/src/aggregate_api.rs:969-1099 | Without storage failures an update returns Ok iff the request is good: known words for type, provider and status, a supplier name, a usable address, parameters of the type, an action that is no URL, and credentials in full when given or when the type changes |
| AggregateApiEffects.UpdateEffect | crates/service/src/aggregate_api.rs:995-1097 | After an update that returned Ok every field has what the request gave, in normal form, or its old value; new credentials are in the secret, username and password each in its place |
| AggregateApiEffects.CreateEffect | crates/service/src/aggregate_api.rs:893-955 | A creation is accepted iff its request is good, and every field and the secret are then what the request or the defaults say |
| AggregateApiEffects.ReadsCredentials | crates/service/src/aggregate_api.rs:1133-1165 | Reading a sound entry gives exactly the key, or the username and password, that its secret holds |
| AggregateApiEffects.CreatedReadsBack | crates/service/src/aggregate_api.rs:878-1165 | What was created reads back as the trimmed credentials of the request |
| AggregateApiEffects.UpdatedReadsBack | crates/service/src/aggregate_api.rs:969-1165 | After an Ok update the credentials read back are the new ones if given and the old ones otherwise |
| AggregateApiEffects.ActionWords | crates/service/src/aggregate_api.rs:131-153 | An action is accepted iff it holds no `://`, and is stored trimmed with a slash in front |
| AggregateApiEffects.KeyParamsWords | crates/service/src/aggregate_api.rs:171-193 | Parameters for a key are accepted iff they name a header or a query parameter, and for a header no other format than bearer or raw |
| AggregateApiEffects.PairParamsWords | crates/service/src/aggregate_api.rs:194-226 | Parameters for a username and password are accepted iff their mode is known and a pair mode names both |
| AggregateApiProbe.UserPassRequest | crates/service/src/aggregate_api.rs:346-371 | The request for a username and password, by mode: a header each under its own name, a query parameter each in the order of BothShape, or one basic authentication |
| AggregateApiProbe.ApiKeyRequest | crates/service/src/aggregate_api.rs:373-405 | The request for a key: three headers with bearer on the first only, the named header raw or bearer, or the one named query parameter |
| AggregateApiProbe.KeyParamsRead | crates/service/src/aggregate_api.rs:27-34 | Stored key parameters are read from the fields of their names, the format being optional |
| AggregateApiProbe.PairParamsRead | crates/service/src/aggregate_api.rs:36-44 | Stored pair parameters are read from the fields of their names, both names being optional |
| AggregateApiProbe.UserPassRead | crates/service/src/aggregate_api.rs:20-25 | Username and password are read from the fields of their names |
| AggregateApiProbe.ArraysRead | crates/service/src/aggregate_api.rs:20-44 | The same values are read from an array by their places, optional ones at the end possibly missing |
| EscapeHtml.EscapeIsOnePass | crates/web/src/main.rs:348-354 | The five whole-string replacements equal one character map |
| EscapeHtml.EscapedIsInert | crates/web/src/main.rs:348-354 | The result holds no `<`, `>`, `"` or `'` |
| EscapeHtml.UnescapeInverts | crates/web/src/main.rs:348-354 | Reading the five entities in one pass gives every text back, also one with entities spelled out in it |
| Dotenv.Environment.Load | crates/start/src/main.rs:227-235 | The loop leaves the environment that `LoadLines` describes |
| Dotenv.LoadIsFirstBinding | crates/start/src/main.rs:227-235 | Each key has its old value if it had one, else its first binding in the file, else none |
| Dotenv.LoadIsIdempotent | crates/start/src/main.rs:227-235 | Loading again changes nothing |
| Dotenv.QuotedLineReadsBack | crates/start/src/main.rs:161-183 | `key="value"` parses back to key and value, for every value, iff the key is trimmed, not empty, free of equals signs, and starts with none of hash, semicolon and `export ` |
| Dotenv.WrittenFileLoads | crates/start/src/main.rs:142-235 | A file of such lines loads as its bindings: existing variables win, then the first value of a key |
| Dotenv.PlainLineReads | crates/start/src/main.rs:161-183 | An unquoted trimmed value without a blank before a hash is bound as it is |
| Dotenv.CommentedLineReads | crates/start/src/main.rs:142-148 | Of a value with a comment, what stands before the first blank and hash is bound, trimmed at its end |
| Dotenv.CommentAloneIsValue | crates/start/src/main.rs:142-148 | With nothing between equals sign and comment the comment itself is bound |
| Dotenv.CommentIsCut | crates/start/src/main.rs:142-183 | A comment is cut off an assignment iff something stands before it and the rest of the line, from the value on, does not look quoted |
| Dotenv.SingleQuotedLineReads | crates/start/src/main.rs:174-178 | Single quotes bind what is between them, whatever it is |
| Dotenv.ExportedLineReads | crates/start/src/main.rs:166-168 | `export ` in front of any line that is no comment changes nothing |
| Dotenv.BindsNothing | crates/start/src/main.rs:162-173 | Exactly blank lines, comments, and lines without an equals sign behind a key bind nothing |
| Dotenv.MixedFileLoads | crates/start/src/main.rs:161-235 | A file of all these kinds of lines loads as what its lines mean: existing variables win, then the first line for a key |
| UpdateVersions.ParseI32 | crates/web/src/updater.rs:595 | Only numbers in the 32-bit range are numbers |
| UpdateVersions.NumberParses | crates/web/src/updater.rs:595 | A component with any sign and zeros in front counts as its number if that fits 32 bits, else as zero |
| UpdateVersions.OtherCountsAsZero | crates/web/src/updater.rs:595 | A component with any other character, or without digits, counts as zero |
| UpdateVersions.AnyTextParses | crates/web/src/updater.rs:575-598 | Without blanks and any number of leading `v`, the pieces between dots are the components; the first three count, and missing ones are zero |
| UpdateVersions.ParseVersionParts | crates/web/src/updater.rs:591-598 | The array filled in place holds the three components of the specification |
| UpdateVersions.CompareVersions | crates/web/src/updater.rs:579-589 | The loop returns the first non-zero 32-bit difference |
| UpdateVersions.CompareSign | crates/web/src/updater.rs:579-589 | The sign is that of the lexicographic order iff the difference of the first differing components fits 32 bits, and otherwise the opposite one; zero means equal |
| UpdateVersions.NegativeComponentsOverflow | crates/web/src/updater.rs:579-598 | Two texts, `-1` and the largest 32-bit number, each of which compares below the other |
| UpdateVersions.TagParses | crates/web/src/updater.rs:575-598 | A tag `v` plus three decimal components parses back to them |
| UpdateVersions.AcceptedExactly | crates/web/src/updater.rs:212-216 | For any two texts the check accepts exactly later versions iff the versions are equal or their first difference fits 32 bits |
| UpdateVersions.AcceptedChainsIncrease | crates/web/src/updater.rs:212-216 | Along any chain of texts without negative components, each accepted over the one before, versions strictly increase |
| UpdateVersions.TagChainsIncrease | crates/web/src/updater.rs:212-216 | In particular along release tags |
| PluginVersions.CompareVersionStrings | apps/src/app/plugins/page.tsx:198-219 | The loop with its early return gives the specified comparison |
| PluginVersions.ComparePartsFrom | apps/src/app/plugins/page.tsx:207-214 | The loop decides by the first difference of the endlessly zero-padded sequences |
| PluginVersions.PartsTransitive | apps/src/app/plugins/page.tsx:207-214 | The order of the padded sequences is transitive, strictly so if one step is strict |
| PluginVersions.CompareIsOrder | apps/src/app/plugins/page.tsx:198-219 | Given a consistent locale order, comparing version strings is antisymmetric in sign and transitive |
| PluginVersions.CompareEqual | apps/src/app/plugins/page.tsx:198-219 | Strings compare equal iff their numbers agree up to trailing zeros and the locale sees no difference |
| PluginVersions.DottedReadsBack | apps/src/app/plugins/page.tsx:199-206 | The numbers of a dotted version are the ones it was written from |
| PluginVersions.DottedCompare | apps/src/app/plugins/page.tsx:198-219 | Dotted versions of any length compare by their first different part, as numbers and with missing parts zero; without one the locale decides |
| PluginVersions.TrailingZeros | apps/src/app/plugins/page.tsx:207-214 | Zeros at the end of a version make no numerical difference |
| PluginVersions.TenAfterNine | apps/src/app/plugins/page.tsx:198-219 | 1.10 comes after 1.9 |
| PluginVersions.WovenRuns | apps/src/app/plugins/page.tsx:199-206 | Whatever stands between them, exactly the maximal digit runs count, in order |
| Fingerprint.ListDirectory | crates/web/build.rs:63-87 | One listing moves its directories to the queue and its files to the items, losing and inventing nothing |
| Fingerprint.FingerprintTree | crates/web/build.rs:55-96 | The worklist terminates on every finite tree and returns the sorted, joined items of exactly the multiset of its files, or `empty` |
| Fingerprint.SortSorted | crates/web/build.rs:90 | The items are put in lexicographic order |
| Fingerprint.SortIgnoresOrder | crates/web/build.rs:90 | The sorted sequence depends only on the multiset of items |
| Fingerprint.FingerprintIgnoresListingOrder | crates/web/build.rs:55-96 | Any reordering of the listing of any directories in the tree gives the same fingerprint |
| Fingerprint.ItemsExactly | crates/web/build.rs:59-87 | The items are exactly those of the files with metadata that can be reached through listable directories, each under its names joined by slashes |
| Fingerprint.ItemTells | crates/web/build.rs:81-86 | Two items are equal iff path (up to the kind of slash), size and time are |
| Fingerprint.FingerprintTells | crates/web/build.rs:55-96 | Without bars in file names, two trees get one fingerprint iff they have the same items: every change of a path, size or time shows |

## Left out

- Downloading, the request for the latest release, asset selection, zip extraction, checksums and file permissions of an update: whether a release was found, its tag, whether it could be downloaded and verified, and the unpacked bytes are parameters; the version check on them is modelled.
- How the updater finds its paths, the temporary directory around the unpacked files, and Windows rename semantics: paths are parameters, required to be different, and a rename replaces its target.
- A process image that is running while its file is renamed, power loss in the middle of a call, and handler futures cancelled while their blocking task goes on without the lock.
- Updater.RollbackUpdate: the two halves are independent, as in the code, so pair atomicity is stated for updates only.
- UpdateRuns.FaultyRunsKeepOneRelease: leaves out runs with a failed restoring rename or a half-done rollback, after which the pair may be mixed (`Updater.RollbackHalfDone` says when).
- Error messages are shortened to their fixed part.
- `verify_checksum`, pagination of the account list, label formatters and alias maps: each can be read off one body.
- A view of the account list is any predicate on accounts; the search text and filters that make it up are not modelled.
- SortKeys.AccountService.ReorderAccounts: `updated_at` and the caches that a run invalidates are not modelled; refetches may therefore break ties in any way.
- Sort keys are integers: a stored key is never a fraction.
- Strings are sequences of Unicode characters and not of UTF-16 or UTF-8 units; lower-casing is that of ASCII letters, as in the Rust code; for the plan names of the front end it decides the same.
- `localeCompare` and the number of a digit run in PluginVersions.CompareVersionStrings are parameters; that the former is a consistent order, and that the numbers of a printed version are read exactly, are hypotheses where needed.
- JSON text, URL parsing and percent-encoding are parameters with the laws that decoding what was encoded gives it back, for URLs only where parameters of a parsed URL were replaced; JSON numbers are whole; `normalize_upstream_base_url` is any function.
- UpdateVersions.CompareVersions: a debug build panics where a release build wraps around; the wrap-around is modelled.
- The generated ids of new aggregate APIs are parameters, required not to be empty; timestamps and results of connection tests are not part of a record here.
- AggregateApiRuns.ProbeSends: which header names the HTTP client accepts is a parameter, true of the names the code itself uses; the address and the network are not part of this model.
- JSON texts that name a field twice count as undecodable; other JSON the readers accept, such as arrays in place of objects, is modelled.
- Dotenv.Environment.Load: finding and reading the file, and the panic of `set_var` on keys and values with a NUL character.
- Fingerprint.FingerprintTree: the tree is finite and does not change while it is listed; symbolic links that form cycles are not part of this model.
- Account keys and their hashing, the web login, the gateway, the start supervisor, and the user interface around all this.
