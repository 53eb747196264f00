# Mother Claude: verified model of the stateful core

A Dafny model of the parts of Mother Claude whose correctness rests on state, on
interleavings or on persistence, with the properties that the code and its
documentation promise. `dafny verify dfyconfig.toml` checks everything.

| files | component |
|---|---|
| `Accounts`, `AccountFile`, `AccountEntries`, `AccountSurvival`, `AccountLoading`, `AccountReturns`, `AccountTokens`, `AccountChanges`, `AccountAnswers`, `AccountHolding`, `AccountRegistry`, `AccountSecrets` | the account registry, its file and its secrets (`claude/accounts.rs`) |
| `EventLog`, `EventReaders` | the bounded replay log, its cursors and its readers (`bridge/events.rs`) |
| `Operations`, `OperationRegistry`, `OperationAnswers` | background operations, eviction, the turn index (`bridge/ops.rs`) |
| `RuntimeHost`, `HostAnswers` | the supervisor of the bridge host process (`bridge/host.rs`) |
| `StoreLock`, `Turns`, `TurnAnswers` | the store lock and turn ownership in the sidecar (`host-env.ts`, `bridge-host.ts`) |
| `Base64`, `Jpeg`, `CodecAnswers` | the codecs (`bridge/inputs.rs`) |
| `PendingPolicy`, `PendingStore`, `PendingAnswers` | requests that wait for a human (`pending.rs`) |
| `Journal`, `JournalAnswers` | the incremental workflow journal (`claude/agents.rs`) |
| `Frames`, `Shuffles`, `Text`, `Wrappers` | what they share |

Code that changes an object in place is a class whose methods are proved against
a function of the old state; the promises are then lemmas about that function,
over single calls and over whole runs. The `Answers` files say what each operation
makes and answers, without the words of its own definition. Concurrency is a step
machine in which every lock-holding block (in the sidecar: the code between two
awaits) is one step, and a run is any sequence of steps.

## How the world enters

- The file system is a fixed oracle (`Machine`): how a directory is normalized,
  what the home directory is, what exists and is no directory. Normalizing twice
  is normalizing once. Creating an account's directory changes none of it.
- A token's hash is an arbitrary function to 64 hex digits, lower-casing a name
  an arbitrary function. New account ids and request ids are assumed unused.
- Writing the file, and reading, writing, restoring or deleting a secret, may fail
  or succeed at any call, each all or nothing.
- JSON text is abstract: an entry of the accounts file is either what it reads as,
  with how it was spelled, or raw text; a journal line is read by an arbitrary
  parser. `pending.rs` works on a JSON value datatype.
- The danger classifier of `pending/danger.rs` is an arbitrary verdict per item.
- Time is a counter; a wait may run out at any moment.
- The SDK, child processes and pipes are steps that may happen at any moment.

## What does not hold

The model keeps the code as it is. Where a promise fails, one lemma gives a run or
an input, and another says exactly when the promise holds.

| promise that fails | where | witness | exact condition |
|---|---|---|---|
| a stream ends only after its last event | `src-tauri/src/bridge/events.rs:214-221` with `src-tauri/src/bridge/routes/mod.rs:207-212`: a wait that runs out answers an empty batch marked closed | `ALateFrameCanBeCutOff` | `EndedMeansCompleteUnlessCutOff` |
| the terminal frame is an operation's last | `src-tauri/src/bridge/ops.rs:131-181` | `ALateEmit` | `TerminalIsLastUnlessEmitIsLate` |
| at most `max_active` operations run | `src-tauri/src/bridge/ops.rs:299-316` | `TheSlackIsReal`, at every cap and for any number of creators | `OverTheCapExactly`, `InsertsExceedExactly` |
| a turn is settled once | `sidecar/src/bridge-host.ts:674`: a late input claims a settled turn | `ALateInputReclaims` | `ClaimedTwiceExactly`, `TwoFramesExactly` |
| a result settles the turn that caused it | `sidecar/src/bridge-host.ts:523-542` after `:695` | `ALateResultSettlesTheNextTurn` | `ResultSettlesItsCause`, over runs `ALateResultExactly` |
| a claimed turn gets a terminal frame | `sidecar/src/bridge-host.ts:697`: a rejected `interrupt()` | `ARejectedInterruptLosesItsFrame` | `EveryClaimIsSettledOnce` |
| fill bytes before a marker are skipped (section B.1.1.2 of ITU-T T.81) | `src-tauri/src/bridge/inputs.rs:543-545` | `AnOddFillByteHidesTheFrame`, `OddFillHidesTheFrame` | `FrameBehindFill` |
| encoding undoes decoding | `src-tauri/src/bridge/inputs.rs:641-664`: the decoder is lenient | `EncodingDoesNotUndoDecoding` | `EncodingUndoesDecodingExactly` |
| the journal says what its file says | `src-tauri/src/claude/agents.rs:187-236`: a rewrite in place, no shorter | `ARewriteInPlaceIsMissed` | `AtALineEndRightExactly`; elsewhere, part by part, `AMissedRewriteIsRightExactly` |
| account names are unique after a load | `src-tauri/src/claude/accounts.rs:475-506`: a Default entry that is not the first entry | `OneDefaultEntryCanCollide`, `NamesCanCollide` | `LoadIsWellFormed` |
| tokens are distinct after a load | `src-tauri/src/claude/accounts.rs:607-617` | `TwinTokensLoad` | `EntriesKeepTokensExactly`, `LoadKeepsRulesExactly` |
| an account left out by one run is back in the next | `src-tauri/src/claude/accounts.rs:583-605`: that run took a held entry into use | `AHeldEntryCanDisplace` | `LeftOutIsLostExactly`, `LeftOutComesBackExactly` |
| a held project entry stays when the defaults are chosen | `src-tauri/src/claude/accounts.rs:1313-1314`: the save lets the chosen one win | `AChosenProjectReplacesAHeldOne` | `AHeldProjectStaysExactly` |
| what is held comes back after a restart | `src-tauri/src/claude/accounts.rs:1251-1323`: a removal, or a choice of defaults, that touches it | `AChosenProjectReplacesAHeldOne` | `RestartGivesBackExactly`, per change `CallKeepsHeldExactly` |
| the cache knows which tokens are stored, and stored tokens match | `src-tauri/src/claude/accounts.rs:1192-1216`, after a failed save | `AFirstTokenIsMisremembered` | `AFailedSaveOfAToken`, `KnownStaysRightExactly` |

Every change made through the registry keeps names and tokens distinct.

## Model

| member | source | states |
|---|---|---|
| AccountFiles.Load | src-tauri/src/claude/accounts.rs:460-554 | the loops over accounts and consents that fill the registry compute the function `FromFile` that every load theorem is about |
| AccountSurvival.AccountsSurvive | src-tauri/src/claude/accounts.rs:412-554 | a well-formed registry and all it holds, saved and then loaded and saved by any number of runs under other Default directories that can use nothing of what is held, loads under its own as it was, up to the order of accounts (Default first) and consents |
| AccountSurvival.AccountsSurviveWithNothingHeld | src-tauri/src/claude/accounts.rs:412-554 | the same for any other directories whatever, when nothing is held |
| AccountSurvival.UnreadableStaysHeld | src-tauri/src/claude/accounts.rs:465-473 | no run can use an unreadable entry, so these never stand in the way of survival |
| AccountSurvival.OddRunKeepsAll | src-tauri/src/claude/accounts.rs:339-345 | the file such a run saves still presents every account, default, project entry and consent of the registry, and everything held |
| AccountSurvival.LoadedAtHome | src-tauri/src/claude/accounts.rs:458-554 | a file that presents a registry loads to it under its own directory, what is held included |
| AccountEntries.EntriesSplit | src-tauri/src/claude/accounts.rs:465-498 | the entry loop, on any good list under any directory, keeps exactly the accounts that fit this run, in order, and holds exactly the others, raw, with their ids |
| AccountEntries.GoodThenRefused | src-tauri/src/claude/accounts.rs:465-507 | on good accounts followed by entries of no use, the loop holds exactly the misfits and these entries, and neither the clean-up of held ids nor the rename of the Default changes anything |
| AccountEntries.RefusedByElements | src-tauri/src/claude/accounts.rs:578-620 | whether an entry is refused does not depend on the order of the accounts |
| AccountEntries.KnownOrHeld | src-tauri/src/claude/accounts.rs:499-500 | after the loop every id of the list is usable or held, never both |
| AccountEntries.KeptIsGood | src-tauri/src/claude/accounts.rs:460-498 | leaving out accounts other than the Default leaves a list that still obeys every rule |
| AccountSurvival.DefaultsSurvive | src-tauri/src/claude/accounts.rs:508-534 | what the run uses and what it holds of the defaults make up, when saved, exactly the defaults that were read, and what it uses names only its own accounts |
| AccountSurvival.DefaultsComeBack | src-tauri/src/claude/accounts.rs:412-429 | loading the defaults a registry wrote gives back those it used and those it held |
| AccountSurvival.ConsentsLoad | src-tauri/src/claude/accounts.rs:535-547 | the consents between usable accounts are used, all others that name held accounts are held, none is lost or doubled |
| AccountSurvival.ConsentsComeBack | src-tauri/src/claude/accounts.rs:535-547 | whatever their order in the file, at home the consents split into those used and those held before |
| AccountLoading.LoadIsWellFormed | src-tauri/src/claude/accounts.rs:460-554 | any file whatever, damaged or edited, loads to a well-formed registry if and only if its Default entries do not collide with the others' names, which they never do when the Default comes first |
| AccountLoading.OneDefaultEntryCanCollide | src-tauri/src/claude/accounts.rs:500-507 | a family of files whose only Default entry is not the first and collides |
| AccountLoading.NamesCanCollide | src-tauri/src/claude/accounts.rs:500-507 | a family of files whose second Default entry collides: two accounts end up with one name |
| AccountLoading.ValidatedIsGood | src-tauri/src/claude/accounts.rs:578-620 | an entry that passes the check obeys every rule and stands apart from every account loaded before it |
| AccountLoading.EntryKeepsGood | src-tauri/src/claude/accounts.rs:465-497 | each entry, readable or not, keeps the accounts good, and the Default's name apart unless it is a later Default entry |
| AccountLoading.NoEntryIsErased | src-tauri/src/claude/accounts.rs:339-345 | whatever is wrong with an entry of the file, the next save writes it back unchanged, unless its id is in use |
| AccountTokens.EntryKeepsTokensExactly | src-tauri/src/claude/accounts.rs:607-617 | an entry keeps tokens distinct exactly when it is not accepted with a hash that an account loaded before it has |
| AccountTokens.EntriesKeepTokensExactly | src-tauri/src/claude/accounts.rs:465-498 | the loaded accounts have distinct tokens exactly when no entry of the file brings such a twin |
| AccountTokens.LoadKeepsRulesExactly | src-tauri/src/claude/accounts.rs:460-554 | any file loads to a registry that obeys every rule, distinct tokens included, exactly when its Default entries do not collide and no entry brings a twin |
| AccountLoading.TwinTokensLoad | src-tauri/src/claude/accounts.rs:607-617 | witness: two accounts of one token both load |
| AccountReturns.LoadIsWellHeld | src-tauri/src/claude/accounts.rs:449-456 | whatever file is loaded, Default first: the result is well formed, holds exactly what names a held entry, and could use none of it on a second try |
| AccountReturns.LoadedRegistriesSurvive | src-tauri/src/claude/accounts.rs:339-345 | so every loaded registry, held entries included, survives any runs that can use nothing of what is held |
| AccountReturns.LeftOutIsLostExactly | src-tauri/src/claude/accounts.rs:578-620 | after one odd run an account it left out is lost at home exactly when the run took something into use that fits at home and does not stand apart from the account |
| AccountReturns.TakenIntoUse | src-tauri/src/claude/accounts.rs:465-498 | what it took into use was held before, and loads at home exactly as far as it fits there |
| AccountReturns.LeftOutComesBackExactly | src-tauri/src/claude/accounts.rs:339-345 | the same whatever else that run did to its own accounts, as long as it kept what it held |
| AccountReturns.ApartComeBack | src-tauri/src/claude/accounts.rs:578-620 | good accounts that fit load exactly when they stand apart from those before them |
| AccountLoading.AHeldEntryCanDisplace | src-tauri/src/claude/accounts.rs:583-590 | witness: one run that cannot use an account lets a held namesake take its place for good |
| Accounts.CleanNameStays | src-tauri/src/claude/accounts.rs:666-684 | a checked name passes the check again unchanged |
| Accounts.Find | src-tauri/src/claude/accounts.rs:362-364 | finds an account of that id exactly when there is one |
| AccountChanges.AddDirectoryExactly | src-tauri/src/claude/accounts.rs:1086-1118 | valid input for a directory account is refused exactly when the account would break a rule of the registry |
| AccountChanges.AddTokenExactly | src-tauri/src/claude/accounts.rs:1123-1172 | the same for a token account, whose token must be no other account's |
| AccountChanges.SetTokenExactly | src-tauri/src/claude/accounts.rs:1175-1191 | a new token is refused exactly when another account has it |
| AccountChanges.UpdateExactly | src-tauri/src/claude/accounts.rs:1219-1248 | a valid name is refused exactly when it folds to another account's |
| AccountChanges.RemoveKeeps | src-tauri/src/claude/accounts.rs:1251-1270 | removing an account keeps every rule: no default, project or consent names it any more, and every other account stays |
| AccountChanges.SetCopyConsentKeeps | src-tauri/src/claude/accounts.rs:1326-1351 | the consent is there exactly if it was granted, every other consent is as it was, and the rules hold |
| AccountChanges.ProjectsAreGood | src-tauri/src/claude/accounts.rs:1296-1312 | every project key kept is absolute and names an account |
| AccountAnswers.CleanNameExactly | src-tauri/src/claude/accounts.rs:666-684 | a name is accepted exactly when, trimmed, it has 1 to 40 characters, no dot first and nothing a folder name may not have; and it is kept trimmed |
| AccountAnswers.AddDirectorySays | src-tauri/src/claude/accounts.rs:1086-1118 | the new directory account is the last one, with its id, the trimmed name, the normalized directory, the colour asked for (or the first of the palette that nobody has) and the time; nothing else changes |
| AccountAnswers.AddTokenSays | src-tauri/src/claude/accounts.rs:1123-1172 | the same for a token account: a token is accepted only if it looks like one, and its hash is kept |
| AccountAnswers.UpdateSays | src-tauri/src/claude/accounts.rs:1219-1248 | the account gets the trimmed name and the colour asked for and keeps everything not asked for; every other account stays as it is |
| AccountAnswers.SetTokenSays | src-tauri/src/claude/accounts.rs:1175-1217 | the account gets the hash of the new token and loses the person behind the old one; nothing else changes |
| AccountAnswers.RemoveSays | src-tauri/src/claude/accounts.rs:1251-1270 | exactly that account goes, in place, with the consents that name it; defaults and projects chosen for it fall to the Default or go, and every other choice stays |
| AccountAnswers.SetDefaultsSays | src-tauri/src/claude/accounts.rs:1284-1323 | refused exactly when an account is missing or a project is no absolute directory; otherwise each default is the account chosen for it, and each directory has the account of its last choice |
| AccountAnswers.ChoicesAreSaved | src-tauri/src/claude/accounts.rs:412-429 | and so says the next file |
| AccountAnswers.ProjectKeyExactly | src-tauri/src/claude/accounts.rs:1308-1311 | a project is kept under its directory without the slashes at the end, the root under `/` |
| AccountAnswers.SetCopyConsentSays | src-tauri/src/claude/accounts.rs:1326-1351 | refused exactly when an account is missing; nothing but the consents changes |
| AccountAnswers.EntryIsUsedExactly | src-tauri/src/claude/accounts.rs:578-620 | an entry of the file is used, as the account it stands for, exactly when that account may join those loaded before it in this run |
| AccountAnswers.DirFreeExactly | src-tauri/src/claude/accounts.rs:744-789 | a directory is free exactly when it overlaps neither the Default's own, resolved, nor any account's, and is not the root, the home directory or no directory |
| AccountAnswers.BelowOverlaps | src-tauri/src/claude/accounts.rs:751 | a directory overlaps everything below it |
| AccountAnswers.NeighboursAreApart | src-tauri/src/claude/accounts.rs:751 | different names in one directory do not overlap, even when one begins with the other |
| AccountHolding.ReloadsExactly | src-tauri/src/claude/accounts.rs:412-554 | saved and loaded again under the same directory, a registry is what it was exactly when it holds what a load would and could use none of it |
| AccountHolding.RemovedKeepsHeldExactly | src-tauri/src/claude/accounts.rs:1251-1270 | removing an account leaves what is held as a load would exactly when no held entry has its id and no held consent names it |
| AccountHolding.ChosenKeepsHeldExactly | src-tauri/src/claude/accounts.rs:1284-1323 | choosing the defaults does exactly when no project chosen is held for another account |
| AccountHolding.AddedKeepsHeld | src-tauri/src/claude/accounts.rs:1112-1117 | adding an account under a new id always does |
| AccountHolding.AHeldProjectStaysExactly | src-tauri/src/claude/accounts.rs:1313-1318 | after the defaults were chosen, the next file still has a held project entry exactly when nothing was chosen for that directory |
| AccountHolding.AChosenProjectReplacesAHeldOne | src-tauri/src/claude/accounts.rs:1313-1318 | witness: a held project entry that the next file no longer has |
| AccountRegistries.CheckProjects | src-tauri/src/claude/accounts.rs:1296-1312 | the loop over project entries stops at the first wrong one with its error, and otherwise computes the cleaned map, later entries of one key winning |
| AccountRegistries.CallKeepsRules | src-tauri/src/claude/accounts.rs:1086-1351 | every mutator, succeeding or failing, keeps unique ids, unique names, directories apart and no dangling default, project or consent, and keeps tokens distinct if they were |
| AccountRegistries.CallKeepsHeldExactly | src-tauri/src/claude/accounts.rs:1086-1351 | a change leaves what is held as a load would have left it exactly when it fails or takes nothing from it: it removes no account that a held entry or consent names, and chooses no project that is held for another account |
| AccountRegistries.AllOrNothing | src-tauri/src/claude/accounts.rs:908-921 | a change that fails leaves registry, file and generation as they were, and the secrets too if the rollback works; one that succeeds is what it planned, in memory and in the file |
| AccountRegistries.CallKeepsTokens | src-tauri/src/claude/accounts.rs:1120-1281 | with rollbacks that work each stored token always hashes to its account's hash |
| AccountRegistries.AFailedSaveOfAToken | src-tauri/src/claude/accounts.rs:1192-1216 | after a failed save of a new token: the store matches the registry exactly if the rollback worked or the token is the old one, and the cache is right exactly if there was a token before or the rollback failed |
| AccountRegistries.AFirstTokenIsMisremembered | src-tauri/src/claude/accounts.rs:1192-1216 | witness: after a first token that could not be saved was deleted again, the cache still says that one is stored |
| AccountSecrets.AnAddedTokenIsStored | src-tauri/src/claude/accounts.rs:1158-1171 | after a new token account was saved its token is stored, and known to be; without a token nothing is |
| AccountSecrets.ASetTokenIsStored | src-tauri/src/claude/accounts.rs:1192-1216 | after a new token was saved it is the one stored |
| AccountSecrets.AForgottenTokenIsGone | src-tauri/src/claude/accounts.rs:1273-1279 | after a removal exactly the removed account's secret is gone, if it could be deleted |
| AccountSecrets.OnlyItsOwnSecret | src-tauri/src/claude/accounts.rs:1123-1281 | no change touches the secret of another account, nor what is known of it |
| AccountSecrets.AFailedCallSays | src-tauri/src/claude/accounts.rs:1158-1216 | after a failure the store is as it was, unless the new token was stranded there by a rollback that failed |
| AccountSecrets.WhatCannotBeWrittenIsNot | src-tauri/src/claude/accounts.rs:908-921 | what the file or the secret store refused is not there |
| AccountSecrets.WhatChangesIsSaved | src-tauri/src/claude/accounts.rs:1243-1246 | a change that changes nothing succeeds without a save; any other that succeeds is saved once |
| AccountSecrets.RefusalsMean | src-tauri/src/claude/accounts.rs:1086-1351 | every refusal means what it says: the account is missing, the name is taken, the directory is not free, and so on |
| AccountSecrets.SecretsComeFromCalls | src-tauri/src/claude/accounts.rs:1123-1281 | over every run a token is in the store only if it was there or a call for that very account put it there |
| AccountSecrets.AStoredTokenStays | src-tauri/src/claude/accounts.rs:1123-1281 | and it stays until another call for that account |
| AccountSecrets.KnownStaysRightExactly | src-tauri/src/claude/accounts.rs:873-898 | what is remembered of the store stays right exactly when no first token is deleted again after a failed save |
| AccountSecrets.TokensStayStored | src-tauri/src/claude/accounts.rs:1120-1281 | over every run with rollbacks that work, a token account with a hash has the token of that hash in the store |
| AccountSecrets.EachItsOwnEnvironment | src-tauri/src/claude/accounts.rs:1065-1084 | a child runs with the account's own directory or token or not at all: never with the Default's sign-in instead |
| AccountSecrets.EveryTokenAccountRuns | src-tauri/src/claude/accounts.rs:1065-1084 | so over every such run a child of a token account with a hash runs with the token of that hash |
| AccountRegistries.HeldStays | src-tauri/src/claude/accounts.rs:339-359 | in memory no change touches what is held for other runs (choosing defaults gives up the two held ones); what of it is saved see `AHeldProjectStaysExactly` |
| AccountRegistries.TransactionsKeep | src-tauri/src/claude/accounts.rs:909-1351 | over any sequence of changes and failures, with rollbacks that work: the rules, the match of tokens, the file equal to the saved registry, and in memory everything held |
| AccountRegistries.ChangesKeep | src-tauri/src/claude/accounts.rs:909-1351 | the same, whatever the rollbacks do and whether or not tokens are distinct, for everything but tokens |
| AccountRegistries.RestartGivesBackExactly | src-tauri/src/claude/accounts.rs:412-1351 | after any changes, the next run under this directory has the registry, and all it held, as last saved exactly when what is held is as a load leaves it and none of it could be used now |
| AccountRegistries.SavedWorkSurvives | src-tauri/src/claude/accounts.rs:412-1351 | then also runs under other directories in between take nothing away: changes that take nothing from what is held, then runs that, like this one at its end, can use nothing of it |
| AccountRegistries.SavedWorkSurvivesWithNothingHeld | src-tauri/src/claude/accounts.rs:412-1351 | the same after any changes and any runs whatever, when nothing was held to begin with |
| AccountRegistries.ChangesElsewhere | src-tauri/src/claude/accounts.rs:1086-1351 | changes made and saved by any run under another directory, one that loaded twin tokens included: an account it left out is back at home exactly when none of the accounts it ended with, as far as they fit there, took its id, name or directory |
| AccountRegistries.AccountRegistry.constructor | src-tauri/src/claude/accounts.rs:846-869 | loads the file, or starts with the Default alone |
| AccountRegistries.AccountRegistry.Save | src-tauri/src/claude/accounts.rs:909-921 | saves and installs, or changes nothing |
| AccountRegistries.AccountRegistry.AddDirectory | src-tauri/src/claude/accounts.rs:1086-1118 | the step of the transaction machine; the new account is the last one |
| AccountRegistries.AccountRegistry.AddToken | src-tauri/src/claude/accounts.rs:1123-1172 | the same, with the secret stored first and deleted again when the save fails; after a success the token is stored |
| AccountRegistries.AccountRegistry.SetToken | src-tauri/src/claude/accounts.rs:1175-1216 | the same, with the previous secret put back when the save fails; after a success the new one is stored |
| AccountRegistries.AccountRegistry.Update | src-tauri/src/claude/accounts.rs:1219-1248 | the same; an unchanged registry is not saved |
| AccountRegistries.AccountRegistry.Remove | src-tauri/src/claude/accounts.rs:1251-1281 | two steps of the machine: the removal under the lock, and the deletion of the secret after it was given up, which other calls may come between |
| AccountRegistries.AccountRegistry.SetDefaults | src-tauri/src/claude/accounts.rs:1283-1323 | the same, with the errors in the code's order |
| AccountRegistries.AccountRegistry.SetCopyConsent | src-tauri/src/claude/accounts.rs:1326-1351 | the same |
| EventLogs.RetainIsLongestFittingSuffix | src-tauri/src/bridge/events.rs:106-116 | the retained window is the longest suffix of the history within both limits, or the last event alone when even that does not fit |
| EventLogs.RetainAbsorbs | src-tauri/src/bridge/events.rs:106-116 | evicting as events arrive keeps the window that evicting once from the whole history would |
| EventLogs.CursorContract | src-tauri/src/bridge/events.rs:161-186 | 422 exactly when the cursor is ahead, 410 exactly when the next event was evicted, otherwise exactly the history after the cursor; a 422 names the newest event, a 410 the cursor asked for and the oldest event retained |
| EventLogs.EventLog.AppendRaw | src-tauri/src/bridge/events.rs:95-121 | the eviction loop with its byte counter leaves exactly that window; nothing is accepted after the close |
| EventLogs.EventLog.Close | src-tauri/src/bridge/events.rs:124-138 | closes once, with one wake-up |
| EventLogs.EventLog.OldestCursor | src-tauri/src/bridge/events.rs:147-156 | the smallest cursor that is not refused; from it everything retained is read |
| EventLogs.CollectNewer | src-tauri/src/bridge/events.rs:198-204 | the events newer than a cursor, in order |
| EventLogs.EventLog.ReadNow | src-tauri/src/bridge/events.rs:193-213 | one look: the two refusals exactly as above, with their numbers, exactly the history after the cursor, or a wait exactly at the open head |
| ResumingClients.ResumedReadingIsExact | src-tauri/src/bridge/events.rs:161-224 | under every interleaving of appends, closes, reads and waits that run out, a client that resumes from its last event holds exactly the history from its start, and never gets a 422 |
| ResumingClients.AcceptedStartIsExact | src-tauri/src/bridge/events.rs:170-186 | every accepted cursor is such a start |
| ResumingClients.TwoLooksReachTheEnd | src-tauri/src/bridge/events.rs:193-224 | after a close a client that gets no 410 has everything and its end within two looks |
| ResumingClients.EndedMeansCompleteUnlessCutOff | src-tauri/src/bridge/routes/mod.rs:198-215 | an ended stream delivered everything if and only if no wait ran out on a closed log that still had events for it |
| ResumingClients.ALateFrameCanBeCutOff | src-tauri/src/bridge/events.rs:214-221 | such a wait does end a stream without the last event |
| ReaderWakeups.NoWakeupIsEverLost | src-tauri/src/bridge/events.rs:118-138 | over every interleaving, a parked reader with something to read has a bump it has not seen, or one still to be sent |
| ReaderWakeups.ParksOnlyAtTheHead | src-tauri/src/bridge/events.rs:198-213 | a look parks exactly when the log is open and nothing follows the cursor |
| ReaderWakeups.AParkedReaderIsAnswered | src-tauri/src/bridge/events.rs:193-224 | once every writer has bumped, a parked reader with something to read wakes and is answered by its next look |
| Operations.Operation.Emit | src-tauri/src/bridge/ops.rs:131-135 | a frame on the operation's log while it runs, and always on the global one |
| Operations.Operation.Finish | src-tauri/src/bridge/ops.rs:141-181 | one call wins; exactly one terminal frame with the operation's own outcome, the last event of its closed log and mirrored; the losers change nothing |
| Operations.Operation.Fail | src-tauri/src/bridge/ops.rs:185-198 | the same with status failed and the error |
| OperationHistories.HistoriesAreMirrored | src-tauri/src/bridge/ops.rs:126-198 | with emit and finish atomic, over every run: each log is a prefix of the operation's frames in the global log, what follows are late messages, and a finished one ends with its only terminal frame |
| OperationHistories.FailEachKeepsFinished | src-tauri/src/bridge/ops.rs:363-373 | failing all changes no finished operation |
| OperationHistories.FinishedForGood | src-tauri/src/bridge/ops.rs:141-181 | over every run a finished operation keeps its outcome and its log |
| OperationRaces.OneTerminalOutcome | src-tauri/src/bridge/ops.rs:141-181 | with every lock hold a step of its own: the first outcome stays, and log and mirror get exactly one terminal frame each, carrying it |
| OperationRaces.TerminalIsLastUnlessEmitIsLate | src-tauri/src/bridge/ops.rs:131-181 | the terminal frame is the last event of the closed log if and only if no emit came between its write and the close |
| OperationRaces.ALateEmit | src-tauri/src/bridge/ops.rs:131-181 | an emit can come between them |
| OperationAnswers.TheFirstFinishDecides | src-tauri/src/bridge/ops.rs:141-181 | over every run the outcome is that of whoever called `finish` first |
| OperationAnswers.NoMessageIsLost | src-tauri/src/bridge/ops.rs:131-181 | over every interleaving each message emitted is on the mirror or on its way there, exactly once; the operation's own log has them in order, all of them until it is closed |
| OperationAnswers.AFinishSays | src-tauri/src/bridge/ops.rs:141-181 | finishing gives the operation exactly that outcome, as the last frame of its log and on the mirror, and touches no other |
| OperationAnswers.AFailAllSays | src-tauri/src/bridge/ops.rs:363-373 | failing all gives every running operation the error, and touches no other |
| OperationAnswers.TheMirrorSaysAll | src-tauri/src/bridge/ops.rs:131-138 | over every run the global log has each operation's messages, all of them, once, in order and word for word |
| OperationRegistries.CountEvictions | src-tauri/src/bridge/ops.rs:275-287 | the eviction loop takes the least number of oldest operations after which nothing has aged out and the total fits (or nothing finished is left) |
| OperationRegistries.SortByTime | src-tauri/src/bridge/ops.rs:268-274 | exactly the finished ids, each once, oldest first |
| OperationRegistries.OperationRegistry.Prune | src-tauri/src/bridge/ops.rs:264-291 | eviction removes exactly that shortest oldest-first prefix, never a running operation, and its index entries with it |
| OperationRegistries.OperationRegistry.Create | src-tauri/src/bridge/ops.rs:294-321 | exactly the eviction of `Prune` first; then accepted exactly when fewer than the cap run: a new running operation of that thread and turn, under its id and, when it has both, indexed under them; every other operation and index entry that was not evicted is as it was |
| OperationRegistries.OperationRegistry.Discard | src-tauri/src/bridge/ops.rs:325-328 | removes the operation and its index entries and nothing else |
| OperationRegistries.OperationRegistry.ForTurn | src-tauri/src/bridge/ops.rs:338-344 | answers a registered operation of that very turn, or nothing |
| OperationRegistries.OperationRegistry.FailAll | src-tauri/src/bridge/ops.rs:363-373 | every running operation is failed with the message, now, with one frame each on the global log; every other keeps outcome and log |
| ConcurrentCreators.ActiveIsBounded | src-tauri/src/bridge/ops.rs:294-321 | with k creators at work at most max_active - 1 + k operations run |
| ConcurrentCreators.OverTheCapExactly | src-tauri/src/bridge/ops.rs:299-306 | running operations and admitted creators go over the cap together exactly when a check passes although they already make it up |
| ConcurrentCreators.InsertsExceedExactly | src-tauri/src/bridge/ops.rs:307-316 | with no further check the cap can be exceeded exactly when that sum exceeds it |
| ConcurrentCreators.TheSlackIsReal | src-tauri/src/bridge/ops.rs:299-316 | at every cap, k creators do reach max_active - 1 + k |
| OperationAnswers.CreatorsSay | src-tauri/src/bridge/ops.rs:299-316 | a creator passes the check exactly when fewer than the cap run; its operation runs until it is finished; giving up frees the creator |
| RuntimeHosts.RuntimeHost.AbandonGeneration | src-tauri/src/bridge/host.rs:290-307 | the loop fails each in-flight RPC of that generation exactly once and touches no other |
| RuntimeHosts.RuntimeHost.Retire | src-tauri/src/bridge/host.rs:255-287 | undisturbed, exactly the retirement steps of the machine below, for an installed process and for a replaced one; a replaced one takes out nobody and fails no operation |
| RuntimeHosts.RuntimeHost.Ensure | src-tauri/src/bridge/host.rs:143-257 | undisturbed, exactly the machine's steps: the live process unchanged, or a new one after the dead one was retired, or none when the spawn fails |
| RuntimeHosts.RuntimeHost.PutInFlight | src-tauri/src/bridge/host.rs:310-366 | an RPC is tagged with the process it was handed to |
| RuntimeHosts.RuntimeHost.ResolveInflight | src-tauri/src/bridge/host.rs:375-383 | answers an RPC in flight with that value, once, and no other |
| RuntimeHosts.RuntimeHost.DropInflight | src-tauri/src/bridge/host.rs:368-373 | a caller that gives up leaves no entry and no answer |
| HostGenerations.GenerationsAreIsolated | src-tauri/src/bridge/host.rs:143-383 | over all interleavings of calls, replies, crashes, reader exits and restarts: each replaced generation was retired exactly once and in order, each RPC is answered at most once, and by a retirement only of its own generation |
| HostGenerations.InstalledGenerationIsSafe | src-tauri/src/bridge/host.rs:255-307 | while a generation is installed exactly its predecessors have been retired, once each; no cleanup failed one of its RPCs; each `fail_all` ran before a later process was started; an RPC left under an older generation was written after its retirement |
| HostAnswers.ReplyIsDelivered | src-tauri/src/bridge/host.rs:375-383 | a reply to an RPC in flight carries its value to that caller, ends the RPC, and touches no other |
| HostAnswers.AbandonedAreTold | src-tauri/src/bridge/host.rs:290-307 | abandoning a generation tells each of its callers, once, and nobody else |
| HostAnswers.ACallIsInFlight | src-tauri/src/bridge/host.rs:310-320 | a call is in flight, unanswered, under the process it was handed |
| HostAnswers.EveryAnswerHasItsCause | src-tauri/src/bridge/host.rs:290-383 | over every run a caller is told something exactly when a step of the run said so while its RPC was in flight: a value by a reply to it with that value, an end by the end of its own generation |
| HostAnswers.NoRpcIsForgotten | src-tauri/src/bridge/host.rs:310-383 | over every run each RPC ever written is in flight and unanswered, or was answered exactly once, or was given up by its caller, and only one of these |
| HostAnswers.EveryRetirementFailsAll | src-tauri/src/bridge/host.rs:278-287 | over every run each retired generation has failed the operations, in order, but for the one being retired |
| HostAnswers.ADeadHostIsReplaced | src-tauri/src/bridge/host.rs:143-257 | a process that died is retired by the next undisturbed `ensure`, its callers are told, and a new one is installed and alive |
| HostAnswers.AnEndedHostIsTakenOut | src-tauri/src/bridge/host.rs:255-287 | a process whose output ended is taken out, its callers are told and the operations failed |
| HostAnswers.AReplacedHostTakesOutNobody | src-tauri/src/bridge/host.rs:264-276 | one that was replaced meanwhile tells its callers and does nothing else |
| StoreLocks.ConfigDirIsIsolated | sidecar/src/bridge-host.ts:91-103 | over every run: exclusive calls overlap nothing, calls start in arrival order, the config directory is the call's own throughout an exclusive body and the base one throughout shared bodies and idle times, and a waiting queue has something running |
| StoreLocks.WaitingIsBounded | sidecar/src/host-env.ts:50-93 | with r calls running, the call at queue position p has started after r + p releases, whatever arrives |
| StoreLocks.DefaultNeverWaits | sidecar/src/host-env.ts:50-56 | with only the Default's calls nothing ever waits |
| StoreLocks.AnArrivalIsAsAsked | sidecar/src/bridge-host.ts:91-103 | an arrival adds one call, with the directory its caller named; a missing or empty one makes it a shared call |
| StoreLocks.CallsAreAsAsked | sidecar/src/host-env.ts:50-93 | over every run the k-th arrival is the k-th call, with the directory its caller named, waiting or started |
| StoreLocks.EveryBodySeesWhatItsCallerNamed | sidecar/src/bridge-host.ts:91-103 | over every run, while a call's body runs the config directory is the one its caller named, or the base one when it named none |
| StoreLocks.ACallEnds | sidecar/src/host-env.ts:70-79 | a body that ended and released its place is over, and nothing else is |
| StoreLocks.PumpKeeps | sidecar/src/host-env.ts:84-92 | pumping keeps the invariants and leaves a head that must wait |
| StoreLocks.StoreLock.PumpQueue | sidecar/src/host-env.ts:84-92 | the loop starts exactly the calls the specification admits, in order |
| StoreLocks.StoreLock.Submit | sidecar/src/host-env.ts:62-82 | the call joins the queue, with the directory its caller named, and the queue is pumped |
| StoreLocks.StoreLock.EndBody | sidecar/src/bridge-host.ts:97-101 | an exclusive body puts back the directory it found |
| StoreLocks.StoreLock.Settle | sidecar/src/host-env.ts:74-78 | the counters go down and the queue is pumped |
| Turns.EveryClaimIsSettledOnce | sidecar/src/bridge-host.ts:511-783 | over every interleaving of input, interrupt, results, close and stream end: each claim of the turn slot gets at most one terminal frame, for its own turn; after the stream ended and with no interrupt pending exactly one, unless its interrupt was rejected; input that names a turn is pushed only into that turn |
| Turns.TwoFramesExactly | sidecar/src/bridge-host.ts:680-709 | when all is over a turn got two terminal frames exactly when two of its claims were not lost to a rejected interrupt |
| Turns.ClaimedTwiceExactly | sidecar/src/bridge-host.ts:665-676 | over every run a turn is claimed twice exactly when some accepted input named it while no turn ran and it had been claimed before |
| Turns.SettledTwiceExactly | sidecar/src/bridge-host.ts:660-678 | without rejected interrupts a turn is settled twice exactly when such an input came |
| Turns.FramesOfATurn | sidecar/src/bridge-host.ts:511-572 | at any moment a turn has two terminal frames exactly when two of its claims have one each |
| Turns.ResultSettlesItsCause | sidecar/src/bridge-host.ts:523-542 | a result settles the claim whose input caused it exactly when that claim still holds the slot, and a later one exactly when a later one holds it |
| Turns.ALateResultExactly | sidecar/src/bridge-host.ts:523-709 | over every run: a result settles a later claim than the one that caused it exactly when, after that claim, an input claimed the free slot again, and a turn runs; the claim then has its own frame, or its interrupt is waited for or was rejected |
| Turns.ALateResultSettlesTheNextTurn | sidecar/src/bridge-host.ts:680-696 | the late result of an interrupted turn does settle the turn claimed since |
| Turns.ALateInputReclaims | sidecar/src/bridge-host.ts:660-678 | a late input does claim a settled turn |
| Turns.ARejectedInterruptLosesItsFrame | sidecar/src/bridge-host.ts:680-709 | a rejected interrupt does lose its frame |
| TurnAnswers.InputSays | sidecar/src/bridge-host.ts:660-678 | an input is delivered exactly when the conversation is open and it names no turn, the running one, or one while none runs; naming one makes it the running turn, claimed if none ran |
| TurnAnswers.InterruptSays | sidecar/src/bridge-host.ts:680-696 | an interrupt takes the running turn exactly when the conversation is open and it names no turn or that one |
| TurnAnswers.AwaitedInterruptSays | sidecar/src/bridge-host.ts:697-708 | an awaited interrupt answers for the claim it took and for no other |
| TurnAnswers.EndingSays | sidecar/src/bridge-host.ts:523-571 | a result, the end of the stream and closing settle the running turn: `Completed` only for a success without an error, `Interrupted` only for closing, `Failed` otherwise |
| TurnAnswers.FramesSayWhy | sidecar/src/bridge-host.ts:511-783 | over every run each terminal frame was made by one step that stands for its status: `Completed` only by a success without an error |
| Turns.Session.Receive | sidecar/src/bridge-host.ts:660-678 | refused exactly when closed or naming another turn, each with its own error, and then nothing is delivered; otherwise the message is queued and the turn owned |
| Turns.Session.TakeForInterrupt | sidecar/src/bridge-host.ts:680-696 | the running turn is taken in one step and its claim answered, the refusals and the no-op as in the code |
| Turns.Session.OnResult | sidecar/src/bridge-host.ts:523-542 | a result settles the running turn, failed unless it is a success without an error |
| Turns.Session.AfterInterrupt | sidecar/src/bridge-host.ts:697-708 | the turn that was taken before the wait gets the interrupted frame, whatever runs by now; none when the SDK rejects |
| Turns.Session.OnStreamEnd | sidecar/src/bridge-host.ts:547-571 | a stream that ends or throws fails the running turn and closes the conversation |
| Turns.Session.CloseSession | sidecar/src/bridge-host.ts:760-783 | closing settles the running turn as interrupted and ends the input, once |
| Turns.InputQueue.Push | sidecar/src/bridge-host.ts:158-191 | an accepted message goes to a parked consumer or the buffer; none after the close |
| Turns.InputQueue.Take | sidecar/src/bridge-host.ts:158-191 | messages come in order, none lost or doubled; the end only after all of them |
| Base64.RoundTrip | src-tauri/src/bridge/inputs.rs:612-664 | decoding undoes encoding, for every byte string |
| Base64.UrlSafeRoundTrip | src-tauri/src/bridge/inputs.rs:641-664 | also through the alphabet of section 5 of RFC 4648 |
| Base64.SkippedAnywhere | src-tauri/src/bridge/inputs.rs:641-664 | whitespace and padding change nothing, wherever they stand |
| Base64.FailsExactlyOnStrays | src-tauri/src/bridge/inputs.rs:641-664 | decoding fails exactly on a character that is no letter, padding or whitespace |
| Base64.EncodedLength | src-tauri/src/bridge/inputs.rs:616-639 | four characters for every three bytes begun |
| Base64.EncodingUndoesDecodingExactly | src-tauri/src/bridge/inputs.rs:612-664 | for every text that decodes: encoding its bytes gives the text back exactly when it is canonical, that is standard letters, padded with at most two `=` to a multiple of four, unused bits zero |
| Base64.EncodingIsCanonical | src-tauri/src/bridge/inputs.rs:616-639 | every encoding is canonical |
| Base64.EncodingDoesNotUndoDecoding | src-tauri/src/bridge/inputs.rs:641-664 | witness of a text that is not |
| CodecAnswers.LettersAreTheAlphabet | src-tauri/src/bridge/inputs.rs:614 | the letters are Table 1 of RFC 4648 |
| CodecAnswers.AGroupIsAWord | src-tauri/src/bridge/inputs.rs:616-639 | three bytes are one 24-bit word, most significant first, and its four letters are its 6-bit digits |
| CodecAnswers.LastGroups | src-tauri/src/bridge/inputs.rs:616-639 | a group that is not full is filled with zero bits and padded |
| CodecAnswers.GroupByGroup | src-tauri/src/bridge/inputs.rs:616-639 | groups are encoded one after the other |
| CodecAnswers.BlanksAnywhere | src-tauri/src/bridge/inputs.rs:651-655 | line breaks, blanks, tabs and `=` change nothing, wherever they stand |
| CodecAnswers.FailsExactlyOutside | src-tauri/src/bridge/inputs.rs:641-664 | decoding fails exactly on a character that is in neither alphabet of RFC 4648 and is none of these |
| Base64.EncodeBase64 | src-tauri/src/bridge/inputs.rs:616-639 | the shifting loop computes the encoding defined on groups of 24 bits |
| Base64.DecodeBase64 | src-tauri/src/bridge/inputs.rs:641-664 | the loop with its wrapping 32-bit accumulator computes the decoding defined on groups |
| Jpeg.JpegDimensions | src-tauri/src/bridge/inputs.rs:534-567 | on every input the loop stays in bounds, ends, and answers what the walk defines |
| Jpeg.FrameSizeIsFound | src-tauri/src/bridge/inputs.rs:534-567 | after SOI and any standalone markers and sized segments, SOF-looking payloads included, the frame header's width and height are answered |
| CodecAnswers.MarkerCodes | src-tauri/src/bridge/inputs.rs:548-560 | the frame headers and the lone markers are those of Table B.1 of ITU-T T.81 |
| CodecAnswers.EveryKindOfFrameIsFound | src-tauri/src/bridge/inputs.rs:534-567 | every kind of frame of that table is found, behind any segments of the standard, with its big-endian width and height |
| Jpeg.FillBytes | src-tauri/src/bridge/inputs.rs:543-545 | n fill bytes before a marker: the walk goes on at the marker for even n and one byte into it for odd n |
| Jpeg.FrameBehindFill | src-tauri/src/bridge/inputs.rs:534-567 | after SOI and any segments, a frame header behind an even number of fill bytes is answered, and behind an odd number the walk goes on inside it |
| Jpeg.OddFillHidesTheFrame | src-tauri/src/bridge/inputs.rs:534-567 | an odd number of fill bytes hides every frame that has no 0xFF after its code: nothing is found at all |
| Jpeg.AnOddFillByteHidesTheFrame | src-tauri/src/bridge/inputs.rs:543-545 | so one fill byte does hide a frame |
| PendingPolicy.StandingGrantsAreDangerous | src-tauri/src/pending.rs:651-713 | every update a decision grants that outlives its request makes the decision dangerous |
| PendingPolicy.DangerousOnlyForStandingGrants | src-tauri/src/pending.rs:651-713 | and for an item not dangerous in itself only those do |
| PendingAnswers.ServerRules | src-tauri/src/pending.rs:713-735 | a rule that names an MCP server, or all of its tools, covers the whole server; one that names a tool of it does not |
| PendingAnswers.ToolRules | src-tauri/src/pending.rs:713-735 | a rule for a built-in tool covers all of its uses exactly when it has no content or only wildcards; one that names no tool, or any, covers everything |
| PendingAnswers.StandingExactly | src-tauri/src/pending.rs:675-708 | standing are exactly the updates written outside the session, to a mode that asks for nothing, that add directories, that allow a whole tool or server, and those that are no object |
| PendingAnswers.ASessionRuleStandsExactly | src-tauri/src/pending.rs:675-708 | one rule for a tool, kept for the session, stands exactly when it allows, and every use |
| PendingAnswers.DangerousExactly | src-tauri/src/pending.rs:656-669 | allowing is dangerous exactly for a dangerous item, a mode that asks for nothing, and a suggestion flagged as standing or that lasts |
| PendingAnswers.ValidExactly | src-tauri/src/pending.rs:498-535 | a decision is valid exactly when its suggestion exists, a mode is a known one for a plan, answers are for a question, and content is an object for an elicitation |
| PendingPolicy.PermissionResult | src-tauri/src/pending.rs:902-973 | the result carries exactly the granted updates, the verdict with its message, and the item's input, with the answers and nothing else changed; an elicitation's is its action and content |
| PendingStores.PendingHistory | src-tauri/src/pending.rs:241-416 | over every run: each registration leaves at most once, its raiser gets at most one decision and only a valid one, live and remembered ids stay apart, and what is remembered is exactly the last ids to finish, each with a resolution |
| PendingStores.RememberedExactly | src-tauri/src/pending.rs:241-252 | an id answers `AlreadyDecided`, and cannot be registered again, exactly while it is among the last 2048 to finish |
| PendingStores.StandingGrantsNeedTheRight | src-tauri/src/pending.rs:324-381 | in every run a decision whose result carries a standing update was delivered only from a caller with the dangerous right |
| PendingAnswers.LastingGrantsNeedTheRight | src-tauri/src/pending.rs:324-381 | the same with what lasts spelled out: written to settings, no more questions, more directories, a whole tool or server, or unreadable |
| PendingAnswers.GoesThroughExactly | src-tauri/src/pending.rs:324-381 | an answer goes through exactly when the item is live and answerable, the decision fits it, and the caller may grant what is dangerous in it |
| PendingAnswers.AnAnswerSays | src-tauri/src/pending.rs:324-381 | it then removes that item only, delivers exactly that decision if the raiser still waits, and is remembered with the outcome it stands for; a refused one changes nothing |
| PendingAnswers.AWithdrawalSays | src-tauri/src/pending.rs:390-401 | a withdrawal removes that item only, with the outcome given, and delivers nothing |
| PendingAnswers.ARegistrationSays | src-tauri/src/pending.rs:280-308 | the item is stored as it came, under its own id unless that is missing, live or remembered, dangerous if it was called or classified so, answerable unless only observed |
| PendingAnswers.AResolutionIsReplaced | src-tauri/src/pending.rs:411-416 | only a remembered id gets a new resolution, and no other one changes |
| PendingStores.StoringKeepsGrants | src-tauri/src/pending.rs:280-308 | registering changes nothing a result is built from and never lowers the danger |
| PendingStores.PendingStore.RegisterItem | src-tauri/src/pending.rs:280-308 | the item goes live under an id that is neither live nor remembered |
| PendingStores.PendingStore.Finish | src-tauri/src/pending.rs:241-252 | the loop forgets exactly the oldest ids beyond the cap, with their resolutions |
| PendingStores.PendingStore.ResolveItem | src-tauri/src/pending.rs:324-381 | the refusals in the code's order and without effect; otherwise the item leaves and its raiser, if it still waits, gets the decision |
| PendingStores.PendingStore.WithdrawItem | src-tauri/src/pending.rs:390-401 | a live item leaves without a decision |
| PendingStores.PendingStore.ReplaceResolution | src-tauri/src/pending.rs:411-416 | only a remembered id's resolution is replaced |
| Journals.IncrementalEqualsBatch | src-tauri/src/claude/agents.rs:187-236 | over every run of appends cut anywhere, replacements and truncations the reader can tell, files swapped between the stat and the opening, and reads that may fall short, a full read leaves the fold of all complete lines at once |
| Journals.TruncationRestarts | src-tauri/src/claude/agents.rs:187-236 | a file cut below the offset is read afresh by the next read |
| Journals.AMissedRewriteReadsOn | src-tauri/src/claude/agents.rs:187-236 | for any journal and any new content the reader cannot tell from the old: the next full read keeps every old agent and result and adds exactly what the lines after the offset say |
| Journals.AMissedRewriteIsRightExactly | src-tauri/src/claude/agents.rs:187-236 | part by part: that read is right exactly when the new file's agents are the old ones continued by those lines and its results the old ones and theirs; it is wrong as soon as the new file lacks an old agent or result |
| Journals.AtALineEndRightExactly | src-tauri/src/claude/agents.rs:187-236 | the condition on the content alone, when the offset still ends a line: exactly when the new content up to it says what the old one said, but for what later lines say again |
| Journals.AnAgreeingRewriteIsRight | src-tauri/src/claude/agents.rs:187-236 | it is right whenever the new file agrees with what was read |
| Journals.ARewriteInPlaceIsMissed | src-tauri/src/claude/agents.rs:187-236 | witness of a rewrite that is missed |
| Journals.LinesOfConcat | src-tauri/src/claude/agents.rs:187-236 | lines of a text cut at a line end |
| Journals.Journal.Advance | src-tauri/src/claude/agents.rs:187-236 | stat, restart on replacement or truncation, and the read loop compute the specified view |
| Journals.FoldKeepsAgentsDistinct | src-tauri/src/claude/agents.rs:187-236 | no agent starts twice, and at most 2000 are kept |
| JournalAnswers.StartedExactly | src-tauri/src/claude/agents.rs:222-228 | below the cap an agent is listed exactly when some line says that it started; a listed one has the title and phase of the first such line |
| JournalAnswers.ResultsExactly | src-tauri/src/claude/agents.rs:229-231 | an agent has its result exactly when some line says so |
| JournalAnswers.ANewFileIsReadAfresh | src-tauri/src/claude/agents.rs:187-197 | a file under another number is read afresh by the next read, whatever its size |
| Journals.CountAgents | src-tauri/src/claude/agents.rs:594-658 | running is started minus started-with-result for a running workflow, failed likewise for a failed one, done the rest |

## Left out

- HTTP routing, the desktop shell, the web app, the Messages API client, PTYs and git: plumbing or user interface.
- JSON, UUID and SHA-256 themselves, the real file system, key chains and processes: oracles as described above.
- The 64-bit sequence number of the log is unbounded here; its wrap-around is out of reach.
- The backup settings' storages, `note_account_uuid`, `note_hooks_plugin` and the backup mutators, which commit like the others.
- `project_account` and the variables of a child's environment: look-ups on the registry. Which directory or token a child gets is modelled.
- The registry's readers-writer lock: every change runs whole under the write lock, so each is one step. Only `remove` gives the lock up before it is done; the deletion of the secret is a step of its own, and harmless because ids are never used again: no later call can name the removed account.
- The wording of errors and logs; errors of one kind are one value.
- AccountRegistries.AccountRegistry.AddToken: assumes the new random id is unused; the code draws it without looking.
- PendingStores.PendingStore.RegisterItem: assumes the new random id is unused, and takes the classifier's verdict as given.
- PendingStores.PendingStore.WithdrawItem: takes the outcome that the free-text reason stands for as an argument.
- OperationRegistries.OperationRegistry.Create: assumes a new random operation id, and treats the two lock holds as one; the race between them is `ConcurrentCreators`.
- Operations.Operation.Emit: a global log that is never closed, as in the code.
- HostGenerations.GenerationsAreIsolated: the reader and reaper of a process are one task here.
- StoreLocks.ConfigDirIsIsolated: a store call made from inside another one's body before its first await is not modelled; no body does that.
- Turns.EveryClaimIsSettledOnce: one conversation; opening, resuming and the pending permission requests of a conversation are not part of this model.
- Journals.CountAgents: the agents' own records and the workflow phases, which the same loop builds.
- PNG, GIF and WebP headers, image sniffing and data URLs.
