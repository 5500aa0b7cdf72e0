# Player bootstrap and asset sync, verified

A Dafny model of two stateful parts of the merge game's project, with the algorithms around them.

**Player bootstrap** (`project/Server/runtime/main.go`). Game servers of different release versions share one
database. Every login loads the player's profile, creates it in a transaction if there is none (drawing a player id
from a row-locked sequence that starts at the number of accounts), passes a version gate, updates the account, writes
a storage mirror, grants the welcome wallet and notifies; a profile request reads the same rows through the same gate.
`Bootstrap` is this protocol as a state machine: any number of handlers, interleaved at every statement and outside
call, where each call may work, fail, or take effect and yet report failure, and where a handler may die at any point.
`BootstrapInvariant` and `BootstrapProofs` hold the invariant; `BootstrapTheorems`, `BootstrapGrants`,
`BootstrapVersions`, `BootstrapRefusals`, `BootstrapMirror` and `BootstrapNames` what follows for every run,
`BootstrapSerial` what follows when handlers for one user do not overlap; and `BootstrapExamples` concrete runs for
three things the protocol does not promise. `BootstrapAlone` states what a login does when it runs by itself, for
calls that work and calls that do not; `BootstrapServer` has the server's own functions as methods on a shared
database object, each proved to do what the protocol's handler does when it runs by itself, up to its end or to a
statement that waits for another login's transaction; `ExecuteIsARun` makes that a run of the protocol.

**Asset sync** (`project/Assets/Scripts/Editor`, `project/Assets/Editor`). Addressables groups mirror the child
folders of a remote root, and sprite atlases those of a source root. `GroupSpec`/`AtlasSpec` say what groups and
atlases should be, and specify both the full rebuild and the incremental sync as functions; `GroupTheorems` (and
the theorems in `AtlasSpec`) prove that the incremental sync agrees with the rebuild. `GroupBuilder` and
`AtlasBuilder` are the loops that change settings and assets in place, proved against those functions. `Pipeline`
is the whole editor: edits of files, edits of groups and atlases by hand, full rebuilds from the menu, the loss of
collected paths, reports on their way, two watchers, the delayed sync in its phases (both phases write assets that are
reported while the sync still runs) and the prefab fix-up. `PipelineTheorems` proves by a dirty-set invariant that
whatever is neither covered by outstanding work nor loose (changed by hand or lost sight of) is in sync, over every run;
`PipelineHistory` tells from the events what became of one atlas; `PipelineTermination` that the cascade comes to rest,
and exactly when it rests in the state a full rebuild would give; `PipelineProgress` that it never gets stuck before.
`AutoSync` has the two watchers as they run.

**Supporting algorithms.** `AtlasBudget`: the overflow warning as a packing bound, and `AtlasPacking` what it misses.
`ExceptionSearch`: finding a server error in a tree of exceptions, and `ExceptionOrder` which one is found.
`CustomId`: sanitising a user name. `PlayerId`: the seven-digit id text. `ConfigTable`: reading the configuration by
scan and by index. `DowngradeCode`: the code server and client share. `AssetPaths` and `Text`: paths and strings.

**Spelled out.** What the code decides by its own helpers (filters, name patterns, number texts, path segments) is
stated in the contracts apart from them, on characters and literal texts: `Spelling` for characters and names,
`GroupContents` and `AtlasContents` for what groups and atlases hold, `FolderLevels` and `PathPlaces` for paths,
`WatchedTexts` for what the watchers take.

What turned out false of the code is stated by an example, and beside it exactly when it holds:

- The stored version can drop (`VersionCanDrop`); it does exactly when a store follows a store of a higher version
  (`VersionDropsExactlyWhen`), and then there was a stale read (`DecreaseHasStaleRead`).
- The welcome grant can be lost for good (`GrantCanBeLostForGood`); a user has it exactly when, for the handler that
  created the row, commit, account update and mirror write were reported as done and the handler lived to issue it
  (`GrantedExactlyWhen`, and on the calls of one login `FirstLoginExactly`).
- A refused login can rename (`RefusedLoginCanRename`); it does exactly when it loaded another name
  (`RefusedLoginRenamesExactlyWhen`), and nothing else (`RefusalLeavesNoTrace`).
- An accepted user name may have no custom id, and different names may share one (`AcceptedNameWithoutId`,
  `DistinctNamesShareId`); exactly which is `SameAccount`.
- Different assets may share an address (`AddressesCanClash`); exactly when is `AddressesAgreeExactlyWhen` and, for a
  folder, `AddressesAreDistinctExactlyWhen`.
- Atlases and groups changed by hand are not repaired by their own reports (`RemovedAtlasStaysMissing`); exactly what
  a sync puts right is `AtlasInSyncExactlyWhen` and `GroupInSyncExactlyWhen`, exactly when the editor rests in the
  rebuilt state `QuiescentIsRebuiltExactlyWhen`, and what became of one atlas, told from the events since,
  `AtlasAtRestExactlyWhen`. The same goes for what a script reload or a sync that throws loses of the collected paths.
- A nested downgrade error can be passed over (`MixedCodesCanHideDowngrade`); the error found is the first in the order
  of `ExceptionOrder` (`SearchFindsFirst`), and the message goes by that one (`DowngradeToldExactlyWhen`).
- Scan and index of the configuration can part (`RepeatedKeyDisagrees`); exactly when is `ScanAgreesExactlyWhen`.
- From ten million on, the order of id texts is not that of ids (`FormatOrderExactlyBelow`).
- Sprites that draw no warning may not fit (`WarningIsIncomplete`). For any number of sprites `WarningDecides` says
  when the figures of the warning do decide: none fit where it is given, and all fit where the figures leave room for a
  grid or for shelves. Exactly when sprites fit is `EqualSpritesFitExactlyWhen` for sprites of one size,
  `OneSpriteFitsExactlyWhen` and `TwoSpritesFitExactlyWhen`.
- The storage mirror can be ahead of the row; exactly when is `MirrorAheadExactlyWhen`.

`dafny verify dfyconfig.toml` checks the project.

## Model

| member | source | states |
|---|---|---|
| BootstrapProofs.RunKeepsInv | project/Server/runtime/main.go:155-288 | every state reached by interleaved logins and profile requests, with failing calls and dying handlers, satisfies the protocol invariant |
| BootstrapTheorems.IdsAreContiguous | project/Server/runtime/main.go:335-362 | committed player ids are pairwise distinct and fill the range from the seeded count to the counter, so the counter counts the profiles, although transactions roll back |
| BootstrapTheorems.OnlyTheUserKeyRejects | project/Server/runtime/main.go:296-300 | the unique constraint on player ids never fires; an insert is rejected exactly when the user has a row |
| BootstrapTheorems.IdsAreStable | project/Server/runtime/main.go:353-369 | a committed row stays, with the same id, through every later event |
| BootstrapTheorems.IdTextNeverChanges | project/Server/runtime/main.go:364-369 | the id text in the hand of the handler that created the row is the one every later load of that user shows |
| BootstrapTheorems.MirrorShowsTheRowsId | project/Server/runtime/main.go:181-195 | in every interleaving a stored mirror belongs to a row and shows that row's id as text |
| BootstrapNames.StoredNamesAreGood | project/Server/runtime/main.go:161-164 | over every run every user name in rows, accounts and mirrors has 3 to 24 characters, all letters, digits, underscores or hyphens |
| BootstrapNames.AnswersAreKnownInRuns | project/Server/runtime/main.go:155-264 | over every run a login with a user ends with code 3 exactly when its trimmed name is none, and otherwise handlers end with codes 13, 9 and, for requests, 5 |
| BootstrapNames.TurnedAwayChangesNothing | project/Server/runtime/main.go:161-164 | a login under no name is turned away with code 3 and changes nothing |
| DowngradeCode.OnlyRefusalIsTold | project/Server/runtime/error_code.go:3-5 | the client tells an answer of the server apart as a downgrade exactly when its code is the one a refused login ends with, 9 |
| BootstrapTheorems.NoDeadlock | project/Server/runtime/main.go:335-349 | while some handler is active, some active handler is not waiting for the sequence row and moves on |
| BootstrapTheorems.GrantAtMostOnce | project/Server/runtime/main.go:205-217 | at most one wallet grant per user is issued over the whole run, and none without a row |
| BootstrapTheorems.SuccessfulLoginGrants | project/Server/runtime/main.go:205-239 | a login that succeeded issued exactly one grant if it created the profile, and none otherwise |
| BootstrapTheorems.MissedGrantIsNeverMade | project/Server/runtime/main.go:205-217 | when the creating handler ended without the grant, no later event of any handler issues it |
| BootstrapGrants.GrantedExactlyWhen | project/Server/runtime/main.go:166-217 | in every state of every run, a user with a row has the grant exactly when for the creating handler commit, account update and mirror write were reported as done, it did not die right then and is not just about to issue it |
| BootstrapGrants.GrantIsDecided | project/Server/runtime/main.go:205-217 | once the creating handler has ended, those calls decide for every continuation whether the user has the grant |
| BootstrapAlone.FirstLoginExactly | project/Server/runtime/main.go:329-362 | for a first login by itself and any outcomes of its calls: a row exactly when the transaction worked and the commit was not lost; given the row, a grant issued exactly when commit, account and mirror calls worked, and in effect exactly when the wallet call was not lost |
| BootstrapTheorems.RefusalLeavesNoTrace | project/Server/runtime/main.go:172-174 | each step of a handler that ends refused for its version changes nothing, except that a login at the rename statement rewrites its own user's username column; a profile request changes nothing at all |
| BootstrapRefusals.RefusedLoginRenamesExactlyWhen | project/Server/runtime/main.go:319-325 | under any interleaving a login refused for its version has renamed exactly when the row it loaded held another name |
| BootstrapVersions.OnlyStoresMoveVersions | project/Server/runtime/main.go:421-428 | an existing row's version moves only when a handler for that user stores its own version |
| BootstrapVersions.HeldVersionWasRead | project/Server/runtime/main.go:396-419 | the version a handler decides by is one it read from the row earlier in the run |
| BootstrapVersions.RefusalIsFounded | project/Server/runtime/main.go:372-381 | under any interleaving a refused handler did read a version above its own |
| BootstrapVersions.DecreaseHasStaleRead | project/Server/runtime/main.go:383-392 | if an event lowers a stored version, it is a store by a handler that read a version below its own, and after that read another handler stored the version now overwritten, the last store in between |
| BootstrapVersions.VersionDropsExactlyWhen | project/Server/runtime/main.go:372-394 | an event lowers a stored version exactly when it is a store and the last store for that user before it was of a higher version |
| BootstrapVersions.StoredVersionWasWritten | project/Server/runtime/main.go:353-356 | every stored version was written, by the commit or by a store, by a handler of that version, and by none since |
| BootstrapSerial.VersionNeverDrops | project/Server/runtime/main.go:372-394 | without overlapping handlers for a user, that user's version never goes down |
| BootstrapSerial.UniformServersNeverLower | project/Server/runtime/main.go:372-394 | while all servers run one version not below the stored one, overlap included, it never goes down |
| BootstrapSerial.GateDecidesByStoredVersion | project/Server/runtime/main.go:373-385 | without overlap the gate refuses exactly the servers below the version stored at that moment |
| BootstrapSerial.StoredVersionIsTheMaximum | project/Server/runtime/main.go:372-394 | without overlap the stored version is the greatest of all versions ever written to the row or ever let through the gate, whatever became of their handlers, and it was written by a handler of that version |
| BootstrapSerial.LowerServersAreRefused | project/Server/runtime/main.go:373-381 | once a server has let a user in, the gate refuses every lower server for that user with code 9, and that step changes nothing |
| BootstrapSerial.MirrorNeverAhead | project/Server/runtime/main.go:181-199 | without overlap the mirrored version is never above the row's |
| BootstrapMirror.MirrorWasWritten | project/Server/runtime/main.go:186-195 | in every interleaving a mirror is the profile of the last handler that wrote it |
| BootstrapMirror.MirrorAheadExactlyWhen | project/Server/runtime/main.go:181-199 | in every interleaving the mirrored version was in the row at some point, and it is above the row's exactly when the last store since then was of a version below it |
| BootstrapSerial.MirrorIsTheRowAfterLogin | project/Server/runtime/main.go:172-239 | without overlap, when a login succeeds mirror and row agree in every field, and row and account carry the name given |
| BootstrapExamples.FirstLoginCommits | project/Server/runtime/main.go:329-369 | a concrete first login commits the seeded sequence and the expected row |
| BootstrapExamples.VersionCanDrop | project/Server/runtime/main.go:372-392 | a reachable state in which an event lowers the stored version |
| BootstrapExamples.RefusedLoginCanRename | project/Server/runtime/main.go:319-325 | a reachable state in which a refused login has changed the username |
| BootstrapExamples.GrantCanBeLostForGood | project/Server/runtime/main.go:166-217 | after a death between commit and grant, no continuation of the run brings the grant |
| BootstrapAlone.ExecuteIsARun | project/Server/runtime/main.go:155-288 | a handler running by itself from a reachable state is a run of the protocol |
| BootstrapAlone.FirstLoginAlone | project/Server/runtime/main.go:329-369 | a first login with all calls working creates one row with the next id, advances the sequence to it, mirrors it, updates the account, grants once and succeeds |
| BootstrapAlone.ReturningLogin | project/Server/runtime/main.go:166-239 | a returning login with all calls working is refused for a lower version after the rename alone, and otherwise leaves the row, account and mirror renamed, raised to its version and equal |
| BootstrapServer.Database.InsertSequence | project/Server/runtime/main.go:335-341 | seeds the sequence with the number of accounts inside the transaction, only if there is none; waits while another transaction has seeded it and not committed |
| BootstrapServer.Database.DrawNext | project/Server/runtime/main.go:343-351 | adds one to the sequence under the row lock and returns the new value; waits while another transaction holds the row, fails when there is none |
| BootstrapServer.Database.InsertProfile | project/Server/runtime/main.go:353-358 | inserts the row tentatively, exactly when neither key is taken |
| BootstrapServer.Database.CommitProfile | project/Server/runtime/main.go:360-362 | makes sequence and row visible together and releases the lock, or neither |
| BootstrapServer.GameServer.LoadPlayerProfile | project/Server/runtime/main.go:396-419 | returns the user's row as a profile, nothing when there is none, or an error |
| BootstrapServer.GameServer.EnsurePlayerProfile | project/Server/runtime/main.go:314-370 | takes database and handler through load, rename or creation as the protocol does, or to the statement that waits for another login, and leaves no lock of its own behind |
| BootstrapServer.GameServer.EnsurePlayerServerVersion | project/Server/runtime/main.go:372-394 | answers 9 exactly for a stored version above its own, 13 exactly when the store it needs fails, and otherwise raises the version; as the protocol does |
| BootstrapServer.GameServer.AfterAuthenticateCustom | project/Server/runtime/main.go:155-240 | the login hook ends with the database and the result of the protocol's login handler, for every outcome of every call, or waits where that waits; it answers 3 exactly when what is left between white space is not 3 to 24 letters, digits, underscores or hyphens, and then changes nothing; for a user with a row its answer is stated outright for every outcome |
| BootstrapServer.GameServer.GetPlayerProfile | project/Server/runtime/main.go:242-288 | the profile request ends with the database, result and profile of the protocol's handler; its answer is stated outright: 5 exactly without a row, 9 exactly for a stored version above, neither changing anything, and on success the row's id text, name and this server's version |
| PlayerId.FormatRoundTrip | project/Server/runtime/main.go:364-369 | the padded text of an id consists of digits and denotes the id |
| PlayerId.FormatInjective | project/Server/runtime/main.go:413-418 | different ids have different texts |
| PlayerId.FormatLength | project/Server/runtime/main.go:366 | texts have at least seven places, exactly seven below ten million, and no padding above |
| PlayerId.DigitAt | project/Server/runtime/main.go:366 | every digit of an id's text is the quotient by its power of ten, modulo ten |
| PlayerId.FormatOrder | project/Server/runtime/main.go:415 | below ten million the order of texts is the order of ids |
| PlayerId.FormatOrderExactlyBelow | project/Server/runtime/main.go:415 | the order of texts is the order of ids below a bound exactly when the bound is at most ten million |
| ConfigTable.GetGlobalConfigInt64 | project/Server/runtime/main.go:127-153 | the scanning loop returns n exactly when the first row with the key has a text that writes n (a sign or none, zeros, decimal digits) and n fits 64 bits, and otherwise the default |
| ConfigTable.ParseInt64Exactly | project/Server/runtime/main.go:144-147 | a number is read from exactly the texts that write it, if it fits 64 bits |
| ConfigTable.EveryInt64IsRead | project/Server/runtime/main.go:144-147 | the decimal text of a number, with or without sign, is read as that number when it fits and as none when it does not |
| ConfigTable.OtherTextsAreNotRead | project/Server/runtime/main.go:144-147 | nothing is read from an empty text, a sign alone, or a text with a character that is no digit |
| ConfigTable.NewGlobalTbconfig | project/Server/Gen/LubanGoJson/global.Tbconfig.go:18-31 | the table is built exactly when every row has a text under "key" and one under "value"; the list has those texts in order, the index the last entry of each key |
| ConfigTable.DistinctKeysAgree | project/Server/Gen/LubanGoJson/global.Tbconfig.go:41-43 | for an accepted table with distinct keys, scan and index give the same number for every key and default |
| ConfigTable.ScanAgreesExactlyWhen | project/Server/runtime/main.go:133-152 | the readers agree on a key for every default exactly when the texts of the key's first and last row parse alike |
| ConfigTable.MissingKeyAgrees | project/Server/runtime/main.go:133-152 | on a key that no row has both readers give the default |
| ConfigTable.RepeatedKeyDisagrees | project/Server/Gen/LubanGoJson/global.Tbconfig.go:26-27 | a repeated key for which the scan follows the first row and the index the last |
| CustomId.BuildCustomId | project/Assets/Scripts/Model/NakamaModel.cs:115-135 | the in-place loop computes the custom id: the prefix "user-" and the name without white space, capitals made small, every other unusable character a hyphen, outer hyphens stripped; none when fewer than three characters remain |
| CustomId.NormalFormIsFixedPoint | project/Assets/Scripts/Model/NakamaModel.cs:117-132 | a body is in normal form (id characters only, at least three, no outer hyphen, lower case) exactly when sanitising leaves it as it is |
| CustomId.CustomIdIsNormal | project/Assets/Scripts/Model/NakamaModel.cs:128-134 | every id handed out is the prefix and a body in normal form |
| CustomId.SameAccount | project/Server/runtime/main.go:28 | names the server accepts have an id exactly when three characters remain, and share it exactly when they agree in lower case without outer hyphens |
| CustomId.AcceptedNameWithoutId | project/Assets/Scripts/Model/NakamaModel.cs:129-132 | a name the server accepts and the client refuses |
| CustomId.DistinctNamesShareId | project/Assets/Scripts/Model/NakamaModel.cs:128 | two different accepted names with one id |
| ExceptionSearch.FlattenKeeps | project/Assets/Scripts/Model/NakamaModel.cs:167 | flattening by a queue keeps every reachable server error, leaves no aggregate and gets strictly smaller |
| ExceptionSearch.SearchIsComplete | project/Assets/Scripts/Model/NakamaModel.cs:151-183 | the search succeeds exactly when a server error is reachable through inner links, and returns one of those |
| ExceptionOrder.SearchFindsFirst | project/Assets/Scripts/Model/NakamaModel.cs:151-183 | the search returns the first server error by levels of nested aggregates, outer levels first and left to right within a level |
| ExceptionOrder.OrderIsComplete | project/Assets/Scripts/Model/NakamaModel.cs:165-181 | that order has every reachable server error and nothing else |
| ExceptionOrder.FlattenIsByLevels | project/Assets/Scripts/Model/NakamaModel.cs:167 | flattening by a queue yields the errors level by level |
| ExceptionOrder.DowngradeToldExactlyWhen | project/Assets/Scripts/Model/NakamaModel.cs:137-143 | the downgrade message appears exactly when the first server error in that order has code 9 |
| ExceptionOrder.MessageFollowsTheCode | project/Assets/Scripts/Model/NakamaModel.cs:137-143 | when all server errors of a tree have one code, the downgrade message appears exactly for code 9 |
| ExceptionOrder.MixedCodesCanHideDowngrade | project/Assets/Scripts/Model/NakamaModel.cs:165-175 | with mixed codes a nested downgrade error can be passed over |
| AtlasBudget.WarnIfAtlasMayOverflow | project/Assets/Scripts/Editor/SpriteAtlasAutoBuilder.cs:260-302 | the accumulating loop warns exactly when the loaded sprites exceed 4194304 pixels in total or one exceeds 2048 in width or height, and where it warns no arrangement of them fits |
| AtlasBudget.CoveredCount | project/Assets/Scripts/Editor/SpriteAtlasAutoBuilder.cs:285-287 | sprites that do not overlap cover as many cells as their total area |
| AtlasBudget.WarningIsSound | project/Assets/Scripts/Editor/SpriteAtlasAutoBuilder.cs:290-296 | if the warning is due, no placement of the sprites without rotation or overlap fits 2048 by 2048 |
| AtlasBudget.WarningIsIncomplete | project/Assets/Scripts/Editor/SpriteAtlasAutoBuilder.cs:291-294 | sprites that draw no warning and yet fit in no way |
| AtlasPacking.WarningDecides | project/Assets/Scripts/Editor/SpriteAtlasAutoBuilder.cs:268-294 | for any number of sprites: where the warning is due no arrangement fits, and where sprite count, largest width and height, and total area leave room for a grid or for shelves, it is not due and an arrangement fits |
| AtlasPacking.GridFits | project/Assets/Scripts/Editor/SpriteAtlasAutoBuilder.cs:285-287 | sprites no larger than w by h fit when there are no more of them than the grid of w by h has places |
| AtlasPacking.ShelvesFit | project/Assets/Scripts/Editor/SpriteAtlasAutoBuilder.cs:285-287 | sprites fit when their total area is at most that of the square less a strip of the largest width and one of the largest height |
| AtlasPacking.EqualSpritesFitExactlyWhen | project/Assets/Scripts/Editor/SpriteAtlasAutoBuilder.cs:290-294 | any number of sprites of one size fit exactly when there are no more of them than grid places |
| AtlasPacking.OneSpriteFitsExactlyWhen | project/Assets/Scripts/Editor/SpriteAtlasAutoBuilder.cs:290-296 | a single sprite fits exactly when it draws no warning |
| AtlasPacking.TwoSpritesFitExactlyWhen | project/Assets/Scripts/Editor/SpriteAtlasAutoBuilder.cs:290-296 | two sprites fit exactly when each does and they fit side by side or one above the other, or one is empty |
| AssetPaths.UnderIsManaged | project/Assets/Scripts/Editor/AddressablesGroupBuilder.cs:192-218 | a path at or below a child folder of a root is attributed to exactly that child folder |
| PathPlaces.AttributedExactlyWhen | project/Assets/Scripts/Editor/AddressablesGroupBuilder.cs:192-218 | a path is attributed to a folder exactly when its text, slashes turned forward, starts with the root in any letter case and has that name as first segment behind it; a blank path is attributed to none, and a blank name only when more follows it |
| GroupContents.ConcernedIsAttributed | project/Assets/Scripts/Editor/AddressablesGroupBuilder.cs:41-52 | every path that is a child folder of the remote root or lies in it is attributed to that folder |
| PathPlaces.AttributedOnlyTo | project/Assets/Scripts/Editor/AddressablesGroupBuilder.cs:192-218 | a path is attributed only to the first segment behind the root of its own text |
| AssetPaths.FoldersToSync | project/Assets/Scripts/Editor/AddressablesGroupBuilder.cs:50-54 | the distinct child folders behind changed paths: each once, none missing, no others |
| AssetPaths.RootsAreApart | project/Assets/Scripts/Editor/AddressablesGroupBuilder.cs:36-39 | no path is both a remote asset and an atlas source |
| AssetPaths.OutputTriggersNoAtlasSync | project/Assets/Scripts/Editor/SpriteAtlasAutoBuilder.cs:25-26 | atlas output is seen by the group sync and by neither the atlas sync nor the prefab check |
| AssetPaths.SettingsAreUnwatched | project/Assets/Scripts/Editor/AddressablesGroupBuilder.cs:66-67 | the group settings that a group sync saves are seen by no watcher |
| GroupSpec.EntriesAreTheAssets | project/Assets/Scripts/Editor/AddressablesGroupBuilder.cs:268-303 | a folder's entries are its listed assets by guid, each under its address |
| GroupContents.ListedSpelled | project/Assets/Scripts/Editor/AddressablesGroupBuilder.cs:276-298 | an asset is listed exactly when it has a guid, is no folder, is not the login prefab in any letter case, has no file name starting with a dot and does not end in .cs or .meta in any letter case |
| GroupContents.InSyncHoldsExactly | project/Assets/Scripts/Editor/AddressablesGroupBuilder.cs:109-137 | a group in sync has an entry for exactly those assets, each at folder name, file name without extension, and suffix |
| GroupTheorems.SyncSomeStep | project/Assets/Scripts/Editor/AddressablesGroupBuilder.cs:61-64 | syncing folders one after another, existing or gone, in any order, is syncing them as a set |
| GroupTheorems.IncrementalEqualsRebuild | project/Assets/Scripts/Editor/AddressablesGroupBuilder.cs:41-68 | when all other folders are in sync, syncing the changed ones gives what a full rebuild would, in every group |
| GroupTheorems.CleanFoldersStayInSync | project/Assets/Scripts/Editor/AddressablesGroupBuilder.cs:88-137 | a folder in sync stays in sync while others are synced and entries move between groups |
| GroupTheorems.SyncedFoldersAreInSync | project/Assets/Scripts/Editor/AddressablesGroupBuilder.cs:88-107 | a synced folder has its group with exactly its entries, or no group when the folder is gone |
| GroupTheorems.InSyncAfterExactlyWhen | project/Assets/Scripts/Editor/AddressablesGroupBuilder.cs:61-66 | after a sync exactly the folders synced, gone, or right before but for claimed guids are in sync |
| GroupTheorems.SyncKeepsGuidsUnique | project/Assets/Scripts/Editor/AddressablesGroupBuilder.cs:114-136 | every sync keeps each guid in at most one group |
| GroupTheorems.RebuildDependsOnFilesAlone | project/Assets/Scripts/Editor/AddressablesGroupBuilder.cs:17-34 | managed groups after a rebuild are a function of the files, whatever the groups before |
| GroupTheorems.UnmanagedOnlyLosesClaims | project/Assets/Scripts/Editor/AddressablesGroupBuilder.cs:123-124 | an unmanaged group survives and loses exactly the guids that synced folders claim |
| GroupTheorems.RebuildIsFixedPoint | project/Assets/Scripts/Editor/AddressablesGroupBuilder.cs:17-34 | a rebuild changes nothing exactly when every folder is in sync and no managed group lacks a folder |
| GroupTheorems.RebuildIsIdempotent | project/Assets/Scripts/Editor/AddressablesGroupBuilder.cs:17-34 | rebuilding twice is rebuilding once |
| GroupTheorems.AddressesCanClash | project/Assets/Scripts/Editor/AddressablesGroupBuilder.cs:300-304 | assets of one folder that differ only in extension or only in subfolder get one address |
| GroupTheorems.AddressesAgreeExactlyWhen | project/Assets/Scripts/Editor/AddressablesGroupBuilder.cs:300-304 | two addresses are equal exactly when folder and file name without extension are |
| GroupTheorems.AddressesAreDistinctExactlyWhen | project/Assets/Scripts/Editor/AddressablesGroupBuilder.cs:300-304 | a folder's addresses are distinct exactly when the file names without extension of its listed assets are |
| GroupBuilder.SyncGroupEntries | project/Assets/Scripts/Editor/AddressablesGroupBuilder.cs:109-137 | the two loops leave the group with exactly the folder's entries, and those guids in no other group |
| GroupBuilder.SyncSingleFolder | project/Assets/Scripts/Editor/AddressablesGroupBuilder.cs:88-107 | syncs an existing folder's group and removes a missing folder's |
| GroupBuilder.RemoveUnusedGroups | project/Assets/Scripts/Editor/AddressablesGroupBuilder.cs:139-154 | removes exactly the managed groups that no folder stands behind |
| GroupBuilder.SyncFolderGroups | project/Assets/Scripts/Editor/AddressablesGroupBuilder.cs:17-34 | the full sync as it runs is the rebuild, whatever the order of child folders: every folder's group holds exactly the assets that get an entry, and no other group has the prefix in any letter case |
| GroupBuilder.SyncChangedPaths | project/Assets/Scripts/Editor/AddressablesGroupBuilder.cs:41-68 | the incremental sync as it runs is the specified one: the group of every folder a path is attributed to holds exactly the assets that get an entry, or is gone with the folder, and no group is left without a folder; when no path is attributed to any, nothing changes |
| AtlasSpec.IncrementalEqualsRebuild | project/Assets/Scripts/Editor/SpriteAtlasAutoBuilder.cs:64-111 | when all other source folders are in sync, syncing the changed ones gives what syncing all would |
| AtlasSpec.InSyncAfterExactlyWhen | project/Assets/Scripts/Editor/SpriteAtlasAutoBuilder.cs:86-108 | after a sync exactly the source folders synced, gone, or in sync before are in sync |
| AtlasSpec.RebuildIsFixedPoint | project/Assets/Scripts/Editor/SpriteAtlasAutoBuilder.cs:32-57 | a full sync changes nothing exactly when there is one atlas per source folder, packing just it, and no other |
| AtlasSpec.RebuildDependsOnSourceAlone | project/Assets/Scripts/Editor/SpriteAtlasAutoBuilder.cs:32-57 | a full sync gives one atlas per source folder whatever was there before |
| AtlasSpec.SyncSomeStep | project/Assets/Scripts/Editor/SpriteAtlasAutoBuilder.cs:86-106 | syncing source folders one after another is syncing them as a set |
| AtlasBuilder.EnsureFolder | project/Assets/Scripts/Editor/SpriteAtlasAutoBuilder.cs:304-318 | the loop makes a folder of the path and of every cut of it before a later slash, parents first and one segment at a time, and nothing else |
| FolderLevels.JoinSplit | project/Assets/Scripts/Editor/SpriteAtlasAutoBuilder.cs:306-310 | joining a path's segments gives the path back |
| FolderLevels.PrefixesAreLevels | project/Assets/Scripts/Editor/SpriteAtlasAutoBuilder.cs:306-317 | the folders made from a path's segments are exactly its cuts before later slashes and the path itself |
| AtlasBuilder.SyncFolder | project/Assets/Scripts/Editor/SpriteAtlasAutoBuilder.cs:113-150 | creates or refreshes one atlas so that it packs just its folder, with rotation and tight packing off |
| AtlasBuilder.RemoveUnusedAtlases | project/Assets/Scripts/Editor/SpriteAtlasAutoBuilder.cs:174-195 | deletes exactly the atlases that no source folder stands behind |
| AtlasBuilder.SyncAll | project/Assets/Scripts/Editor/SpriteAtlasAutoBuilder.cs:32-57 | the full atlas sync as it runs is the rebuild: every source folder has its atlas, packing just it, without rotation and tight packing, there is no other, and the output folder and the remote root above it exist |
| AtlasBuilder.SyncChangedPaths | project/Assets/Scripts/Editor/SpriteAtlasAutoBuilder.cs:64-111 | the incremental atlas sync as it runs is the specified one: every source folder a path is attributed to has its atlas, or has none when gone, and no atlas is left without a folder; when no path is attributed to any, nothing changes |
| PipelineTheorems.StepKeepsInv | project/Assets/Scripts/Editor/AddressablesGroupAutoSync.cs:8-54 | every edit, also of groups and atlases by hand, every menu rebuild, loss of collected paths, delivery, phase of the delayed sync and prefab fix-up keeps: what is neither covered by outstanding work nor loose is in sync |
| PipelineTheorems.RunKeepsInv | project/Assets/Scripts/Editor/AddressablesGroupAutoSync.cs:29-54 | the same over every run, with deliveries, edits, rebuilds and losses in the middle of a sync |
| PipelineTheorems.SyncAtlasesKeepsInv | project/Assets/Scripts/Editor/AddressablesGroupAutoSync.cs:50-52 | atlases written in the middle of a sync are on their way to the watcher when the phase ends |
| PipelineTheorems.AtlasInSyncExactlyWhen | project/Assets/Scripts/Editor/SpriteAtlasAutoBuilder.cs:64-111 | after a sync for some paths an atlas is right exactly when the paths concern its folder, it was right before, or the folder is gone and the paths concern any |
| PipelineTheorems.GroupInSyncExactlyWhen | project/Assets/Scripts/Editor/AddressablesGroupBuilder.cs:41-68 | after a sync for some paths a group is right exactly when the paths concern its folder, the folder is gone and the paths concern any, or it was right before save for claimed guids |
| PipelineTheorems.QuiescentIsRebuiltExactlyWhen | project/Assets/Scripts/Editor/AddressablesGroupAutoSync.cs:48-54 | with nothing outstanding only prefabs whose paths were lost are bare, and groups and atlases are fixed points of the full rebuild exactly when the loose ones are right; with none loose, always |
| PipelineTheorems.DrainedRunIsRebuiltExactlyWhen | project/Assets/Scripts/Editor/AddressablesGroupBuilder.cs:41-68 | every run that ends drained ends in the state of a full rebuild, exactly under that condition |
| PipelineTheorems.SettledAtlasesAreAddressable | project/Assets/Scripts/Editor/SpriteAtlasAutoBuilder.cs:121-149 | at rest every source folder has its atlas, and the atlas an address made from the folder's name, unless that atlas or the atlas group is loose |
| PipelineTermination.StepIsBelow | project/Assets/Scripts/Editor/AddressablesGroupAutoSync.cs:36-54 | every step of the pipeline itself, the reports of what it writes included, goes down in a lexicographic order of bare prefabs, atlas syncs due, group syncs due and tasks |
| PipelineTermination.OutputIsNoSource | project/Assets/Scripts/Editor/SpriteAtlasAutoBuilder.cs:230-252 | no watched path that a sync writes is attributed to a source folder |
| PipelineTermination.SettingsCallForNothing | project/Assets/Scripts/Editor/AddressablesGroupAutoSync.cs:44-53 | reports of saved group settings leave nothing to collect for either watcher |
| PipelineTermination.EventuallyRebuilt | project/Assets/Scripts/Editor/AddressablesGroupAutoSync.cs:44-54 | without further events from outside the cascade comes to rest, having changed no source and no remote folder but the atlas output; it rests in the state of a full rebuild exactly when what is still loose by then is right |
| PipelineTermination.EveryHistorySettles | project/Assets/Scripts/Editor/AddressablesGroupAutoSync.cs:8-54 | after a full rebuild, any history of edits, also by hand, rebuilds, losses, deliveries and syncs, once left alone, comes to rest as in the row above; with nothing changed by hand or lost, always in the state of a full rebuild of the files it left, with no prefab bare |
| PipelineTermination.PrefabsAreSavedOnce | project/Assets/Editor/AddressablePrefabMonoItemImporter.cs:68-115 | between two edits every prefab is written by at most one prefab fix-up |
| PipelineHistory.LooseRun | project/Assets/Scripts/Editor/SpriteAtlasAutoBuilder.cs:64-111 | an atlas that got loose stays so, and stays as it is, until a sync concerns its folder, any sync finds the folder gone, or a full sync is run |
| PipelineHistory.AtlasAtRestExactlyWhen | project/Assets/Scripts/Editor/SpriteAtlasAutoBuilder.cs:64-111 | at rest an atlas is right exactly when it was not loose at a point after its last change by hand or loss, an event since repaired it, or what was there at that point is what its source folder calls for |
| PipelineProgress.RestsOnlyWhenDone | project/Assets/Scripts/Editor/AddressablesGroupAutoSync.cs:44-54 | the pipeline is at rest exactly when none of its own steps can be taken |
| PipelineProgress.RemovedAtlasStaysMissing | project/Assets/Scripts/Editor/SpriteAtlasAutoBuilder.cs:71-80 | the report of an atlas removed by hand, from a source folder that exists, does not bring it back |
| PipelineProgress.RemovedAtlasComesBack | project/Assets/Scripts/Editor/SpriteAtlasAutoBuilder.cs:86-108 | a sync that concerns the source folder brings it back, and so does a full sync |
| AutoSync.ConcernsIff | project/Assets/Scripts/Editor/AddressablesGroupAutoSync.cs:14-27 | a callback gets past the early return exactly when it has a path to collect |
| AutoSync.AddressablesGroupAutoSync.OnPostprocessAllAssets | project/Assets/Scripts/Editor/AddressablesGroupAutoSync.cs:8-46 | the loop adds exactly the imported, deleted, moved and moved-from paths that start, in any letter case, with the remote or the source root, and registers the delayed call exactly when there are some |
| AutoSync.AddressablesGroupAutoSync.DelayedSync | project/Assets/Scripts/Editor/AddressablesGroupAutoSync.cs:48-54 | the delayed call, undisturbed, takes what was collected, clears it, and is the pipeline's three phases in a row |
| AutoSync.LackingIsBare | project/Assets/Editor/AddressablePrefabMonoItemImporter.cs:74-77 | the prefabs written for a list of paths are the bare ones among them, each once |
| AutoSync.PrefabDatabase.EnsureMonoItem | project/Assets/Editor/AddressablePrefabMonoItemImporter.cs:96-123 | writes a prefab exactly when it exists without the component |
| AutoSync.AddressablePrefabMonoItemImporter.AddPendingPrefabPaths | project/Assets/Editor/AddressablePrefabMonoItemImporter.cs:57-66 | collects exactly the paths that start with the prefab root and end in .prefab, in any letter case |
| AutoSync.AddressablePrefabMonoItemImporter.OnPostprocessAllAssets | project/Assets/Editor/AddressablePrefabMonoItemImporter.cs:39-55 | collects exactly the imported and moved prefabs, and registers the check when anything is collected |
| AutoSync.AddressablePrefabMonoItemImporter.EnsurePendingPrefabs | project/Assets/Editor/AddressablePrefabMonoItemImporter.cs:68-83 | completes exactly the collected bare prefabs, writes each once, and saves assets only when one was written |

## Left out

- Integer widths: player ids, versions and areas are unbounded; BIGINT, INTEGER and long limits are not modelled.
- SQL: statements are atomic, with one row lock and commit or rollback; isolation levels, lock timeouts and lost connections beyond a failing call are not modelled. The seeding insert waits only while another transaction has seeded and not committed.
- Failure inside a transaction: a statement that takes effect and reports failure is rolled back, which is the same as failing.
- JSON, regular expressions and Unicode: rows are decoded values, the name pattern is a predicate, white space and letter case are ASCII.
- Profile contents beyond id, name and version: wallet amounts, reading the wallet for a profile request, notification texts, loggers.
- Startup: reading the release version, loading configuration files and creating the schema; a server's version is any positive number.
- ExceptionSearch.FlattenKeeps: AggregateException.Flatten is .NET's and not in the repository; the queue here is its documented behaviour.
- Extracting a message from an exception tree and the login coroutine: user-facing text and network waits.
- Missing Addressables settings: the early return with an error log.
- Roots that do not exist: an absent root is a root without child folders.
- File system: a path stands for one guid and a guid for one path, folder names are not blank and have no slashes, and source folders do not start with a dot, as the asset database guarantees.
- Reports: an edit from outside is reported in one callback that names something in each folder it changes, as the editor does; the order of search results changes only with a reported change.
- Failing syncs: a script reload, or a delayed call that throws, is a loss of what was collected or taken, and what a throwing sync did before it threw is an edit by hand; reports not delivered yet are not lost.
- Settings assets: the reports of saved settings are modelled, by their root `Assets/AddressableAssetsData`, which is the package's default and not in the code; their contents beside groups and entries are not.
- Menu commands: full group and atlas rebuilds are steps of the pipeline; the prefab menu command is an edit that leaves no prefab bare.
- AutoSync.AddressablesGroupAutoSync.DelayedSync: callbacks delivered in the middle of the call are in the pipeline's runs only; the method covers an undisturbed call.
- BootstrapServer.GameServer.AfterAuthenticateCustom: the method covers a handler that is not interleaved, up to a statement that waits; interleaving and what follows the wait are in the protocol's runs.
- AtlasPacking.WarningDecides: between its two bounds the figures do not decide, and for sprites of arbitrary sizes there is no condition simpler than the search for an arrangement.
- AtlasBudget.WarningIsSound: rounding of sprite sizes and the padding of four pixels are not modelled; padding only makes less fit.
- Group schemas, texture settings, packing for the build target, saving and refreshing assets: settings that no decision of the sync depends on.
- Generated RPC code, Nakama's own server, the item and vector tables, editor windows and image tools.
