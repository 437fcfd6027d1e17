# Mixin iOS: chat-backup restore and chat-directory helpers, in Dafny

This project models two pieces of the Mixin iOS messenger.

1. **The restore screen** (`RestoreViewController`). A tap on the restore
   button downloads the iCloud copy of the chat database and copies it into
   place. It then downloads, copies and extracts the photo and audio archives
   into the chat directories, reporting progress as it goes. The skip button
   clears the "restore pending" flags and leaves the screen.
2. **`MixinFile`'s chat-directory helpers.** These are the four media
   directories and their message-category suffixes, the path of a chat
   directory or of a file in it, and the cleanup that deletes media files that
   no message refers to. Also modelled: `ExtensionName.withDot` and the mute
   durations.

## Layout

- `file_system.dfy`: module `Optional` (Swift's `T?`) and module `FileSystem`.
  The file system is a map from paths (lists of path components) to bytes.
  `Remove` and `Copy` are the pure `removeItem`/`copyItem` on files. `Remove`
  fails on a missing file and on a file that cannot be deleted. `RemoveTree`
  is `removeItem` on an entry that may be a directory: it deletes everything
  below it as well. `Copy` fails on a
  missing source, an existing destination and a destination that cannot be
  written. `FileStore` is the class whose methods carry them out in place.
- `mixin_file.dfy`: module `MixinFile`. It holds `ChatDirectory`, the path
  builder, the cleanup rule as the function `Cleaned`, and the in-place
  methods `Clean` and `CleanAllChatDirectories`, each proved to compute that
  function. It also holds `ExtensionName` and the mute constants.
- `restore_pipeline.dfy`: module `RestorePipeline`. Each stage of the restore
  is a function over a `World`. The `World` holds the files, the
  `stopDownload` flag, the progress values passed to `updateProgressLabel`,
  the errors sent to the crash reporter, and the download requests sent to
  iCloud. The properties of the restore are lemmas about these functions.
- `restore_view_controller.dfy`: module `RestoreController`. `Tap` and `Skip`
  describe the two buttons as functions. The class `RestoreViewController`
  keeps the controller's fields and the account flags. Each of its methods is
  proved to compute the corresponding function.

The things the restore depends on but does not change are held in a
`Setting`. Each iCloud item follows a script of observations: its first
download-state answer, whether the download request throws, and then one
`Tick` per pass of the polling loop. A tick says whether the controller was
deinitialised during the one-second sleep, whether bytes landed at the item's
local path, and what `cloudDownloaded()` answers. As written, the controller
cannot be deinitialised during the sleep (see "## Findings"), so a
deinitialising tick is the behaviour the cancellation branch was meant to
have. The Zip library is a function from archive bytes to an `Extraction`:
the progress fractions it reports, the files it writes, and its error. Closing the database either
fails or succeeds. The files that cannot be written or deleted are two sets
of paths. Progress values are `real`s, so 0.1, 0.3 and 0.35 are exact.

Details of the code that the model keeps:

- An error from `downloadFromCloud` or `copyItem` in the media stage ends the
  whole run. It does not skip just that category.
- Cancelling through `stopDownload` makes the download return normally. It
  does not throw.
- A staging zip that cannot be deleted is ignored (`try?`). A stale one then
  makes `copyItem` throw, because its destination exists, and an extracted
  one is left behind. A local database that cannot be deleted ends the
  database stage with that error.
- With no iCloud identity token or no backup directory, the background block
  returns without resetting the screen. The restore button stays busy and the
  skip button stays hidden.
- A successful restore clears `hasRestoreChat` but not
  `hasRestoreFilesAndVideos`.

## Model

| member | source | states |
|---|---|---|
| `FileSystem.Remove` | Mixin/UserInterface/Controllers/Home/RestoreViewController.swift:132 | removing succeeds exactly on a file that exists and can be deleted, and then takes away that file and nothing else; a failed removal changes nothing |
| `FileSystem.Copy` | Mixin/UserInterface/Controllers/Home/RestoreViewController.swift:133 | copying succeeds exactly when the source exists and the destination neither exists nor is unwritable, and then puts the source's bytes at the destination and changes nothing else; a failed copy writes nothing |
| `FileSystem.RemoveTree` | Mixin/Constants/Constant.swift:178 | removing an entry deletes every file at or below it except those that cannot be deleted, and touches nothing else; it succeeds exactly when something is there and all of it can be deleted |
| `FileSystem.RemoveTreeOfFile` | Mixin/Constants/Constant.swift:184 | on a path with nothing below it the recursive removal is the same as `Remove` |
| `FileSystem.FileStore.FileExists` | Mixin/UserInterface/Controllers/Home/RestoreViewController.swift:87 | `fileExists(atPath:)` holds exactly when a file is at the path |
| `FileSystem.FileStore.FileSize` | Mixin/UserInterface/Controllers/Home/RestoreViewController.swift:87 | `fileSize` is the file's length, and 0 when nothing is there, so a positive size implies the file exists |
| `FileSystem.FileStore.RemoveItem` | Mixin/UserInterface/Controllers/Home/RestoreViewController.swift:147 | `removeItem(at:)` on the shared file manager carries out `Remove` in place |
| `FileSystem.FileStore.RemoveTreeItem` | Mixin/Constants/Constant.swift:178 | `removeItem(at:)` on a chat-directory entry carries out `RemoveTree` in place |
| `FileSystem.FileStore.CopyItem` | Mixin/UserInterface/Controllers/Home/RestoreViewController.swift:111 | `copyItem(at:to:)` on the shared file manager carries out `Copy` in place |
| `FileSystem.FileStore.Write` | Mixin/UserInterface/Controllers/Home/RestoreViewController.swift:87 | bytes the iCloud daemon writes at an item's local path replace whatever was there, and are what the size check reads |
| `FileSystem.FileStore.WriteAll` | Mixin/UserInterface/Controllers/Home/RestoreViewController.swift:138 | extracting writes every entry of the archive into the destination directory, overwriting |
| `MixinFile.ChatDirectory.RawValue` | Mixin/Constants/Constant.swift:104-108 | the raw values Photos, Files, Videos and Audios; `RawValueRoundTrip` states that each one names its directory |
| `MixinFile.ChatDirectoryFromRawValue` | Mixin/Constants/Constant.swift:104-108 | a directory built from a string has that string as its raw value |
| `MixinFile.RawValueRoundTrip` | Mixin/Constants/Constant.swift:104-108 | every directory is rebuilt from its own raw value |
| `MixinFile.ChatDirectory.MessageCategorySuffix` | Mixin/Constants/Constant.swift:110-121 | the suffixes _IMAGE, _DATA, _VIDEO and _AUDIO; `MessageCategorySuffixInjective` states that they tell the directories apart |
| `MixinFile.MessageCategorySuffixInjective` | Mixin/Constants/Constant.swift:110-121 | two directories have the same message-category suffix iff they are the same directory |
| `MixinFile.ChatDirectoryUrl` | Mixin/Constants/Constant.swift:155-165 | the path is root/"Chat"/raw value, with the file name as one more last component exactly when one is given |
| `MixinFile.ChatDirectoryUrlRoundTrip` | Mixin/Constants/Constant.swift:155-165 | a chat-directory path can be read back as its directory and file name |
| `MixinFile.ParseChatDirectoryUrlSound` | Mixin/Constants/Constant.swift:155-165 | every path that reads back as a directory and file name is the path built from them |
| `MixinFile.Stem` | Mixin/Constants/Constant.swift:175 | the stem is a prefix of the name that ends just before its last '.', or the whole name when it has no '.' |
| `MixinFile.Occurs` | Mixin/Constants/Constant.swift:176 | a string occurs in another at some position; `OccursIffSlice` states which |
| `MixinFile.OccursIffSlice` | Mixin/Constants/Constant.swift:176 | a string occurs in another iff some slice of the other is that string |
| `MixinFile.Contains` | Mixin/Constants/Constant.swift:176 | Foundation's `contains`: a non-empty needle that occurs in the string |
| `MixinFile.Keeps` | Mixin/Constants/Constant.swift:172-186 | the rule for one file name: in the videos directory some referenced URL's stem is contained in the name, elsewhere the name is among the referenced ones |
| `MixinFile.Doomed` | Mixin/Constants/Constant.swift:176-185 | the entries the cleanup removes are exactly the paths directly inside the chat directory of the listed names the rule does not keep |
| `MixinFile.Swept` | Mixin/Constants/Constant.swift:176-185 | the files the cleanup deletes can be deleted and lie inside the chat directory |
| `MixinFile.Cleaned` | Mixin/Constants/Constant.swift:167-187 | the cleanup only removes files inside the chat directory that can be deleted, never adds or changes one |
| `MixinFile.CleanedRemovesExactlyUnkept` | Mixin/Constants/Constant.swift:167-187 | a file goes exactly when it is, or lies below, a listed entry of the directory that the rule does not keep, and it can be deleted; every other file stays with its contents |
| `MixinFile.CleanedRemovesListedSubdirectory` | Mixin/Constants/Constant.swift:182-185 | a listed subdirectory that no message refers to goes with every deletable file in it |
| `MixinFile.CleanedKeepsExactlyReferenced` | Mixin/Constants/Constant.swift:180-186 | outside the videos directory a listed file survives iff its name is among the referenced names or it cannot be deleted |
| `MixinFile.CleanedVideosKeepsMatchingStems` | Mixin/Constants/Constant.swift:172-179 | in the videos directory a listed file survives iff the extension-free name of some referenced URL is a non-empty substring of its name, or it cannot be deleted |
| `MixinFile.CleanedIdempotent` | Mixin/Constants/Constant.swift:169-186 | when the listing named every entry holding a file, a second cleanup with the same references removes nothing; a failed listing changes nothing |
| `MixinFile.Clean` | Mixin/Constants/Constant.swift:167-187 | the loop over the listing, removing each unkept entry recursively, leaves exactly the files of the cleanup rule |
| `MixinFile.CleanedAll` | Mixin/Constants/Constant.swift:189-192 | each directory in turn is cleaned with its own listing and its own referenced URLs |
| `MixinFile.CleanedAllOnlyRemovesFromChatDirectories` | Mixin/Constants/Constant.swift:189-192 | cleaning several directories only removes files, never adds or changes one, and removes only files inside those directories |
| `MixinFile.CleanAllChatDirectories` | Mixin/Constants/Constant.swift:189-192 | cleans photos, audios, files and videos, in that order |
| `MixinFile.ExtensionName.RawValue` | Mixin/Constants/Constant.swift:208-214 | the extensions are three or four characters long and hold no dot |
| `MixinFile.ExtensionName.WithDot` | Mixin/Constants/Constant.swift:216-218 | the suffix is '.' followed by the raw value |
| `MixinFile.WithDotInjective` | Mixin/Constants/Constant.swift:208-219 | different extensions give different suffixes |
| `MixinFile.WithDotValues` | Mixin/Constants/Constant.swift:208-219 | jpeg gives ".jpg", mp4 ".mp4", html ".html", ogg ".ogg", gif ".gif" |
| `MixinFile.MuteDurations` | Mixin/Constants/Constant.swift:204-206 | the durations are 28800, 604800 and 31536000 seconds, and a week is 21 times 8 hours |
| `RestorePipeline.DatabaseUrl` | Mixin/UserInterface/Controllers/Home/RestoreViewController.swift:94 | the local database is mixin.db directly in the account root |
| `RestorePipeline.CloudDatabaseUrl` | Mixin/UserInterface/Controllers/Home/RestoreViewController.swift:103 | the backup database is mixin.backup.db directly in the backup directory |
| `RestorePipeline.CloudArchiveUrl` | Mixin/UserInterface/Controllers/Home/RestoreViewController.swift:122 | a category's archive lies directly in the backup directory |
| `RestorePipeline.CloudArchiveNameParts` | Mixin/UserInterface/Controllers/Home/RestoreViewController.swift:122 | an archive's name is "mixin.", the category's lower-cased raw value, then ".zip" |
| `RestorePipeline.StagingZipUrl` | Mixin/UserInterface/Controllers/Home/RestoreViewController.swift:130 | the staging zip is <raw value>.zip directly in the Chat directory, beside the chat directories |
| `RestorePipeline.ExtractionDir` | Mixin/UserInterface/Controllers/Home/RestoreViewController.swift:135 | a category is extracted into a directory apart from its staging zip |
| `RestorePipeline.Lowercased` | Mixin/UserInterface/Controllers/Home/RestoreViewController.swift:122 | lower-casing keeps the length and maps each character to its lower-case form |
| `RestorePipeline.CloudArchiveNames` | Mixin/UserInterface/Controllers/Home/RestoreViewController.swift:122 | the cloud archives are mixin.photos.zip and mixin.audios.zip in the backup directory |
| `RestorePipeline.LocalPathsDistinct` | Mixin/UserInterface/Controllers/Home/RestoreViewController.swift:130-135 | staging zips, extraction directories and the database never overlap, and two categories never share a path |
| `RestorePipeline.Settle` | Mixin/UserInterface/Controllers/Home/RestoreViewController.swift:80-90 | the polling loop changes only the file at the item's path and the stop flag, and never clears that flag; it throws only what a probe threw, and only when not cancelled; it returns normally only when cancelled, when a probe said downloaded, or when a non-empty file is at the path; it is still waiting only if no pass was cancelling or had an answer other than "not yet", and the last pass found no non-empty file |
| `RestorePipeline.SettleStopsWhenCancelled` | Mixin/UserInterface/Controllers/Home/RestoreViewController.swift:83-84 | once cancelled, the next pass returns normally without asking iCloud |
| `RestorePipeline.SettleEndsAtFirstPass` | Mixin/UserInterface/Controllers/Home/RestoreViewController.swift:80-90 | the loop returns at the first pass where the stop flag, the probe or a non-empty file ends it, as that pass says (only a failed probe throws), and is still waiting when no pass ends it |
| `RestorePipeline.RetainedLoopNeverCancels` | Mixin/UserInterface/Controllers/Home/RestoreViewController.swift:83-84 | with no deinitialising pass, which is all the code as written allows, the stop flag stays clear through the loop |
| `RestorePipeline.RetainedStalledLoopKeepsPolling` | Mixin/UserInterface/Controllers/Home/RestoreViewController.swift:80-90 | a stalled download with the controller held keeps the loop polling for any number of passes |
| `RestorePipeline.Download` | Mixin/UserInterface/Controllers/Home/RestoreViewController.swift:70-91 | an item that is absent or already downloaded is left alone with no request; otherwise exactly one download request is made; only iCloud errors escape |
| `RestorePipeline.RestoreDatabase` | Mixin/UserInterface/Controllers/Home/RestoreViewController.swift:93-112 | on normal return the local database exists iff the backup does and is then a copy of it; closing or deleting fails only on an existing database, and then nothing changes; only close, delete, iCloud and copy errors escape; only the two database files change |
| `RestorePipeline.DatabaseOutcome` | Mixin/UserInterface/Controllers/Home/RestoreViewController.swift:93-112 | closing fails iff a database exists and cannot be closed; deleting it fails iff it closed but cannot be deleted; otherwise the stage ends as the backup's download does, or with the copy's write error when the downloaded backup cannot be written into place |
| `RestorePipeline.ExtractionProgress` | Mixin/UserInterface/Controllers/Home/RestoreViewController.swift:139 | one progress value per fraction the Zip library reports, the i-th being the offset plus 0.35 times the i-th fraction |
| `RestorePipeline.ExtractionProgressInBand` | Mixin/UserInterface/Controllers/Home/RestoreViewController.swift:138-140 | extraction fractions in [0, 1] give progress values in [offset, offset + 0.35]; fractions that never decrease give values that never decrease |
| `RestorePipeline.RestoreCategory` | Mixin/UserInterface/Controllers/Home/RestoreViewController.swift:121-149 | a category pass requests at most its own archive and never clears the stop flag |
| `RestorePipeline.InstallArchive` | Mixin/UserInterface/Controllers/Home/RestoreViewController.swift:130-147 | copy the archive to the staging zip, extract it into the chat directory, report an extraction error, delete the staging zip; its properties are the `Install` lemmas |
| `RestorePipeline.InstallPathsApart` | Mixin/UserInterface/Controllers/Home/RestoreViewController.swift:130-135 | the staging zip and the extraction directory lie apart from the cloud archive |
| `RestorePipeline.InstallOutcome` | Mixin/UserInterface/Controllers/Home/RestoreViewController.swift:130-148 | after the archive is found only the copy throws: `AlreadyExists` when a stale staging zip cannot be deleted, `WriteFailed` when the destination cannot be written; the staging zip remains iff it cannot be deleted and was there or was extracted; the cloud archive is untouched |
| `RestorePipeline.InstallEffects` | Mixin/UserInterface/Controllers/Home/RestoreViewController.swift:137-146 | an extraction reports its scaled progress and its error, if any, and its files land in the chat directory |
| `RestorePipeline.InstallFrame` | Mixin/UserInterface/Controllers/Home/RestoreViewController.swift:130-148 | installing touches only the staging zip and the chat directory |
| `RestorePipeline.CategoryOutcome` | Mixin/UserInterface/Controllers/Home/RestoreViewController.swift:124-148 | the offset moves on iff the pass returned normally with the archive on disk; only download and copy errors escape, so an extraction error never aborts |
| `RestorePipeline.CategoryEffects` | Mixin/UserInterface/Controllers/Home/RestoreViewController.swift:137-148 | an advancing pass reports the extraction's scaled progress and its error and writes the extracted files; a skipped or failed pass reports nothing |
| `RestorePipeline.CategoryRemovesStagingZip` | Mixin/UserInterface/Controllers/Home/RestoreViewController.swift:130-147 | a staging zip left after a pass is the extracted archive, which could not be deleted, or one that was there before and that a pass which did not advance left as it was |
| `RestorePipeline.CategoryFrame` | Mixin/UserInterface/Controllers/Home/RestoreViewController.swift:121-148 | a pass changes nothing outside its cloud archive, staging zip and chat directory |
| `RestorePipeline.RestoreMedia` | Mixin/UserInterface/Controllers/Home/RestoreViewController.swift:114-150 | the category loop from an offset: each category in turn, stopping at the first error; `MediaOrder` and the `RestoreMedia` lemmas state its properties |
| `RestorePipeline.MediaOrder` | Mixin/UserInterface/Controllers/Home/RestoreViewController.swift:116-128 | photos are restored first, then audios from the offset photos left; an error in photos ends the stage |
| `RestorePipeline.CategoryProgress` | Mixin/UserInterface/Controllers/Home/RestoreViewController.swift:137-148 | under the Zip library's range promise a pass keeps the log as a prefix and appends only values in its band; under the order promise as well they never decrease |
| `RestorePipeline.RestoreMediaProgress` | Mixin/UserInterface/Controllers/Home/RestoreViewController.swift:120-149 | under the range promise the media stage keeps the log as a prefix and appends only values in [offset, offset + 0.35 per category]; under the order promise as well they never decrease |
| `RestorePipeline.RestoreMediaRemovesStagingZips` | Mixin/UserInterface/Controllers/Home/RestoreViewController.swift:130-147 | no staging zip absent at the start survives the media stage, however it ends, unless it cannot be deleted |
| `RestorePipeline.RestoreMediaFrame` | Mixin/UserInterface/Controllers/Home/RestoreViewController.swift:114-150 | the media stage touches only the chat directories and the backup directory, so never the local database |
| `RestorePipeline.RestoreMediaAppends` | Mixin/UserInterface/Controllers/Home/RestoreViewController.swift:139 | the media stage only appends progress values |
| `RestorePipeline.Pipeline` | Mixin/UserInterface/Controllers/Home/RestoreViewController.swift:39-59 | report 0.1, restore the database, report 0.3, restore the media, and report an error to the crash reporter; its properties are the `Pipeline` lemmas |
| `RestorePipeline.PipelineProgressLog` | Mixin/UserInterface/Controllers/Home/RestoreViewController.swift:39-43 | a run's progress log is the database stage's, which adds 0.1, followed after 0.3 by the media stage's once the database stage returned |
| `RestorePipeline.PipelineAppends` | Mixin/UserInterface/Controllers/Home/RestoreViewController.swift:39-43 | a run only appends progress values |
| `RestorePipeline.PipelineMilestones` | Mixin/UserInterface/Controllers/Home/RestoreViewController.swift:40-42 | a run reports 0.1 first, and 0.3 next when it reaches the media stage |
| `RestorePipeline.PipelineProgress` | Mixin/UserInterface/Controllers/Home/RestoreViewController.swift:39-43 | under the range promise a run keeps the log as a prefix and every value it appends is in [0.1, 1]; under the order promise as well they never decrease |
| `RestorePipeline.DatabaseFailureSkipsMedia` | Mixin/UserInterface/Controllers/Home/RestoreViewController.swift:39-59 | a database-stage error ends the run: no progress past 0.1, no archive requested, the error reported, only the database files touched |
| `RestorePipeline.DatabaseWithoutBackup` | Mixin/UserInterface/Controllers/Home/RestoreViewController.swift:93-112 | with no backup anywhere, the stage either fails to close or delete the existing database and changes nothing, or returns with no local database |
| `RestorePipeline.MissingBackupLeavesNoDatabase` | Mixin/UserInterface/Controllers/Home/RestoreViewController.swift:39-43 | a run with no backup that gets past the database stage ends with no local database |
| `RestoreController.Finish` | Mixin/UserInterface/Controllers/Home/RestoreViewController.swift:44-57 | how a run leaves the screen: a restore clears `hasRestoreChat` and replaces the root view controller, a failure re-enables the button, shows the skip button and hides the label |
| `RestoreController.Tap` | Mixin/UserInterface/Controllers/Home/RestoreViewController.swift:23-59 | one tap on the restore button: the guard, the busy screen, the 0 report, the token and directory guards, the run and `Finish` |
| `RestoreController.TapStarts` | Mixin/UserInterface/Controllers/Home/RestoreViewController.swift:23-37 | a tap while busy is ignored; otherwise the first reported value is 0; with no token or no backup directory the screen stays busy and nothing else happens |
| `RestoreController.TapOutcome` | Mixin/UserInterface/Controllers/Home/RestoreViewController.swift:39-59 | the screen is left iff the run restored, which clears only hasRestoreChat; a failed run resets the button, skip button and progress label, keeps the flags and reports its error |
| `RestoreController.TapProgress` | Mixin/UserInterface/Controllers/Home/RestoreViewController.swift:30-43 | under the range promise a tap keeps the log as a prefix and the progress label only shows values in [0, 1]; under the order promise as well they never decrease |
| `RestoreController.Skip` | Mixin/UserInterface/Controllers/Home/RestoreViewController.swift:63-68 | skipping clears both flags and leaves the screen |
| `RestoreController.SkipVersusRestore` | Mixin/UserInterface/Controllers/Home/RestoreViewController.swift:44-65 | a restore keeps hasRestoreFilesAndVideos where skipping clears it |
| `RestoreController.RestoreViewController.constructor` | Mixin/UserInterface/Controllers/Home/RestoreViewController.swift:13 | `stopDownload` starts false; the idle screen it starts from (button not busy, skip button shown, progress label hidden) is set up by the storyboard, which is not part of this model, and is the state the failure path restores |
| `RestoreController.RestoreViewController.Deinit` | Mixin/UserInterface/Controllers/Home/RestoreViewController.swift:19-21 | deinitialising sets the stop flag |
| `RestoreController.RestoreViewController.DownloadFromCloud` | Mixin/UserInterface/Controllers/Home/RestoreViewController.swift:70-91 | the lookup, the request and then `Poll` compute `Download` |
| `RestoreController.RestoreViewController.Poll` | Mixin/UserInterface/Controllers/Home/RestoreViewController.swift:79-91 | the polling loop computes `Settle` |
| `RestoreController.RestoreViewController.RestoreDatabase` | Mixin/UserInterface/Controllers/Home/RestoreViewController.swift:93-112 | the recursive delete-then-copy computes `RestorePipeline.RestoreDatabase` |
| `RestoreController.RestoreViewController.RestoreCategory` | Mixin/UserInterface/Controllers/Home/RestoreViewController.swift:121-149 | one pass of the category loop computes `RestorePipeline.RestoreCategory` |
| `RestoreController.RestoreViewController.InstallArchive` | Mixin/UserInterface/Controllers/Home/RestoreViewController.swift:130-147 | copying, extracting and deleting the staging zip in place computes `RestorePipeline.InstallArchive` |
| `RestoreController.RestoreViewController.RestorePhotosAndAudios` | Mixin/UserInterface/Controllers/Home/RestoreViewController.swift:114-150 | the category loop computes `RestoreMedia` over photos then audios from offset 0.3 |
| `RestoreController.RestoreViewController.Run` | Mixin/UserInterface/Controllers/Home/RestoreViewController.swift:39-59 | the background block computes `Pipeline` |
| `RestoreController.RestoreViewController.ShowOutcome` | Mixin/UserInterface/Controllers/Home/RestoreViewController.swift:44-57 | the main-queue blocks update the screen as `Finish` says |
| `RestoreController.RestoreViewController.RestoreAction` | Mixin/UserInterface/Controllers/Home/RestoreViewController.swift:23-61 | the restore button computes `Tap` |
| `RestoreController.RestoreViewController.SkipAction` | Mixin/UserInterface/Controllers/Home/RestoreViewController.swift:63-68 | the skip button computes `Skip` |

## Left out

- UIKit, the storyboard, the percentage text of the progress label and the
  main-thread hops are not modelled. The screen is reduced to three booleans,
  and progress to the numbers passed to `updateProgressLabel`.
- The `DispatchQueue` hops are not modelled. A tap runs to completion in one
  call, and the blocks sent to the main queue run at its end.
- The iCloud API calls are not modelled. Each item follows a scripted sequence
  of observations instead. The identity token and the backup directory are
  inputs.
- `Thread.sleep` is not modelled. One sleep is one tick of the script.
- RestorePipeline.Settle: it does not model a polling loop that never ends.
  When an item's script runs out while the loop is still waiting, it stops
  with `StillWaiting`. The source would keep polling.
- RestorePipeline.Download: it inherits the bound of `Settle`, and a second
  tap replays the same script.
- The WCDB `Database.close` call is not modelled. It is one boolean: closing
  fails or succeeds.
- The Zip library is not modelled. It is a function from archive bytes to
  progress fractions, written files and an error. Two promises about it are
  assumed as hypotheses: `ZipBounded`, that fractions lie in [0, 1], and
  `ZipMonotone`, that they never decrease. The progress bounds need only
  `ZipBounded`; the ordering needs both.
- `Bugsnag.notifyError` is not modelled. It is the append-only log `reports`.
  The `#if DEBUG` printing is left out.
- The `Float` arithmetic of the progress values is not modelled. Values are
  exact `real`s.
- The restore keeps one requirement that comes from where iOS puts these
  directories: the iCloud backup directory and the account's document root
  must not contain one another.
- FileSystem.Remove: the local database (RestoreViewController.swift:97,
  :110) and the staging zips (:132, :147) are removed as plain files. A
  directory at one of those paths, which `removeItem` would delete with its
  contents, is not modelled; `RemoveTreeOfFile` shows the two removals agree
  when nothing lies below the path.
- FileSystem.RemoveTree: when a directory holds a file that cannot be
  deleted, every other file below it goes. The order in which Foundation
  walks the directory, and a removal that stops at its first error, are not
  modelled.
- MixinFile.Keeps and MixinFile.Contains: names are compared character by
  character. Swift's `String` equality, `Set<String>` membership and
  Foundation's `contains` compare by Unicode canonical equivalence, which is
  not modelled.
- FileSystem.Copy: a failed `copyItem` is taken to write nothing. A partly
  written destination is not modelled.
- `Tick.deinitialized` covers a path the code as written cannot take. The
  block started at RestoreViewController.swift:31 holds the controller, and
  so does the instance method that runs the polling loop, so `deinit` cannot
  run while the loop runs. The model keeps the path as
  the behaviour the cancellation branch was meant to have; "## Findings" has
  the code as written.
- `createDirectoryIfNeeded` of the chat directory is not modelled, and so
  neither is its possible error. Directories are implicit in the file map:
  a directory is the common prefix of the files below it.
- The directory creation inside `url(ofChatDirectory:filename:)` is not
  modelled, and neither is `rootDirectory`'s no-backup directory. Both are
  side effects that do not change which files exist.
- MixinFile.Stem: it approximates `NSString.deletingPathExtension` as "drop
  everything from the last '.'". It does not model Foundation's special
  cases, such as a leading dot or a trailing slash.
- `MessageDAO.getMediaUrls(likeCategory:)` is not modelled. It is an input,
  a function from category suffix to referenced URLs.
- `contentsOfDirectory(atPath:)` is not modelled. It is an input listing, or
  `None` when it throws.
- `iCloudBackupDirectory`, `rootDirectory`, `logPath`, `signalDatabasePath`,
  `groupIconsUrl` and the storyboard and notification constants are not
  modelled. Only the paths the core uses are: the root is a parameter, the
  database is root/mixin.db and the backup is <backup dir>/mixin.backup.db.
- `ProvisioningAPI.swift` is not modelled. It is a network client with no
  logic of its own.

## Findings

| source | as written | input that shows it | evidently intended | confidence | as-written member | corrected member |
|---|---|---|---|---|---|---|
| Mixin/UserInterface/Controllers/Home/RestoreViewController.swift:83-84 | The block started at :31 holds `self` strongly (`self.updateProgressLabel` and `self.restoreDatabase` at :40-43, the Zip progress closure at :139). So `deinit` (:19-21) cannot run while the polling loop runs, `stopDownload` stays false there, and the `if stopDownload` branch at :83-84 never fires (`RestorePipeline.RetainedLoopNeverCancels`). | A stalled iCloud download: `cloudDownloaded()` keeps answering false and no bytes land while the screen goes away. The loop keeps polling once a second and keeps the controller alive. | Leaving the screen stops the loop at its next pass. That needs `stopDownload` to be set from outside `deinit`, for example from `viewWillDisappear` or a cancel action, since a weak capture alone would not do: the loop runs inside the instance methods `restoreDatabase` and `downloadFromCloud`, whose receiver stays alive for the whole call. | medium, not executed | `RestorePipeline.RetainedStalledLoopKeepsPolling` | `RestorePipeline.SettleStopsWhenCancelled` |
