# Arma3-LTRM sync core in Dafny

This project models the core of the Arma 3 launcher. That core is made of four parts:

- **The FTP mirror engine of `FtpManager`.** It does the following:
  - parses MLSD, Unix LIST and NLST listings;
  - scans a remote tree into a directory cache;
  - saves, reuses and merges cached repository records;
  - plans which files to download;
  - deletes local orphans;
  - runs the transfers.
- **The launch-argument builders.** There are two of them: the older `LaunchParametersManager`, which keeps a dictionary of switches, and the newer one in `Services`, which builds the argument string from a launch-options record.
- **The mod lists of `ModManager`.**
- **The event download path of `EventManager`.**

Modules follow the program's structure:

| Module | File | What it holds |
|---|---|---|
| `Text` | `text.dfy` | .NET string helpers: `Trim`, `Split`, `ToLower` and `long.TryParse` |
| `Paths` | `paths.dfy` | `Path.Combine` and `Path.GetFileName` |
| `Events` | `events.dfy` | Event paths |
| `Listing` | `listing.dfy` | Listing parsers and the three-dialect directory listing |
| `Scanner` | `scanner.dfy` | The recursive scan |
| `Local` | `local.dfy` | The local disk as a map of paths |
| `Planner` | `planner.dfy` | What to download and the expected file and directory sets |
| `Orphans` | `orphans.dfy` | What the orphan scan leaves on disk |
| `Cancellation` | `cancellation.dfy` | The cancellation token as a count of checks that still pass |
| `Sync` | `sync.dfy` | The `FtpManager` class: its counters, the orphan scan and the transfers |
| `Cache` | `cache.dfy` | Cached records, the `CacheStore`, conversions, totals, merges and browsing |
| `Folder` | `folder.dfy` | The cache choices of `DownloadRepositoryAsync` and `DownloadFolderAsync` |
| `Mods` | `mods.dfy` | Mod lists |
| `LegacyLaunch` | `launch_legacy.dfy` | The older launch-argument builder |
| `Launch` | `launch_services.dfy` | The newer launch-argument builder |

How the model stands in for the system:

- The FTP server is a value (`Listing.Remote`). It holds the reply to each listing command per path, plus the sizes and timestamps of files.
- The local disk is a value (`Local.Disk`). Its paths are sequences of segments. The ignore-case file sets the source builds are modelled by folding the ASCII letters of each segment to upper case. Each remote name becomes one new segment, so the planner asks that every cached name be a plain name (see Findings).
- Each transfer's outcome is a parameter: completed with a length, failed, cancelled while running, or cancelled before it started (with or without its directories made).
- The clock is a parameter `now` in ticks.
- The cancellation token is a value (`Cancellation.Token`): never cancelled, or cancelled once a given number of checks has passed. Each `ThrowIfCancellationRequested` and each wait on the token is one check. A directory the walk cannot list is in a set `unreadable`.

## Model

| member | source | states |
|---|---|---|
| Text.TrimSpec | Services/FtpManager.cs:659-660 | `Trim` removes exactly the leading and trailing white space. The result is a substring of the input with blank text on both sides, and it is empty iff the input is blank. |
| Text.JoinSplit | Services/FtpManager.cs:653-656 | Joining the pieces of `Split(c)` with `c` gives back the original text. |
| Text.SplitJoin | Services/FtpManager.cs:653-656 | Splitting a join of separator-free pieces gives back the pieces. |
| Text.SplitAtSeparator | Services/FtpManager.cs:653 | Splitting at a separator is the concatenation of the splits on either side. |
| Text.SplitAvoids | Services/FtpManager.cs:653 | No piece of a split contains a separator. |
| Text.TokensSpec | Services/FtpManager.cs:693 | `Split` with `RemoveEmptyEntries` gives only non-empty tokens, and no token contains a separator. |
| Text.TokensAtSeparator | Services/FtpManager.cs:918 | The tokens of `x + sep + y` are the tokens of `x` followed by those of `y`. |
| Text.SplitOnce | Services/FtpManager.cs:640 | A split at the first `"; "`. The result is present iff the separator occurs; when present, the input is the two halves around the separator, and no earlier occurrence exists. |
| Text.IndexFrom | Services/FtpManager.cs:640 | Finds the first occurrence at or after `from`. `None` means there is none. |
| Text.LowerSpec | Services/FtpManager.cs:659 | Lowering keeps the length and leaves no ASCII capital. The result differs from the input only in case, and lowering twice is lowering once. |
| Text.LowerUnchanged | Services/FtpManager.cs:665 | Lower-casing text that has no capital letter leaves it unchanged. |
| Text.ParseLongOfIntToString | Services/FtpManager.cs:668 | `long.TryParse` reads back every 64-bit integer from its decimal text. |
| Text.ParseLong | Services/FtpManager.cs:668 | Any parsed value lies in the signed 64-bit range. |
| Text.DigitsValueOfNatToString | Services/FtpManager.cs:668 | The decimal digits of `n` denote `n`. |
| Paths.Combine | Services/EventManager.cs:159 | `Path.Combine`: an empty second part gives the first, and a rooted second part replaces it. Otherwise the result starts with the first part, ends with the second, and has at most one separator between them. |
| Paths.Combine3IsNested | Services/EventManager.cs:159 | The three-part `Path.Combine` is two nested two-part ones. |
| Paths.GetFileNameOfCombine | Services/EventManager.cs:159 | The file name of a directory combined with a plain name is that name. |
| Events.WindowsInvalidSetUsable | Services/EventManager.cs:153 | The Windows invalid-name set holds both separators and `:`, and not `_` or `.`. |
| Events.SanitizeFileName | Services/EventManager.cs:151-155 | A sanitised name contains no invalid character and does not end in `.`. |
| Events.SanitizeValidName | Services/EventManager.cs:151-155 | A name with no invalid character only loses its trailing dots. |
| Events.SanitizeCollapsesRun | Services/EventManager.cs:154 | A run of invalid characters inside a name becomes one `_`. |
| Events.SanitizeDropsOuterRuns | Services/EventManager.cs:154 | Runs of invalid characters at either end are dropped, not replaced. |
| Events.SanitizeAllInvalid | Services/EventManager.cs:154 | A name made only of invalid characters sanitises to the empty name. |
| Events.GetEventDownloadPath | Services/EventManager.cs:157-160 | The path is `<base>\Events\<sanitised name>`. |
| Events.EventFolderIsLastSegment | Services/EventManager.cs:157-160 | The last segment of the event path is exactly the sanitised event name. |
| Listing.ChildPath | Services/FtpManager.cs:650 | `dir.TrimEnd('/') + "/" + name` ends with `/name` and starts with the trimmed directory. |
| Listing.FactOfSplit | Services/FtpManager.cs:653-660 | `key=value` with no other `=` reads as the fact of the lower-cased, trimmed key and the trimmed value. |
| Listing.FactOfShape | Services/FtpManager.cs:653-660 | Whenever a fact is read, the text has exactly one `=`, and the fact is its trimmed lower-cased left side and its trimmed right side. |
| Listing.LastReadSpec | Services/FtpManager.cs:653-676 | A key's value is the last readable value given for it. No value means no fact for the key was readable. |
| Listing.MlsdEntry | Services/FtpManager.cs:635-684 | An MLSD line gives an entry iff it contains `"; "`. The name is the text after the first `"; "`, and the full path is the name under the current directory. |
| Listing.ParseMLSDLine | Services/FtpManager.cs:635-684 | The method's loop over the facts computes `MlsdEntry`. |
| Listing.ApplyFacts | Services/FtpManager.cs:653-676 | Each fact is applied in order to the entry. |
| Listing.MlsdRoundTrip | Services/FtpManager.cs:635-684 | An MLSD line written for a name, kind and 64-bit size parses back to that entry. |
| Listing.ParseListLine | Services/FtpManager.cs:911-962 | A LIST line gives an entry iff it is at least 10 characters long and has at least 9 tokens. The entry is a directory iff the line starts with `d`, and directories have size 0. |
| Listing.ParseListLineOptimized | Services/FtpManager.cs:686-738 | This parser accepts the same lines as the legacy parser and gives the same entry, with the full path set under the current directory. |
| Listing.UnixRoundTrip | Services/FtpManager.cs:686-738 | A Unix listing line built from its nine fields parses back to its name, kind, size and date. |
| Listing.UnixNameSingleSpaced | Services/FtpManager.cs:938 | A parsed name never has a leading, trailing or doubled space, because tokens are re-joined with one space. |
| Listing.Kept | Services/FtpManager.cs:404-411 | A line keeps at most one entry: a parsed one that is not `.` or `..`. |
| Listing.EntriesHaveNoDots | Services/FtpManager.cs:404-411 | No listing entry is `.` or `..`. |
| Listing.Names | Services/FtpManager.cs:465-471 | NLST names are non-empty and never `.` or `..`. |
| Listing.ReadNames | Services/FtpManager.cs:465-471 | The loop over NLST lines computes `Names`. |
| Listing.ProbeAll | Services/FtpManager.cs:477-513 | The result has one entry per NLST name, its probe, listed in name order (the source's order is unspecified; see Left out). |
| Listing.ReadEntries | Services/FtpManager.cs:401-412 | Appends the kept entries of each line, in order. |
| Listing.GetDirectoryListingOptimized | Services/FtpManager.cs:376-520 | The method computes the three-dialect listing `ListingOf`. |
| Listing.FirstDialectWins | Services/FtpManager.cs:376-520 | MLSD is used when it answers. LIST is used only if MLSD is refused, and NLST only if both are refused. Otherwise the listing is empty. |
| Listing.NlstFallback | Services/FtpManager.cs:452-517 | After the fallback, each NLST name becomes one entry, listed in name order (see Left out). The entry is a directory iff no size was reported. |
| Listing.EntriesArePlaced | Services/FtpManager.cs:650 | Parsers that place entries give full paths under the listed directory. |
| Listing.StandardParsersPlace | Services/FtpManager.cs:650 | The MLSD and optimised LIST parsers place their entries. |
| Listing.ListingEntries | Services/FtpManager.cs:376-520 | Every listed entry lies directly under the listed directory, and none is `.` or `..`. |
| Listing.GetDirectoryListing | Services/FtpManager.cs:811-909 | The legacy listing method computes `LegacyListing`. |
| Listing.LegacyListingEntries | Services/FtpManager.cs:811-909 | An answered NLST gives the probed names, and no entry is `.` or `..`. |
| Scanner.Subdirectories | Services/FtpManager.cs:239 | Collects the full paths of the directory entries other than `.` and `..`. |
| Scanner.SubdirPathSource | Services/FtpManager.cs:239 | Every collected path comes from a directory entry. |
| Scanner.ListingBounded | Services/FtpManager.cs:376-520 | A server answers for finitely many paths, so a scan reaches finitely many. |
| Scanner.BuildDirectoryCache | Services/FtpManager.cs:111-120 | The scan from the root caches the root and each path's listing. The cache is closed under subdirectories, each path is scanned once, and each path after the root was found in an earlier listing. A check of the token before each path ends the scan as cancelled only when the token fires; a token that is never cancelled never stops it. |
| Scanner.ScanIsDeterministic | Services/FtpManager.cs:216-260 | Any two closed scans from the same root hold the same cache. |
| Planner.WhereSpec | Services/FtpManager.cs:358-359 | Filtering keeps exactly the entries that pass. |
| Planner.FileTargets | Services/FtpManager.cs:362-366 | One target per file, in order. |
| Planner.PairFiles | Services/FtpManager.cs:362-366 | The loop pairs each file with its local path. |
| Planner.CollectFilesToDownload | Services/FtpManager.cs:353-374 | Appends the files of the current directory, then those of each cached subdirectory, recursively. |
| Planner.AddFileKeys | Services/FtpManager.cs:558-562 | Adds the folded local path of each file. |
| Planner.BuildExpectedFileSet | Services/FtpManager.cs:549-571 | The expected sets are the folded paths of the collected files and of every subdirectory reached. |
| Planner.KeysSpec | Services/FtpManager.cs:532-533 | A path is expected iff some target's folded path equals it. |
| Local.FoldIgnoresCase | Services/FtpManager.cs:532-533 | Two paths have the same key iff they have the same number of segments and their segments differ at most in the case of ASCII letters (`SamePathIgnoringCase`, defined by lower-casing, not by `Fold`). |
| Text.UpperIgnoresCase | Services/FtpManager.cs:532-533 | Two strings upper-case alike iff they have the same length and each pair of characters is equal or equal once lower-cased. |
| Local.PlainChild | Services/FtpManager.cs:364 | For a plain name, `Path.Combine` gives the same path as `Child`: one new segment, beneath the directory. |
| Local.CombineEscapes | Services/FtpManager.cs:364 | As written, a remote file named `..\..\x` is written outside the destination, two levels above it. |
| Local.CombineCollides | Services/FtpManager.cs:364-371 | As written, a remote file `a\b` and the file `b` of the remote directory `a` are written to one local file. |
| Planner.CollectedInside | Services/FtpManager.cs:353-374 | With plain names, every collected file goes to a path beneath the destination, one plain segment per level. |
| Local.ChildrenCover | Services/FtpManager.cs:583-609 | `GetFiles` and `GetDirectories` of a directory are disjoint. A file beneath it is either directly in it or beneath exactly one of its listed subdirectories, the one its path passes through. |
| Planner.ScheduledSpec | Services/FtpManager.cs:275-277 | A target is scheduled iff its local file is missing or has a different size. |
| Planner.SkippedCount | Services/FtpManager.cs:279 | The scheduled and skipped counts add up to the number of files. |
| Planner.NothingScheduled | Services/FtpManager.cs:797-809 | Nothing is scheduled iff every local file exists with the remote size. |
| Planner.ScanClosed | Services/FtpManager.cs:216-260 | A scanned cache is closed under its subdirectories. |
| Planner.CollectedAgree | Services/FtpManager.cs:353-374 | Two closed caches that agree where both list a path plan the same files and directories below it. |
| Orphans.CleanedValid | Services/FtpManager.cs:573-633 | The orphan scan keeps every file inside an existing directory. |
| Orphans.RemovedDirHoldsNoFile | Services/FtpManager.cs:611-631 | A removed directory lies beneath the root and holds no file afterwards. |
| Orphans.DirWithFileKept | Services/FtpManager.cs:611-631 | A directory that still holds a file is kept. |
| Orphans.ExpectedChainKept | Services/FtpManager.cs:611-631 | A directory whose every ancestor below the root is expected is kept. |
| Orphans.CleanedIdempotent | Services/FtpManager.cs:573-633 | Running the orphan scan again changes nothing, and no orphan remains. |
| Orphans.CleanedPartly | Services/FtpManager.cs:573-633 | The finished walk is one of the part-way ones. |
| Orphans.PartlyCleanedThen | Services/FtpManager.cs:603-609 | A walk stopped part-way followed by a walk of a directory beneath it is still a walk stopped part-way. |
| Orphans.SweptPartly | Services/FtpManager.cs:603-609 | While the children are walked, the disk is part-way through the walk of the parent. |
| Orphans.WalkPruned | Services/FtpManager.cs:611-631 | The last loop removes only directories the walk removes; run to the end, it leaves the disk `Cleaned` with every orphan counted. |
| Sync.RemoveUnexpectedDirs | Services/FtpManager.cs:611-631 | Removes each unexpected child directory that holds no file, with everything beneath it, and keeps the disk well formed. Stopped by the token, every directory it removed is still one the walk removes. |
| Sync.FtpManager.DeleteOrphanFilesIn | Services/FtpManager.cs:582-601 | Deletes exactly the orphan files directly in the directory and counts them. Stopped by the token, it has deleted only such orphans, each counted once. |
| Sync.FtpManager.ScanChildren | Services/FtpManager.cs:603-609 | Walks every child directory and counts the deletions. A walk stopped part-way leaves a disk part-way through the walk of the parent, with every deletion counted; a child's cancellation reaches the parent as another exception. |
| Sync.FtpManager.WalkChild | Services/FtpManager.cs:605-608 | One child: the token check, then the child's walk. Any failure of the child becomes an `AggregateException` at the parent, and the disk stays part-way through the parent's walk. |
| Sync.FtpManager.ScanAndDeleteOrphanedFiles | Services/FtpManager.cs:573-633 | A missing root leaves the disk alone. Run to the end, the disk becomes `Cleaned` and the counter grows by the number of orphans. However it stops (token, unreadable directory), it has only deleted orphans and removed directories the walk removes, counted each deletion and kept the disk well formed. |
| Sync.FtpManager.DeleteOrphanedFiles | Services/FtpManager.cs:522-547 | The orphan scan runs against the expected sets of the cache. A fired token cancels it before anything is deleted; a cancellation inside the walk is passed on, any other exception swallowed with the deletions made so far. |
| Sync.FtpManager.DownloadTasks | Services/FtpManager.cs:286-337 | With the token already fired, every task throws at its wait for a slot: nothing changes, and the sync is cancelled iff there was something to download. Otherwise the tasks run as in `DownloadAll`. A path no task targets is left alone. |
| Sync.FtpManager.DownloadAll | Services/FtpManager.cs:286-337 | The transfers run in order. The result is the run's disk and cancellation, and the counter grows by the completed downloads. |
| Sync.FtpManager.DownloadDirectoryFromCache | Services/FtpManager.cs:262-351 | Orphans are removed first, then the scheduled files are downloaded. A token that fires at one of the first three checks leaves disk and counters unchanged. Skipped files are counted unless the run was cancelled. Whatever happens, a file that is neither an orphan nor a target keeps its content. |
| Sync.FtpManager.constructor | Services/FtpManager.cs:28-30 | The counters start at zero. |
| Sync.TransferValid | Services/FtpManager.cs:964-1015 | A transfer keeps every file inside a directory. |
| Sync.RunValid | Services/FtpManager.cs:286-337 | A run of transfers keeps every file inside a directory. |
| Sync.RunCancelled | Services/FtpManager.cs:289-322 | The run ends cancelled iff some transfer was cancelled, before it started or while it ran. A failure does not stop the others. |
| Sync.RunCount | Services/FtpManager.cs:311-312 | Downloads are counted at most once each, and all count only when all completed. |
| Sync.RunStaysCancelled | Services/FtpManager.cs:319-322 | After a cancellation, later transfers change nothing. |
| Sync.RunUntouched | Services/FtpManager.cs:286-337 | A file that is no transfer's target is left as it was. |
| Sync.CompletedPresent | Services/FtpManager.cs:994-997 | A completed transfer leaves the file with its length and the remote timestamp. |
| Sync.CancelLeavesNoFile | Services/FtpManager.cs:999-1009 | A cancelled transfer removes its partial file. |
| Sync.NotStartedKeepsFile | Services/FtpManager.cs:289-311 | A transfer cancelled before it started cancels the run. It leaves every file as it was and counts nothing. If its directories were not made yet, the whole disk is unchanged. |
| Sync.RunFiles | Services/FtpManager.cs:286-337 | After the run, every file either existed before or was a target. |
| Sync.CollectedFileSurvives | Services/FtpManager.cs:522-547 | The orphan scan never deletes a file the cache expects. |
| Sync.SyncLeavesNoOrphans | Services/FtpManager.cs:262-351 | After a sync, no orphan remains beneath the destination. |
| Sync.ScheduledDistinct | Services/FtpManager.cs:275-277 | Scheduling keeps targets distinct. |
| Sync.AllCompletedPresent | Services/FtpManager.cs:311-312 | When every transfer completes, each target exists with its length. |
| Sync.UpToDateKept | Services/FtpManager.cs:797-809 | An up-to-date file is neither deleted nor rewritten. |
| Sync.SyncedFile | Services/FtpManager.cs:262-351 | After a fully completed sync, every expected file exists with its remote size. |
| Sync.SyncLeavesNothingToDo | Services/FtpManager.cs:262-351 | After a fully completed sync, a second sync schedules nothing. |
| Cache.ConvertCacheToCachedData | Services/FtpManager.cs:166-183 | Converts every listing into saved form. |
| Cache.ConvertCachedDataToCache | Services/FtpManager.cs:147-164 | Converts every saved listing back. |
| Cache.CachedRoundTrip | Services/FtpManager.cs:147-183 | Saving and loading a cache gives it back. |
| Cache.StoredRoundTrip | Services/FtpManager.cs:147-183 | Loading and saving a record's data gives it back. |
| Cache.CountFilesSpec | Services/FtpManager.cs:136 | The saved file count of a listing is its number of files. |
| Cache.ComputeTotals | Services/FtpManager.cs:136-138 | The totals are the record's file count, directory count and byte size. |
| Cache.MergeInto | Services/FtpManager.cs:1271-1277 | The merge holds the keys of both maps. The new listings win, and saved ones are kept elsewhere. |
| Cache.MergeIsOverride | Services/FtpManager.cs:1271-1277 | The merge is the saved map overridden by the new scan. |
| Cache.MergedTotals | Services/FtpManager.cs:1280-1282 | The merged totals are the new scan's plus those of the saved paths it did not rescan. |
| Cache.NewRecord | Services/FtpManager.cs:128-139 | A new record expires one hour after `now`, carries its own totals, and has not expired. |
| Cache.CacheStore.Load | Services/FtpManager.cs:1083 | Returns the record filed under the id, if there is one. |
| Cache.CacheStore.Save | Services/FtpManager.cs:141 | Files the record under its id. A consistent record keeps the store valid. |
| Cache.CacheStore.constructor | Services/FtpManager.cs:33 | The store starts empty. |
| Cache.BrowseFromCache | Services/FtpManager.cs:1092-1103 | Lists the saved entries other than `.` and `..`. |
| Cache.BrowseLive | Services/FtpManager.cs:1125-1138 | Lists the live entries other than `.` and `..`, with paths under the browsed one. |
| Cache.BrowsedListAnswers | Services/FtpManager.cs:1178-1185 | The saved browse list later answers exactly as the live browse did. |
| Cache.BrowseHidesDots | Services/FtpManager.cs:1092-1185 | No browse list shows `.` or `..`. |
| Cache.BrowseDirectory | Services/FtpManager.cs:1074-1216 | A hit answers from the record and saves nothing. Otherwise the browse lists live entries. With an id, it merges the browsed path into the unexpired record, or starts a record named `Repository_<id>`. |
| Cache.BrowseAgainHits | Services/FtpManager.cs:1081-1106 | A browse saved at `now` is answered from the cache until it expires, with the same items. |
| Folder.BuildAndSaveCache | Services/FtpManager.cs:122-145 | Scans the whole repository from `/` and saves it as a fresh, consistent record. A scan cancelled by the token saves nothing; a fired token always cancels, a token never cancelled never does. |
| Folder.ChooseRepositoryCache | Services/FtpManager.cs:58-87 | Reuses the saved record unless a refresh is forced or the record is invalid. Otherwise it scans and saves, unless the token cancels the scan, in which case nothing is saved. |
| Folder.ChooseFolderCache | Services/FtpManager.cs:1238-1349 | Reuses a record only when it covers the folder's whole tree. Otherwise it scans and saves: merged into an unexpired record, or as a new `Unknown` record. The token is checked first and after each scan; a cancellation saves nothing. |
| Folder.RescanAndMerge | Services/FtpManager.cs:1259-1300 | Scans the folder and merges the scan into the saved record. A cancellation during or right after the scan saves nothing. |
| Folder.ScanAndSaveNew | Services/FtpManager.cs:1302-1336 | Scans the folder and saves a new record named `Unknown`. A cancellation during or right after the scan saves nothing. |
| Folder.IsClosed | Services/FtpManager.cs:1244-1258 | Decides whether a saved record lists every subdirectory it names. |
| Folder.ReusedCachePlansLikeAScan | Services/FtpManager.cs:1244-1258 | A reused closed record plans the same downloads and deletions as a fresh scan. |
| Folder.BrowsedRecordReused | Services/FtpManager.cs:1248-1258 | A record that holds only the browsed folder passes the source's reuse test, but not the corrected one. |
| Folder.BrowsedCollectsNothing | Services/FtpManager.cs:353-374 | Such a record collects no file beneath the folder. |
| Folder.ScannedCollectsFile | Services/FtpManager.cs:353-374 | A scan of the same folder collects the file. |
| Folder.MirrorUpToDate | Services/FtpManager.cs:797-809 | The example's local file is up to date. |
| Folder.AsWrittenDeletesUpToDateFile | Services/FtpManager.cs:1248-1258 | Under the source's test, the up-to-date file is deleted as an orphan. A scan keeps it. |
| Mods.ModManager.constructor | ModManager.cs:11-12 | Both lists start empty. |
| Mods.ModManager.AddMod | ModManager.cs:16-22 | Appends a mod that is not yet listed, and leaves the list distinct. |
| Mods.ModManager.RemoveMod | ModManager.cs:24-30 | Removes the mod, which is then absent. |
| Mods.ModManager.AddStartupMod | ModManager.cs:32-38 | Appends a startup mod that is not yet listed. It is then listed. |
| Mods.RemoveFirstAt | ModManager.cs:24-30 | `List.Remove` cuts out the first occurrence. |
| Mods.RemoveFirstDistinct | ModManager.cs:24-30 | On a distinct list, removing leaves exactly the other mods, still distinct. |
| Mods.NearestModTag | ModManager.cs:120-141 | Whatever is found names a mod folder, one whose name starts with `@`. |
| Mods.NearestModTagSpec | ModManager.cs:120-141 | Finds the nearest ancestor that names a mod folder. Without one, nothing is found. |
| Mods.FindModStartDirectory | ModManager.cs:120-141 | Returns a mod folder itself. Otherwise it returns its nearest `@` ancestor, or the folder when it has none. |
| LegacyLaunch.LaunchParametersManager.constructor | LaunchParametersManager.cs:13-24 | Registers the nine switches, all off, with no mods. |
| LegacyLaunch.LaunchParametersManager.SetParameter | LaunchParametersManager.cs:26-33 | Changes a registered switch and signals the change. An unknown name changes nothing. |
| LegacyLaunch.LaunchParametersManager.UpdateModsList | LaunchParametersManager.cs:35-40 | Replaces the mods and signals the change. |
| LegacyLaunch.LaunchParametersManager.GetParametersList | LaunchParametersManager.cs:42-57 | Lists the enabled switches, then one `-mod=` per mod. |
| LegacyLaunch.LaunchParametersManager.GetParametersString | LaunchParametersManager.cs:59-62 | Joins that list with spaces. |
| LegacyLaunch.EnabledSpec | LaunchParametersManager.cs:45-51 | A switch is listed iff it is registered and on. |
| LegacyLaunch.EnabledArguments | LaunchParametersManager.cs:45-51 | Prefixes each enabled switch with `-`. |
| LegacyLaunch.PrefixAll | LaunchParametersManager.cs:52-55 | Prefixes each mod path. |
| LegacyLaunch.FlagNamesDistinct | LaunchParametersManager.cs:13-24 | The nine switch names are distinct. |
| LegacyLaunch.ParametersListShape | LaunchParametersManager.cs:42-57 | The list is the enabled `-switch`es followed by `-mod=<path>` for each mod, in order. |
| LegacyLaunch.SplitJoinedArguments | LaunchParametersManager.cs:59-62 | Space-free arguments split back out of the string. |
| Launch.LaunchParametersManager.constructor | Services/LaunchParametersManager.cs:26-36 | Starts from the saved options with no mods. |
| Launch.LaunchParametersManager.UpdateModsList | Services/LaunchParametersManager.cs:63-68 | Replaces the mods and signals the change. |
| Launch.LaunchParametersManager.GetParametersString | Services/LaunchParametersManager.cs:70-188 | The options, custom lines and mods, joined with CRLF. |
| Launch.AddCustomLines | Services/LaunchParametersManager.cs:160-178 | Appends one argument per non-blank custom line. |
| Launch.SwitchArgumentsSpec | Services/LaunchParametersManager.cs:89-148 | `-window` and `-noWindowBorder` are among the options iff windowed mode is on. Each of the eleven plain switches (`SwitchName`/`SwitchOn` pair each argument with its option) is among the options iff its option is on. |
| Launch.SwitchListed | Services/LaunchParametersManager.cs:95-148 | A switch's argument is among the switch arguments iff the switch is on, and never among the window arguments. |
| Launch.WindowListed | Services/LaunchParametersManager.cs:89-93 | Each window argument is among the options iff windowed mode is on. |
| Launch.SwitchesOnMember | Services/LaunchParametersManager.cs:95-148 | An argument is among the emitted switches iff it names a switch of the list that is on. |
| Launch.OptionArgumentsSpec | Services/LaunchParametersManager.cs:74-87 | Each path option is emitted, quoted, iff it is not blank. The mission is emitted only when it is used. |
| Launch.WindowedPair | Services/LaunchParametersManager.cs:89-93 | Windowed mode emits `-window` directly followed by `-noWindowBorder`. |
| Launch.CustomArgumentsShape | Services/LaunchParametersManager.cs:160-178 | Each custom argument is trimmed, starts with `-`, and holds no line break. |
| Launch.CustomLinesKeep | Services/LaunchParametersManager.cs:160-178 | Lines that are already trimmed and dashed pass through unchanged. |
| Launch.CustomArgumentsIdempotent | Services/LaunchParametersManager.cs:160-178 | Normalising custom parameters twice is the same as once. |
| Launch.ModArgumentLists | Services/LaunchParametersManager.cs:180-185 | One quoted `-mod=` argument whose `;`-separated parts are the mod paths. |

## Left out

- Network I/O is not modelled: connections, credentials, passive mode and timeouts. `TestConnection` is left out because it only opens a connection.
- Concurrency is not modelled. The parallel downloads under the semaphore run sequentially, in order. Each file's outcome is a parameter.
- Sync.Transfer: a transfer cancelled before it started to a blocked path leaves the disk unchanged. In the source, a file where a parent directory should be makes `Directory.CreateDirectory` fail before the cancellation is seen, so that transfer fails instead.
- Text.Lower: only ASCII A-Z are lowered, the same in every culture. .NET `ToLower` uses the current culture and lowers non-ASCII letters too. Under a Turkish culture, `SIZE` becomes `sıze` (dotless i), so the MLSD `size` fact would not be recognised. The model does not capture culture-dependent lowering.
- Local.Fold: only ASCII letters are folded. `StringComparer.OrdinalIgnoreCase` also folds non-ASCII letters by their simple upper-case mapping, so the model keys `É` and `é` apart where the source treats them as one.
- Listing.ProbeAll: the probed entries come out in NLST name order. The source probes in parallel into a `ConcurrentBag`, whose order is unspecified. The model fixes one order.
- Listing.NlstFallback: states `items[i].name == names[i]`, the name order `Listing.ProbeAll` fixes. The source promises only the same entries in some order.
- Local.Child: `Path.Combine(dest, name)` is modelled as appending one segment. `Planner.CollectFilesToDownload`, `Planner.BuildExpectedFileSet`, `Sync.FtpManager.DeleteOrphanedFiles` and `Sync.FtpManager.DownloadDirectoryFromCache` therefore require every cached name to be plain (`Planner.PlainNames`). A remote name with a separator, a drive colon or a `..` segment is outside the sync model. `Local.Combine` models what the source does with such a name (see Findings).
- The MLSD branch is modelled as a server's answer. In .NET, `FtpWebRequest.Method` accepts only the commands of `WebRequestMethods.Ftp`, so setting it to `MLSD` throws. The `catch` then falls through to LIST, and the MLSD parser is never reached at run time. `Listing.FirstDialectWins` holds for the chain as the code intends.
- The clock is one reading `now` per call. Date parsing (`DateTime.TryParse`, `TryParseExact`) is the pair of functions `Listing.Dates`.
- The cache manager's persistence is not modelled. The record map of `Cache.CacheStore` stands for the saved files.
- Record expiry is modelled as `expiresAt <= now`; the cache manager is not part of this model.
- `IsValidForRepository` is a boolean parameter, and the snapshot fingerprint (SHA-256 of host, port and user) is a string parameter.
- `FormatFileSize`, `FormatAge`, progress messages and logging are left out. They produce text only.
- `DownloadDirectory` is not modelled. It is the older recursive download that the cache-driven path replaced.
- `CacheAllRepositoriesAsync`, `RefreshCacheForRepositoryAsync`, `SetCacheLifetime` and the cache-info wrappers are left out. They only repeat `BuildAndSaveCache` or forward to the cache manager.
- The WPF windows and the settings and repository managers are not part of this model.
- `File.Exists` is case-sensitive in the model, whereas Windows matches case-insensitively. Only the expected sets fold case, as the source's ignore-case sets do.
- Sync.RunCount: counters are unbounded integers; the 32-bit `int` wrap-around of the counters is not modelled.
- Cache.ComputeTotals: sums are unbounded; the 64-bit `long` overflow of the size total is not modelled.
- A failing `Directory.Delete` or `File.Delete` (file in use) is an `undeletable` set of files only. Directory removal is assumed to succeed.
- `Dictionary` enumeration order is not modelled. The cache is a map, and the order of the directory walks over it does not matter to the results proved.
- LegacyLaunch.LaunchParametersManager.GetParametersList: the dictionary is assumed to enumerate in insertion order. No key is ever removed, so this is the order of the nine constructor calls.
- Planner.CollectFilesToDownload: the source recurses through subdirectories without a bound. The model requires a rank that strictly decreases from each cached directory to its subdirectories, which rules out a cyclic cache. A cache whose subdirectory entry leads back to a path above it sends the source into unbounded recursion (a stack overflow). The model does not capture that.
- Planner.BuildExpectedFileSet and Sync.FtpManager.DownloadDirectoryFromCache carry the same rank requirement.
- The cache choice and `DownloadDirectoryFromCache` are specified separately. Nothing composes them into one `DownloadRepositoryAsync` or `DownloadFolderAsync` method, because the rank is a ghost witness.
- The counter reset at the start of `DownloadRepositoryAsync` is not modelled.
- A malformed URI in `BrowseDirectoryAsync` (a `UriFormatException`) is not modelled. Paths are strings.
- `Models/LaunchParameters.cs` is not part of this model. Its options are the record `Launch.LaunchParameters`, and a `null` string is modelled as an empty one.
- Where the source checks the token more than once in a row with nothing between (the check, then `semaphore.Wait(token)` in the scan), the model makes one check. The token decides only where the first check that fires lies, not when the user presses cancel.
- Sync.FtpManager.DownloadAll: the transfers' `outcomes` are parameters and are not tied to the token; a cancellation while the transfers run is an outcome `Cancelled`.
- Sync.FtpManager.ScanAndDeleteOrphanedFiles: a directory whose `GetFiles` or `GetDirectories` throws (the `unreadable` set) stops the walk with an exception before it deletes anything there. A `GetDirectories` that throws after the files were deleted, and a failing `GetFiles` in the last loop (which the source catches and reports), are not modelled.
- Paths.GetFileName: on a bare UNC root such as `\\server\share`, .NET returns the empty name, since the share is part of the root; the model returns `share`. The source asks for file names only in progress messages, of files and directories beneath a destination.
- Launch.AddCustomLines, Launch.LaunchParametersManager.GetParametersString and Launch.CustomArgumentsShape: the test for a leading `-` on a custom line is modelled as an ordinal prefix test. The source's `trimmed.StartsWith("-")` is the culture-sensitive overload, which skips characters the culture ignores (such as the soft hyphen U+00AD, which `Trim` keeps). A line such as U+00AD followed by `-nosplash` passes the source's test and is emitted unchanged, so the source emits an argument that does not start with `-`; the model emits it with a `-` prefixed. Culture-ignorable characters before the `-` are not captured.
- Folder.ChooseFolderCache follows the corrected reuse test (see Findings), not the one in the source. The test as written is `Folder.ReusesCacheAsWritten`.

## Findings

| source | as written | input that shows it | evidently intended | confidence | as-written member | corrected member |
|---|---|---|---|---|---|---|
| Services/FtpManager.cs:1248-1258 | `DownloadFolderAsync` reuses a record whenever it has not expired and holds the requested folder's path. | A browse of `/mods` saves a record holding only `/mods` (listing `@cba`). A folder download of `/mods` then reuses it. `@cba` has no listing, so no file is collected or expected beneath it, and the orphan scan deletes the up-to-date `@cba\cba.pbo`. | A partial record must not drive deletion. Reuse a record only when it lists every subdirectory it names beneath the folder; otherwise rescan. | not executed | Folder.AsWrittenDeletesUpToDateFile | Folder.ReusedCachePlansLikeAScan |
| Services/FtpManager.cs:364-371 | `CollectFilesToDownload` passes each remote name unchecked to `Path.Combine`, and `BuildExpectedFileSet` does the same at lines 560-567. | A server lists a file named `..\..\x.dll` under `/mods`. With destination `C:\Games\Arma 3\mods`, it is written to `C:\Games\x.dll`, outside the destination. Also, a remote file `a\b` beside a directory `a` holding `b` maps both to `mods\a\b`. | Every remote file lands in a file of its own inside the destination. A name with a separator, a drive colon or a `..` segment is rejected. | not executed | Local.CombineEscapes | Planner.CollectedInside |
