# Minecraft modpack sync, modelled in Dafny

This project models two programs that keep a player's Minecraft folder in step with a modpack on a server.

The **server** (`server/main.py`, class `ModManager` and the `download_file` endpoint) works from a directory tree `modpacks/<name>/{mods,resourcepacks}`. It answers three kinds of request:
- the list of modpacks;
- the manifest of one modpack: the `.jar` files under `mods` and every entry under `resourcepacks`;
- one file of a modpack.

The **client** (`client/main.py`, `ModSyncWorker.run`) fetches the manifest and then works through each category:
- It quarantines every unmarked local `.jar` mod and every unmarked local resource pack that the server does not list, by appending `_` to its name. Names that already end in `_` are left alone.
- It downloads each listed file it lacks, one after the other.
- After every successful download it emits a progress percentage.
- At the end it reports "up to date", "done" or an error.

Modules:
- `Names` (names.dfy): the two categories, the `.jar` test, and the `_` quarantine marker.
- `ModManager` (mod_manager.dfy): the server's functions over a directory tree. A directory is a list of entries in `os.listdir` order, and a path is resolved one component at a time.
- `SyncSpec` (sync_spec.dfy): the client run as a reference function.
  - `Sync(local, env, trace)` gives the final directories, the file-system operations in order (renames and writes), the emitted signals, `files_processed`, and whether an exception was raised.
  - `env` supplies everything the run learns from outside: the manifest, which renames raise, and what each download returns.
  - Python visits a set in an order of its own choosing; that order is the `trace`.
- `SyncFolds` (sync_folds.dfy): inductive lemmas about the rename and download loops.
- `SyncProperties` (sync_properties.dfy): whole-run properties. Each holds for every valid visiting order.
- `SyncWorker` (sync_worker.dfy): the class `ModSyncWorker`. `Run` performs the run step by step, with while loops over the sets. It is proved to leave exactly the directories, operations and signals that `Sync` describes for the order its loops took.
- `System` (system.dfy): the client connected to the server. The manifest is `GetModpackInfo` of the server's tree, and each download is answered by `download_file`. This module holds the finding below and an end-to-end convergence theorem.

Four behaviours of the code that the model keeps as written:
- A rename that raises ends the whole run, because one `try` (client/main.py:22) covers both rename loops.
- A download with a status other than 200 is skipped silently (client/main.py:79).
- The progress value is truncated by `int(...)` (client/main.py:83).
- A request for an unknown modpack returns an empty manifest, not an error (server/main.py:31-44). The client then quarantines every unmarked local `.jar` mod and every unmarked local resource pack (`System.UnknownModpackQuarantinesAll`).

## Model

| member | source | states |
|---|---|---|
| Names.Mark | client/main.py:44 | quarantining appends `_`: the new name is one character longer, starts with the whole old name, ends in `_` and is not a `.jar` |
| Names.MarkInjective | client/main.py:44 | two different files never quarantine to the same name |
| Names.MarkAll | client/main.py:41-45 | the result holds exactly the quarantined names of the files in the set, and every one ends in `_` |
| ModManager.Listing | server/main.py:22 | `os.listdir` gives one name per entry, in entry order |
| ModManager.Child | server/main.py:23 | a name resolves inside a directory exactly when the directory lists it, and it resolves to the node of the first entry with that name |
| ModManager.Filter | server/main.py:35 | the comprehension keeps exactly the listed names that pass the test, and no more of them |
| ModManager.GetModpackList | server/main.py:20-23 | the modpack list holds exactly the entries of `modpacks` that are directories |
| ModManager.ListCategory | server/main.py:34-38 | a missing category directory gives an empty list; a file in its place is an error, because `listdir` raises; otherwise the list is the filtered listing |
| ModManager.GetModpackInfo | server/main.py:25-44 | the manifest keeps the requested name; its mods are exactly the `.jar` names under `mods`; its resource packs are the whole listing; a missing directory gives `[]`; an unknown modpack gives an empty manifest; an error happens exactly when a category path is a file |
| ModManager.DownloadFile | server/main.py:58-66 | as written: the file is returned exactly when the path is a regular file; a missing path gives the error body with status 200; a directory makes `FileResponse` fail, so the answer is 500 |
| ModManager.DownloadFileFixed | server/main.py:58-66 | corrected: status 200 with the file exactly when the path is a regular file; a missing path gives 404 with the error body; a directory gives 500 |
| ModManager.ListedNamesExist | server/main.py:34-38 | every name a manifest lists exists at `modpacks/<name>/<category>/<file>` |
| ModManager.LookupAppend | server/main.py:62 | resolving `path + [f]` is looking up `f` in the directory at `path` |
| SyncSpec.Catalog.Put | client/main.py:45 | changing one category's directory leaves the other unchanged |
| SyncSpec.Inventory | client/main.py:38 | the local mods inventory holds exactly the `.jar` names; the resource-pack inventory is the whole listing |
| SyncSpec.ToQuarantine | client/main.py:41-42 | the files to rename lie within the local inventory, are not wanted by the server and are not already marked, and every such inventory file is among them |
| SyncSpec.ToFetch | client/main.py:48 | the download set is exactly the server's set minus the inventory, and it is disjoint from the set to quarantine |
| SyncFolds.RenamesFrame | client/main.py:41-60 | a rename loop emits nothing, counts nothing and leaves the other directory alone; once an exception is raised it changes nothing |
| SyncFolds.RenamesOps | client/main.py:41-60 | a rename loop only appends renames of unmarked visited names; unvisited files stay; new names are marked |
| SyncFolds.RenamesAbort | client/main.py:45 | a rename loop stops exactly when the rename of an unmarked visited name raises |
| SyncFolds.RenamesComplete | client/main.py:41-60 | a rename loop that finishes replaces each unmarked visited name by its marked name |
| SyncFolds.RenamesCompleteOps | client/main.py:41-60 | a finished rename loop renames exactly the unmarked visited names |
| SyncFolds.FetchesEffect | client/main.py:73-96 | a download loop only adds visited names to its own directory, appends only writes of successful downloads, and emits only announcements and percentages |
| SyncFolds.FetchesAbort | client/main.py:75-81 | a download loop stops exactly when a visited download raises |
| SyncFolds.FetchesCount | client/main.py:79-82 | `files_processed` grows by at most the number of successful downloads, and by exactly that number when none raised |
| SyncFolds.FetchesComplete | client/main.py:79-81 | a finished download loop adds and writes exactly the names whose download succeeded |
| SyncFolds.PercentMonotone | client/main.py:83 | the percentage never decreases as `files_processed` grows |
| SyncFolds.PercentFull | client/main.py:83 | the percentage is at most 100, and is 100 exactly when every file was processed |
| SyncFolds.FetchesProgress | client/main.py:79-96 | the percentages emitted so far are sorted, bounded by the current one, and end with it |
| SyncProperties.QuarantineShape | client/main.py:36-64 | the rename phase emits nothing and performs only renames of visited, unmarked names |
| SyncProperties.RunShape | client/main.py:72-99 | after the rename phase the run only writes successfully downloaded files from the download sets, and nothing after an exception in the rename phase |
| SyncProperties.QuarantineExact | client/main.py:36-64 | a rename phase that completes turns each directory into (local minus the files to quarantine) plus their marked names, and renames exactly those files |
| SyncProperties.QuarantineRenamesExactly | client/main.py:41-60 | when no rename raised, a file is renamed exactly when it is unwanted and unmarked; afterwards it is gone and its marked name is present |
| SyncProperties.KeptFilesUntouched | client/main.py:41-63 | a local file the server wants is neither renamed nor downloaded, and it is still there afterwards |
| SyncProperties.RenamesPrecedeWrites | client/main.py:41-96 | every rename comes before every write |
| SyncProperties.NothingToDownload | client/main.py:66-70 | when no rename raised and nothing is missing, the run emits exactly "up to date", 100 and finished, and writes nothing |
| SyncProperties.InSyncIsNoop | client/main.py:33-70 | when the inventory already equals the manifest, the run changes nothing and reports 100 at once |
| SyncProperties.FinishedIffNoError | client/main.py:98-102 | `finished` is emitted exactly when no exception was raised; a run ends with finished or with the error status |
| SyncProperties.QuarantineAborts | client/main.py:41-60 | the rename phase stops exactly when a rename it must make raises |
| SyncProperties.DownloadsAbort | client/main.py:73-96 | the download phase stops exactly when a download it must make raises |
| SyncProperties.AbortsExactlyOnException | client/main.py:22-102 | the run fails exactly when the manifest request fails, a needed rename raises or a needed download raises |
| SyncProperties.DownloadCount | client/main.py:79-96 | `files_processed` is at most the number of successful downloads, which is at most `total_files`, and equal to it when nothing raised |
| SyncProperties.ProgressSortedAndBounded | client/main.py:66-96 | the emitted percentages never decrease and stay within 0..100 |
| SyncProperties.WroteAll | client/main.py:73-81 | a run without exceptions and without failed downloads writes every file of both download sets |
| SyncProperties.UnfetchedNeverWritten | client/main.py:79-83 | a file whose download does not succeed is never written, and 100 is never reported |
| SyncProperties.FullProgressOnlyWhenAllFetched | client/main.py:79-96 | 100 is emitted only if every missing file downloaded with status 200 |
| SyncProperties.AllFetchedReachesFull | client/main.py:66-99 | if nothing raises and every download succeeds, the run ends with finished and its last percentage is 100 |
| SyncProperties.QuarantineIdempotent | client/main.py:41-60 | after a completed rename phase, the resulting directories hold nothing further to quarantine |
| SyncProperties.AllMarkedRenamesNothing | client/main.py:42 | a rename loop that visits only names ending in `_` changes nothing |
| SyncProperties.NothingToQuarantineRenamesNothing | client/main.py:41-60 | a run from directories holding nothing to quarantine performs only writes |
| SyncProperties.SecondRunRenamesNothing | client/main.py:41-60 | after a first run whose renames all completed, a second run against the same manifest performs no rename at all |
| SyncProperties.DownloadedAll | client/main.py:73-96 | a run without exceptions and without failed downloads has every missing file on disk afterwards |
| SyncProperties.Converges | client/main.py:36-99 | for a manifest whose mods all end in `.jar`, after a run without exceptions and without failed downloads a fresh classification finds nothing to download and nothing to quarantine; a mod name without `.jar` never enters the inventory, so it would be downloaded again on every run |
| SyncProperties.SingletonOrder | client/main.py:41 | the only complete visiting order of a one-element set is that element |
| SyncProperties.DistinctCard | client/main.py:41 | a visiting order without repeats is no longer than its set |
| SyncProperties.ExampleClassify | client/main.py:37-64 | manifest mods {A.jar, B.jar} against local {B.jar, C.jar}: quarantine {C.jar}, download {A.jar}, one file in total |
| SyncProperties.ExampleTrace | client/main.py:41-96 | in that example the loops can only rename C.jar and download A.jar |
| SyncProperties.ExampleRun | client/main.py:21-99 | in that example the mods directory ends as {A.jar, B.jar, C.jar_}, with the rename before the write, and the signals are: downloading A.jar, 100, done, finished |
| SyncWorker.ModSyncWorker.constructor | client/main.py:16-19 | the worker keeps the modpack name and the Minecraft path, and starts from the given directories with no operations and no signals |
| SyncWorker.ModSyncWorker.RenameUnwanted | client/main.py:41-45 | the rename loop leaves the state of `Renames` for its visiting order, which is a valid enumeration of the unwanted set |
| SyncWorker.ModSyncWorker.DownloadOne | client/main.py:74-83 | one iteration of a download loop: the announcement, and on status 200 the write, the count and the truncated percentage, exactly as `FetchStep`; a raised request stops the loop |
| SyncWorker.ModSyncWorker.DownloadMissing | client/main.py:73-83 | the download loop leaves the state of `Fetches` for its visiting order, including `files_processed` |
| SyncWorker.ModSyncWorker.QuarantineBoth | client/main.py:36-63 | both rename loops, plus the download sets of both categories computed from the listings taken before the renames |
| SyncWorker.ModSyncWorker.DownloadBoth | client/main.py:72-96 | both download loops, sharing `total_files` and `files_processed` |
| SyncWorker.ModSyncWorker.DownloadAndReport | client/main.py:72-102 | with at least one file to download: both download loops, then "done" and finished, or the error status if a download raised, as `Sync` describes |
| SyncWorker.ModSyncWorker.CountAndDownload | client/main.py:64-70 | the count of files to download: with none, the up-to-date short cut; otherwise the downloads and the report, as `Sync` describes |
| SyncWorker.ModSyncWorker.Run | client/main.py:21-102 | the run's directories, operations and signals are exactly those of `Sync` for the order its loops took |
| SyncWorker.QuarantineFailedRun | client/main.py:101-102 | a rename that raises ends the run with the error status |
| SyncWorker.UpToDateRun | client/main.py:66-70 | with nothing to download the run appends "up to date", 100 and finished |
| SyncWorker.DownloadingRun | client/main.py:72-102 | after the downloads the run appends "done" and finished, or the error status if a download raised |
| System.Elements | client/main.py:37 | `set(...)` of a list holds exactly its elements |
| System.ManifestOf | client/main.py:24-25 | the client receives a manifest exactly when the server builds one; its sets hold exactly the manifest's lists |
| System.ClientFetch | client/main.py:79 | the client counts a download as successful exactly when the status is 200 |
| System.Download | server/main.py:64-66 | a download that does not raise succeeds, with the corrected endpoint, exactly when the path is a regular file, and as written exactly when it is not a directory |
| System.ServerEnv | client/main.py:24 | the client's environment: a manifest arrives exactly when the server builds one, with exactly its lists; a request that raises gives an exception; one that does not succeeds, with the corrected endpoint, exactly for a regular file, and as written for anything but a directory |
| System.MissingFileIsWritten | server/main.py:66 | as written, a request for a missing file counts as a successful download, and its body is the error message |
| System.AsWrittenRunReportsSuccess | server/main.py:64-66 | as written, a run in which no rename and no request raises, with at least one file to download, against a server whose files have all gone reports 100 and finished, and writes a file the server does not have |
| System.FixedFullProgressOnlyWhenServed | server/main.py:64-66 | with the corrected endpoint, 100 is reported only if every file to download is a regular file on the server |
| System.FolderNeverDownloads | server/main.py:64-65 | a name the client lacks that is a directory on the server is never written by the client, and 100 is never reported, with either endpoint |
| System.ListedFilesDownload | server/main.py:34-38 | with an unchanged tree, a file the manifest lists downloads successfully, with either endpoint, exactly when it is a regular file |
| System.SyncConverges | client/main.py:21-99 | against an unchanged server whose listed names are all regular files, a run in which nothing raises ends with finished at 100 and leaves nothing to download and nothing to quarantine |
| System.UnknownModpackQuarantinesAll | server/main.py:31-44 | a non-empty modpack name the server does not have gives an empty manifest, so when no rename raises every unmarked local `.jar` mod and every unmarked local resource pack is quarantined |

## Left out

- The Qt window, its widgets and file dialog (client/main.py:104-177) are not modelled. `QThread` and the delivery of `Signal`s across threads are not modelled either; the signals are an ordered event log.
- HTTP, `SERVER_URL`, the FastAPI routing and `uvicorn` are not modelled. The manifest request is `System.ManifestOf`, or an `Option` when the client is considered on its own. Each download is a per-file outcome: status 200, another status, or an exception.
- File contents and bytes are not modelled. A successful write adds the name to its directory. A write that raises counts as an exception; any partly written file it leaves is not modelled.
- `os.makedirs` (client/main.py:30-31, server/main.py:18) is not modelled. Both client directories are assumed to exist.
- `Percent` uses integer `processed * 100 / total`. Python's `int(processed / total * 100)` goes through floating point and can come out one lower, for example 28 for 29 of 100.
- `ManifestOf`: an empty modpack name makes the manifest request `GET /modpack/`, which matches no route, and the client then fails on the missing `mods` key (client/main.py:37). The model gives the empty manifest of an unknown modpack instead, so `UnknownModpackQuarantinesAll` is stated for non-empty names only.
- Status and error texts are not modelled; only their kind and order are kept.
- `RenameStep` gives renames set semantics. A rename onto an existing `x_` replaces it, as POSIX `rename` does. Other platforms may raise instead.
- File names are single path components. Path traversal through `..` or separators in a name is not modelled.
- `DownloadFile`: the failure of `FileResponse` on a directory is modelled only as its outcome, status 500 with an error body; the framework's exception handling is not modelled.
- `Download`: the client puts names into the URL without encoding them (client/main.py:76), so a modpack or file name holding `#`, `?` or `/` reaches the server altered or cut short. The model sends every name whole.
- `ModManager.__init__` and the `/modpacks` route only wire things up, and are not modelled beyond `GetModpackList`.

## Findings

| source | as written | input that shows it | evidently intended | confidence | as-written member | corrected member |
|---|---|---|---|---|---|---|
| server/main.py:66 | `download_file` returns `{"error": "File not found"}`, which FastAPI sends with status 200. The client treats status 200 as success (client/main.py:79): it writes the error text to disk as the mod and counts it toward progress | `GET /download/pack/mods/A.jar` after `A.jar` was removed from the server between the manifest request and the download | answer a missing file with status 404, so the client skips it and never reports 100 for files it did not get | not executed | System.AsWrittenRunReportsSuccess | System.FixedFullProgressOnlyWhenServed |
