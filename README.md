# GoLoad download controller and list state, in Dafny

This project models the logic of GoLoad, a desktop download manager written in Go. The model covers:

- **The download controller** (`internal/downloader/downloader.go`). `Download` splits a file into progress chunks and runs the copy loop, which checks the cancel signal, then the pause flag, then copies one 32 KiB block and updates the chunk table. The controller keeps the per-URL `pausedDownloads`, `cancelDownloads` and `activeDownloads` structures, which Pause, Resume, Cancel and Delete change. `ProgressReader` counts the bytes that pass through it, and `DownloadMultiple` runs a batch of downloads.
- **The download list** (`internal/ui/download_list.go`). This is a map from URL to a shared item record plus the append-only `allDownloads` sequence. It also has:
  - the pause/resume toggle and the button that follows the status;
  - progress and status updates;
  - the filter that rebuilds the visible container;
  - removal, and the confirm callback of a delete.
- **The UI glue** (`internal/ui/ui.go`):
  - batch entry, which splits the text into lines, trims and validates them, lists the valid ones as pending, downloads them and tallies the results;
  - the guards of the settings save callback;
  - the language select callback;
  - the UI's own `updateDownloadStatus`.
- **Pure helpers.** These are the unit selection of `formatSize` and the `formatStatus` switch (`internal/ui/details_panel.go`), and the translation tables with `T` and `SetLanguage` (`internal/ui/localization.go`).

Everything runs sequentially. HTTP, the file system and `io.CopyN` are replaced by an `Environment` value that says:

- what the HEAD and GET requests answer;
- whether the directory and the file can be created;
- what each iteration of the copy loop sees.

Each lifecycle callback (`OnDownloadAdded`, `OnPause`, `OnResume`, `OnCancel`, `OnDeleted`, `OnComplete`, `OnError`, progress reports) is recorded as an event in a ghost trace. The error the callback returns is a parameter of the operation.

Behaviours of the code that a reader might not expect, which the model keeps:

- **Chunk update.** The update compares the running byte count with each chunk's *own* size, not with the offset at which the chunk starts. So after 450,000 of 1,000,000 bytes in five chunks, every chunk is complete (`Chunks.FiveChunksAfterFourHundredFiftyThousand`).
- **Cancel entry.** `Download` never removes its `cancelDownloads` entry when it ends. `CancelDownload` closes the channel but leaves the entry in place.
- **Unknown length.** A server that sends no length (`ContentLength` −1), or a length of 0, ends the copy loop after its first copy.
- **French from an English dialog.** Choosing "French" in an English settings dialog switches the language at once, in the select callback. The save callback then compares the option text with the French label of the *new* language ("Français"), stores "en" and switches back to English (`UI.FrenchChosenInEnglishStoresEnglish`).
- **The UI's own map.** The `downloads` map of the UI itself is never filled by the program. It is modelled as its own map anyway.

## Model

| member | source | states |
|---|---|---|
| Common.TruncDiv | internal/downloader/downloader.go:128 | Go's `/` for a positive divisor truncates toward zero. A non-negative dividend leaves a remainder in [0, b) with a non-negative quotient. A negative dividend leaves a remainder in (−b, 0]. |
| Chunks.InitialChunks | internal/downloader/downloader.go:127-138 | The chunk table a transfer starts with: n chunks, ids 1..n, progress 0, the truncated quotient as size except for the last, which takes the rest. Its properties are proved by `InitialChunksSumToTotal`, `InitialChunksShape` and `InitialChunksBounded`. |
| Chunks.NewChunks | internal/downloader/downloader.go:127-138 | The array built slot by slot, with the last size then overwritten, equals `InitialChunks(totalSize, maxChunks)`. At least one chunk is required, since zero divides by zero. |
| Chunks.InitialChunksSumToTotal | internal/downloader/downloader.go:127-138 | The initial chunk sizes add up exactly to the total size, whatever its sign. |
| Chunks.InitialChunksShape | internal/downloader/downloader.go:127-138 | Ids run from 1 to n and every progress is 0. The first n−1 sizes are the truncated quotient. For a non-negative total, the last size lies in [q, q+n) and no size is negative. |
| Chunks.LastChunkBounds | internal/downloader/downloader.go:138 | For a non-negative total, the quotient is non-negative and the last chunk (total − q·(n−1)) lies in [q, q+n). |
| Chunks.InitialChunksBounded | internal/downloader/downloader.go:127-138 | A fresh table satisfies the transfer invariant `Bounded` at 0 bytes. |
| Chunks.StopIndex | internal/downloader/downloader.go:175-182 | Where the scan breaks: every chunk before it has size ≤ downloaded, and the chunk at it (if any) has size > downloaded. |
| Chunks.Updated | internal/downloader/downloader.go:174-182 | One update keeps ids and sizes. Chunks before the stop index get 1, the stop chunk gets downloaded/size, and later chunks are unchanged. |
| Chunks.UpdateChunks | internal/downloader/downloader.go:174-182 | The in-place loop with its `break` leaves exactly `Updated(old chunks, downloaded)` in the array. |
| Chunks.StopIndexSameSizes | internal/downloader/downloader.go:175-182 | The stopping point depends on sizes only, so an update does not move it. |
| Chunks.StopIndexMonotone | internal/downloader/downloader.go:175-182 | A larger running count lets the scan go at least as far. |
| Chunks.RatioBelowOne | internal/downloader/downloader.go:179 | The ratio given to the stop chunk lies in [0, 1). |
| Chunks.BoundedInUnitRange | internal/downloader/downloader.go:174-182 | Under the transfer invariant, every progress value lies in [0, 1]. |
| Chunks.CeilingMonotone | internal/downloader/downloader.go:174-182 | The most progress a chunk may show never drops as the count grows. |
| Chunks.BoundedAsCountGrows | internal/downloader/downloader.go:161-165 | A step that adds bytes without updating the table (end of stream, copy error) keeps the invariant. |
| Chunks.UpdateMonotone | internal/downloader/downloader.go:150-182 | An update with a count at least as large keeps the invariant and lowers no chunk's progress. |
| Chunks.FillsLeftToRight | internal/downloader/downloader.go:174-182 | Right after an update, a chunk with some progress has only complete chunks before it. |
| Chunks.FiveChunksAfterFourHundredFiftyThousand | internal/downloader/downloader.go:174-182 | 1,000,000 bytes in 5 chunks at 450,000 bytes: all five chunks are at 1, because of the own-size comparison. |
| Downloader.PausedLoopNeverEnds | internal/downloader/downloader.go:151-159 | A loop that finds its download paused only sleeps and never ends on its own. |
| Downloader.LoopCompletesIff | internal/downloader/downloader.go:150-188 | With no copy errors, the loop ends normally iff the blocks bring the count to the total size. Otherwise it is still running, and it never returns an error. |
| Downloader.SumNNonNegative | internal/downloader/downloader.go:161-162 | The count only grows: the blocks copied add up to a non-negative number. |
| Downloader.NonPositiveTotalEndsAfterFirstCopy | internal/downloader/downloader.go:161-187 | With a total of 0 or −1, the first copy ends the loop: normally, or with the write error on a copy error. |
| Downloader.HeadFailureComesFirst | internal/downloader/downloader.go:83-93 | For every URL, a failed or non-200 HEAD returns an error before `OnDownloadAdded` or anything else happens. |
| Downloader.Channel.constructor | internal/downloader/downloader.go:124-125 | The fresh cancel channel is open and holds no value. `Ready` is what the `select` at lines 152-154 receives: a closed channel (`CancelDownload`, line 297) or a value sent by `DeleteDownload` (line 255). |
| Downloader.ProgressReader.Read | internal/downloader/downloader.go:204-212 | `read` grows by exactly the bytes returned, and one progress report of read/total is made. |
| Downloader.TransferLoop.constructor | internal/downloader/downloader.go:127-150 | The loop starts at 0 bytes with a chunk table that sums to the total and satisfies the invariant. |
| Downloader.TransferLoop.Step | internal/downloader/downloader.go:151-187 | Cancel is checked before pause. A paused iteration changes nothing. An unpaused one copies one block (see Copy). In every case the invariant holds and no chunk loses progress or exceeds 1. |
| Downloader.TransferLoop.Copy | internal/downloader/downloader.go:161-187 | The count grows by exactly the block's n. A copy error aborts. End of stream skips the loop's own progress report and the chunk update and only leaves the `select`; the reader's report still happens. A full block reports progress and updates the chunks. The loop exits iff count ≥ total. |
| Downloader.TotalSizeSameSizes | internal/downloader/downloader.go:174-182 | An update keeps the sum of the chunk sizes, because it keeps every size. |
| Downloader.Downloader.constructor | internal/downloader/downloader.go:51-69 | A new downloader allows 5 concurrent downloads, has nothing paused, cancellable or active, and keeps the given chunk count. |
| Downloader.Downloader.StartTransfer | internal/downloader/downloader.go:79-138 | Entry succeeds iff HEAD, mkdir, create and GET all succeed, with the callbacks in order. On success a fresh, open cancel channel replaces the URL's entry and the URL is active. An early return clears the active mark and keeps `cancels`. |
| Downloader.Downloader.FinishTransfer | internal/downloader/downloader.go:185-194 | After the loop: `OnComplete`, then a final progress of 1.0, and the active mark is removed. |
| Downloader.Downloader.Download | internal/downloader/downloader.go:75-195 | The result equals the reference `DownloadOutcome(env, paused)`. The URL is active until every return. The paused set is untouched. A fresh cancel channel is stored only after a successful GET. A normal return ends the trace with Completed and progress 1. |
| Downloader.Downloader.RunRelaunched | internal/downloader/downloader.go:284-290 | The relaunched download's error, if any, is reported through `OnError`. |
| Downloader.Downloader.DownloadMultiple | internal/downloader/downloader.go:214-228 | One result per URL, index-aligned: result i is the outcome of downloading URL i. |
| Downloader.Downloader.ResumePendingDownloads | internal/downloader/downloader.go:230-240 | Runs the batch and always returns nil. |
| Downloader.Downloader.PauseDownload | internal/downloader/downloader.go:271-274 | The URL is added to the paused set even when `OnPause` fails, and `OnPause`'s result is returned. Adding is idempotent. |
| Downloader.Downloader.ResumeDownload | internal/downloader/downloader.go:276-293 | The paused flag is cleared. If `OnResume` fails its error is returned and nothing is relaunched. Otherwise a new download is started and nil is returned. |
| Downloader.Downloader.CancelDownload | internal/downloader/downloader.go:295-301 | The stored channel is closed and keeps its entry. The paused flag is cleared and `OnCancel`'s result is returned. The channel must still be open, since closing twice panics. |
| Downloader.Downloader.DeleteDownload | internal/downloader/downloader.go:249-269 | An existing cancel entry receives the cancel value and is dropped. The active mark is cleared only when `OnDeleted` succeeds. The paused set is untouched. |
| Downloader.Downloader.SetDownloadStatusDeleted | internal/downloader/downloader.go:303-305 | Only `OnDeleted(url, false)`, whose result is returned. |
| Localization.Locale.constructor | internal/ui/localization.go:7 | The language starts as English. |
| Localization.Translate | internal/ui/localization.go:86-91 | The lookup behind `T`. A key is replaced only by an entry of that language's table; otherwise it comes back unchanged. `TranslateEnglish`, `TranslateFrench` and `UnknownLanguageIsIdentity` pin down the result per language. |
| Localization.Locale.T | internal/ui/localization.go:86-91 | `T` under the current language: a key is replaced only by an entry of that language's table. |
| Localization.Locale.SetLanguage | internal/ui/localization.go:93-95 | Only the current language is assigned. Setting the same tag again changes nothing. |
| Localization.TranslateEnglish | internal/ui/localization.go:86-91 | Under English, T is the English entry of the key, or the key itself when it has none. |
| Localization.TranslateFrench | internal/ui/localization.go:86-91 | Under French, T is the French entry of the key, or the key itself when it has none. |
| Localization.UnknownLanguageIsIdentity | internal/ui/localization.go:86-91 | Under a tag with no table, T is the identity on every key. |
| Localization.UnlistedKeyEchoed | internal/ui/localization.go:86-91 | A key in neither table comes back unchanged in every language. |
| Localization.TablesShareKeys | internal/ui/localization.go:9-84 | The English and French tables define the same keys. |
| Localization.EnglishKeysTranslated | internal/ui/localization.go:10-46 | A key of the English table is translated, never echoed, in English. |
| Localization.FrenchKeysTranslated | internal/ui/localization.go:47-83 | A key of the French table is translated, never echoed, in French. |
| Localization.EnglishFilterLabels | internal/ui/localization.go:15-19 | The five English filter labels are All, In Progress, Completed, Deleted and Errors. |
| Localization.FrenchFilterLabels | internal/ui/localization.go:52-56 | The five French filter labels are Tous, En cours, Terminés, Supprimés and Erreurs. |
| Localization.UntranslatedFilterLabels | internal/ui/localization.go:86-91 | Under a tag with no table, the filter labels are the keys themselves. |
| Localization.FilterLabelsDistinct | internal/ui/localization.go:15-56 | In every language the five filter labels are pairwise distinct. |
| Localization.EnglishLabelsDistinct | internal/ui/localization.go:15-19 | The five English filter labels are pairwise distinct. |
| Localization.FrenchLabelsDistinct | internal/ui/localization.go:52-56 | The five French filter labels are pairwise distinct. |
| DetailsPanel.FormatSize | internal/ui/details_panel.go:150-161 | Sizes below 1024, negatives included, are shown unscaled. Otherwise div = 1024^(exp+1) ≤ size < 1024·div, so size/div is in [1, 1023]. exp ≤ 5, the unit letter is "KMGTPE"[exp], and exp+1 is the size's level count. |
| DetailsPanel.PowBeyondInt64 | internal/ui/details_panel.go:155-160 | From 1024^7 on, powers of 1024 exceed every int64, so `div` cannot overflow before the loop stops. |
| DetailsPanel.PowBoundsExponent | internal/ui/details_panel.go:155-160 | A power of 1024 that fits under an int64 size has exponent at most 6. |
| DetailsPanel.LevelsBracket | internal/ui/details_panel.go:155-159 | The selected unit brackets the size: 1024^k ≤ size < 1024^(k+1). |
| DetailsPanel.LevelsMonotone | internal/ui/details_panel.go:155-159 | A larger size never gets a smaller unit. |
| DetailsPanel.FormatStatus | internal/ui/details_panel.go:163-178 | The status comes back unchanged iff it is not one of the five known statuses. |
| DetailsPanel.FormatStatusDistinct | internal/ui/details_panel.go:163-178 | The five French labels are pairwise distinct. |
| DownloadList.ButtonAfter | internal/ui/download_list.go:152-165 | The button switch. Only paused, downloading, pending and completed change the button. A completed item's button is hidden, and a visible play icon means paused, unless the button already showed it. `ButtonOffersOppositeAction` and `ButtonAfterIdempotent` state the rest. |
| DownloadList.ButtonAfterIdempotent | internal/ui/download_list.go:152-165 | Updating the button twice for the same status equals updating it once. |
| DownloadList.ButtonOffersOppositeAction | internal/ui/download_list.go:152-165 | Paused shows play. Downloading or pending shows pause. Completed hides the button and keeps its icon. Any other status leaves the button as it was. |
| DownloadList.ToLowerAscii | internal/ui/download_list.go:218 | Same length; each ASCII capital is lowered, and every other character is kept. |
| DownloadList.Contains | internal/ui/download_list.go:228 | `strings.Contains`. A match needs a term no longer than the URL. `ContainsIff` states that it holds exactly when the term occurs at some position. |
| DownloadList.ContainsIff | internal/ui/download_list.go:228 | `Contains` holds iff the term occurs at some position of the URL. |
| DownloadList.EmptyTermMatches | internal/ui/download_list.go:228 | The empty search term occurs in every URL. |
| DownloadList.StatusMatches | internal/ui/download_list.go:230-239 | The status condition of the filter switch. Only the four case labels (in progress, completed, deleted, errors) of the current language can exclude an item. `FilterLabelSelects` states which statuses each label admits. |
| DownloadList.FilterLabelSelects | internal/ui/download_list.go:230-239 | Each label selects exactly its statuses: in progress means downloading or pending, completed means completed, deleted means deleted, errors means failed. "all" imposes nothing. |
| DownloadList.AllDownloadsLabelMatchesEverything | internal/ui/download_list.go:262 | "Tous les téléchargements" matches no case in any language, so it imposes no status condition. |
| DownloadList.Item.constructor | internal/ui/download_list.go:64-115 | A new item has its URL and status, an empty bar and the pause icon shown. |
| DownloadList.FilteredMembers | internal/ui/download_list.go:225-245 | The filter keeps exactly the items of `allDownloads` that it shows, and never more items than there are. |
| DownloadList.FilteredEverything | internal/ui/download_list.go:262 | With an empty term and a label that matches no case, every item is shown, in order. |
| DownloadList.RemoveFirst | internal/ui/download_list.go:284 | Removing an absent card changes nothing. Removing a present one drops exactly one occurrence of it. |
| DownloadList.DownloadList.constructor | internal/ui/download_list.go:30-41 | A new list is empty. |
| DownloadList.DownloadList.AddDownloadProgressToList | internal/ui/download_list.go:60-121 | Exactly one fresh item is appended to `allDownloads` and to the container. The URL maps to it, replacing any earlier entry. Its bar is full iff its status is completed, and its button follows its status. |
| DownloadList.DownloadList.UpdatePauseResumeButton | internal/ui/download_list.go:152-165 | The button of a listed URL is set from its status. Status and progress are kept. |
| DownloadList.DownloadList.TogglePauseResume | internal/ui/download_list.go:123-150 | Paused calls Resume and becomes downloading only on nil. Downloading or pending calls Pause and becomes paused only on nil. Other statuses call neither. An unlisted URL changes nothing. The button follows only when no error occurred. |
| DownloadList.DownloadList.UpdateProgress | internal/ui/download_list.go:167-180 | A listed, non-paused item takes the value. A value ≥ 1 completes it and hides its button. A paused item is unchanged. |
| DownloadList.DownloadList.UpdateDownloadStatus | internal/ui/download_list.go:203-213 | A listed item takes the status, and "completed" also fills its bar. Its button is untouched. |
| DownloadList.DownloadList.FilterDownloads | internal/ui/download_list.go:216-248 | The container becomes exactly the items of `allDownloads`, in order, whose lower-cased URL contains the lower-cased term and whose status the label admits. |
| DownloadList.DownloadList.ConfirmDelete | internal/ui/download_list.go:250-265 | A declined or failed delete changes nothing in the list. Otherwise a listed item becomes "deleted" and every item of `allDownloads` is shown again. |
| DownloadList.DownloadList.RemoveDownloadFromList | internal/ui/download_list.go:279-288 | The URL leaves the map and its card leaves the container, but the item stays in `allDownloads`. |
| DownloadList.RemovedItemCanReappear | internal/ui/download_list.go:279-288 | After a removal, a later filter that admits the item shows it again. |
| UI.Split | internal/ui/ui.go:321 | `strings.Split` on "\n" gives at least one piece. No piece holds a newline, and joining the pieces back gives the text. |
| UI.SplitJoin | internal/ui/ui.go:321 | Splitting a join of newline-free pieces gives the pieces back. |
| UI.TrimSpaceTrims | internal/ui/ui.go:325 | The result is the input with only white space removed at both ends, and it has no white space at either end. |
| UI.TrimSpaceFixes | internal/ui/ui.go:325 | A line without white space at its ends is left as it is. |
| UI.TrimSpaceIdempotent | internal/ui/ui.go:325 | Trimming twice equals trimming once. |
| UI.Atoi | internal/ui/ui.go:426 | A parsed value always fits in an int64. |
| UI.FormatNat | internal/ui/ui.go:405 | `%d` of n is a non-empty digit string whose value is n. |
| UI.AtoiFormatNat | internal/ui/ui.go:405-429 | Saving the chunk count the dialog displayed, untouched, parses back to the same number. |
| UI.KeepValidMembers | internal/ui/ui.go:324-336 | A line is kept iff it is non-empty and the validator accepts it. No more URLs than lines are kept. |
| UI.ValidUrlsMembers | internal/ui/ui.go:320-336 | A URL is started iff it is a trimmed line of the text that is non-empty and that the validator accepts. |
| UI.Successes | internal/ui/ui.go:345-354 | The success count never exceeds the number of results. |
| UI.SuccessesAll | internal/ui/ui.go:345-354 | The count equals the number of downloads iff every download returned nil. |
| UI.Marks | internal/ui/ui.go:346-353 | Every valid URL, and no other, gets a mark. |
| UI.MarksLastOccurrence | internal/ui/ui.go:346-353 | A URL's final mark is "completed" iff its last download returned nil, and "failed" otherwise. |
| UI.LangCode | internal/ui/ui.go:431-437 | The stored code is "fr" iff the option text is the French label of the current language, and "en" in every other case. |
| UI.EnglishFrenchLabel | internal/ui/localization.go:31-32 | In English the language options are "English" and "French". |
| UI.FrenchFrenchLabel | internal/ui/localization.go:69 | In French the French option is "Français". |
| UI.FrenchChosenInEnglishStoresEnglish | internal/ui/ui.go:379-437 | Choosing "French" in an English dialog switches to French at once, and saving then stores "en". Choosing "Français" in a French dialog stores "fr". |
| UI.NewMaxChunks | internal/ui/ui.go:426-429 | MaxChunks changes only to a positive parsed value, so a count ≥ 1 stays ≥ 1. |
| UI.UI.constructor | internal/ui/ui.go:50-67 | The UI's own download map starts empty. The settings table is the database's table as given, with whatever earlier runs saved in it. |
| UI.UI.UpdateDownloadStatus | internal/ui/ui.go:264-274 | Only a URL already in the UI's own map changes: it takes the status, and "completed" fills its bar. |
| UI.SelectedLanguage | internal/ui/ui.go:379-387 | The language the select callback switches to: English, French or the current one. It changes only when the option text is the English or French label in the current language. |
| UI.UI.OnLanguageSelected | internal/ui/ui.go:379-387 | The language switches to the one whose label, in the current language, is the chosen text. Any other text changes nothing. |
| UI.UI.SaveSettings | internal/ui/ui.go:416-451 | The directory is replaced first. If writing it fails, nothing else changes. Otherwise MaxChunks follows `NewMaxChunks` and the language code is written. Only when that write succeeds is the language switched to the code. |
| UI.UI.AddValidLines | internal/ui/ui.go:324-336 | The valid trimmed lines are kept in input order, and each is appended to the list as a fresh pending item. The earlier items stay in front, the visible container grows by exactly the new cards, and every other URL keeps its entry in the map. |
| UI.UI.MarkResults | internal/ui/ui.go:345-354 | The success count is the number of nil results. Each URL's status is its `Marks` entry: completed on nil, failed otherwise, and the last occurrence wins. |
| UI.UI.DownloadMultiple | internal/ui/ui.go:320-357 | The valid URLs get fresh list items appended behind the earlier ones, which stay, as do the visible cards and the map entries of other URLs. Without any URL, the downloader is untouched. The results are index-aligned. When every download returned, the count and marks are as in `MarkResults`, so 0 ≤ count ≤ number of URLs; otherwise every new item is still pending. |

## Left out

- **Concurrency.** The semaphore and `UpdateSemaphore`, goroutines and `WaitGroup`, `sync.Map` and the mutexes are not modelled. Operations run one after another, taking a slot is a no-op, and `DownloadMultiple` and `ResumeDownload`'s goroutine run each download to completion in turn. In particular, no Pause or Cancel can happen *during* a modelled `Download`; the channel and paused flag that `TransferLoop.Step` reads are those of the model's state.
- **The send on the cancel channel.** `DeleteDownload`'s send is unbuffered and blocks until the copy loop receives it. It is modelled as a pending value that the next loop iteration consumes. `Download` never removes its entry, so in the source a delete of a download that has already ended blocks forever at that send, still holding the downloader's mutex, and `OnDeleted` is never called. The model does not capture this: it always goes on to call `OnDeleted` and returns its result.
- **Go panics.** Closing or sending on a closed channel panics in Go. `CancelDownload` and `DeleteDownload` therefore require the stored channel to be open.
- **I/O.** HTTP requests, `os.MkdirAll`, `os.Create`, `io.CopyN`, `time.Sleep`, the database and the dialogs are not modelled. Their results are values the caller supplies (`Environment`, hook errors, write-failure flags). One `ProgressReader.Read` is modelled per copied block, although `io.CopyN` may read in several pieces.
- Downloader.Downloader.Download: the source loops forever while a download stays paused. The model runs the loop over the iterations the environment supplies and returns `StillRunning` when they run out.
- UI.UI.DownloadMultiple: when a download is still running, the source is blocked in `wg.Wait()`. The model then returns without tallying.
- UI.UI.DownloadMultiple: `NewUI` connects the downloader's progress reports to the list (`SetProgressCallback(ui.updateProgress)`, ui.go:61). So in the source every report of the batch, including the final 1.0, runs `updateProgress` on the item and can mark it completed before the tally. The model records these reports only as `Progress` events in the downloader's trace and does not apply `DownloadList.UpdateProgress` to the list items; the statuses it promises are those the tally sets.
- **Chunk count.** `maxChunks >= 1` is a precondition of `Download`. The source fails at run time for 0: the division at downloader.go:128 panics.
- **Integer width.** int64 overflow is not modelled outside `formatSize`. Progress ratios and sizes are unbounded integers and reals. The floating-point `%.1f` rendering, `formatSpeed`, the speed bookkeeping and `updateGlobalSpeed` are left out.
- DownloadList.ToLowerAscii: `strings.ToLower` is modelled on ASCII letters only. Non-ASCII characters are kept as they are.
- DownloadList.RemoveFirst: the container's `Remove` is modelled as removing the first occurrence of the card.
- **URL validation.** `url.ParseRequestURI` is a predicate supplied by the caller.
- **Home directory.** `NewDownloader`'s home directory lookup is replaced by a directory parameter.
- **Settings.** The settings table is a map, and each write succeeds or fails as the caller says.
- **Widgets and loading.** `loadExistingDownloads`, the details panel's widgets, the theme, the toolbar and the dialogs are not modelled.
- **Relaunched download.** `ResumeDownload` records the download it starts as a `Relaunched` event. `RunRelaunched` models what that goroutine does when it runs.
