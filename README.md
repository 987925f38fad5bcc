# Telegram restricted-media downloader: download bookkeeping in Dafny

This project models the bookkeeping core of a Telegram media downloader. The
downloader takes links to Telegram messages and albums, and fetches each
media item into a `.temp` file, resuming from the chunk already on disk. It
checks the size against the server's size and then moves the file into the
save directory. A failed check is retried up to `max_download_retries`
times. The core keeps:

- a task registry (`DownloadTask.LINK_INFO`) with one record per canonical
  link: its kind, its member count, the names filed as complete, and its
  errors;
- `COMPLETE_LINK`, the links whose every member is filed, together with the
  history file that stores them;
- per-kind success, failure and skip statistics, and the counter of
  downloads in flight;
- the names the files are saved under, and the path helpers those names
  need;
- the filters (`date_range`, `dtype`, `keywords`) that pick the messages of
  a chat;
- the bot's link intake: deduplication by canonical key and the
  classification of the lines of a links file;
- the toggles that never switch off the last media kind, the date-step
  button, and the line splitter that relays a subprocess's output to the
  log.

Modules follow the source files:

| module | source |
|---|---|
| `Task` (task.dfy) | `module/task.py` |
| `App` (app.dfy) | `module/app.py` |
| `PathTool` (path_tool.dfy) | `module/path_tool.py` |
| `Filter` (filter.dfy) | `module/filter.py` |
| `Downloader` (downloader.dfy) | the download methods of `module/downloader.py` |
| `Resume` (resume.dfy) | `resume_download` |
| `BotLinks` (bot_links.dfy) | the dedup in `get_download_link_from_bot` and `__process_links` |
| `BotSettings` (bot_settings.dfy) | the type toggles and the `adjust_step` button |
| `LogStream` (log_stream.dfy) | `_log_stream` |
| `Common`, `Telegram` | the Python built-ins used, and the message shape |

State the source changes in place is modelled as classes:

- `Task.Registry` holds `LINK_INFO` as a map to `TaskMeta` objects, so an
  alias shares the very record of its primary key. It also holds
  `COMPLETE_LINK`.
- `App.Application` holds the statistics and the configured kinds.
- `PathTool.FileSystem` is the file system, a map from path to a file size
  or a directory.
- `Downloader.Downloader` holds `bot_task_link`, the downloads in flight,
  and the retries it has scheduled.

The file operations are specified by functions on the tree
(`AfterReplace`, `AfterMove`, `Resume.Resume`). The methods that change the
tree are proved against those functions.

Where the specification and the code differ, the model follows the code:

- When the retries run out, the code discards the link from
  `bot_task_link` only (module/downloader.py:2574). The set of canonical
  keys that the dedup consults, `bot_task_link_canon`, keeps the key.
  `SettleJob` leaves that set untouched.

Two defects listed under "## Findings" are modelled twice: as written, and
corrected. The rest of the model runs the corrected version:

- `on_create_task` replaces the record of a link on every call, retries
  included (`Task.Registry.BeginCreate`). The download flow opens its
  records through the corrected hook (`Task.Registry.BeginCreateKeeping`),
  which keeps the record on a retry.
- `check_download_type` skips the entry after each one it removes
  (`App.Application.CheckDownloadTypeAsWritten`). The application object is
  built with the corrected check (`App.Application.CheckDownloadType`).

## Model

| member | source | states |
|---|---|---|
| Task.Read | module/task.py:189 | Reading a field of a record gives the value of that field. |
| Task.Assign | module/task.py:193-194 | Assigning a field makes it read back as the value, and leaves every other field as it was. |
| Task.ErrorKey | module/task.py:200 | An error is filed under the given key when that key is present and not empty, else under `"all_member"`. |
| Task.Recorded | module/task.py:150-155 | Filing a name adds it to the record's set, and `complete_num` becomes the size of that set. |
| Task.RecordedIdempotent | module/task.py:176-185 | Filing the same name twice leaves the same record as filing it once. |
| Task.WithDefault | module/task.py:193 | `setdefault` keeps an existing record, and inserts the default record only under an absent key. |
| Task.SortedPayload | module/task.py:63 | The history payload is strictly sorted and holds exactly the completed links. |
| Task.PayloadDetermined | module/task.py:63 | Two payloads saved for the same set of links are equal. |
| Task.HistoryRoundTrip | module/task.py:44-63 | Loading a saved history gives back the completed links when they are already canonical. |
| Task.Registry.constructor | module/task.py:212-216 | The registry starts empty, and holds the canonical links of the history file as complete. |
| Task.Registry.LoadHistory | module/task.py:37-57 | Every listed link, canonicalised, joins `COMPLETE_LINK`, and nothing else changes. |
| Task.Registry.SaveHistory | module/task.py:59-67 | The history file lists `COMPLETE_LINK` sorted and free of duplicates. |
| Task.Registry.SetDefault | module/task.py:193 | The record under the key is kept, or a fresh default record is inserted. No other key changes. |
| Task.Registry.Set | module/task.py:191-194 | A default record is inserted under an absent key. Then only the named field changes, and the change is seen through every key sharing that record. |
| Task.Registry.Get | module/task.py:187-189 | An absent key gives `None` and inserts nothing. A present key gives the field's value. |
| Task.Registry.SetError | module/task.py:196-200 | Exactly one `error_msg` entry is written, under `"all_member"` when no key is given. The other errors stay. |
| Task.Registry.AddFileName | module/task.py:175-185 | The name joins the record's `file_name` set. Filing a name already there changes nothing. |
| Task.Registry.Alias | module/task.py:202-209 | Nothing changes when the primary key is absent. Otherwise the alias refers to the very record of the primary key. |
| Task.Registry.BeginCreate | module/task.py:89-113 | As written: a zeroed record replaces the canonical key's record on every call, and a message id becomes an alias of it. |
| Task.Registry.BeginCreateKeeping | module/task.py:89-113 | Corrected: a record is replaced only on a first attempt, so a retry keeps the items already filed. |
| Task.Registry.EndCreate | module/task.py:114-122 | A failed creation stores its `e_code` as the record's `error_msg`. Any other status changes nothing. |
| Task.Registry.RecountComplete | module/task.py:151-155 | The record of the link gets `complete_num` equal to the size of its `file_name` set. No other record changes. |
| Task.Registry.CloseIfComplete | module/task.py:156-170 | When `member_num == complete_num`, the errors are cleared and the link joins `COMPLETE_LINK`. Otherwise nothing changes. |
| Task.Registry.OnComplete | module/task.py:143-173 | A `(None, None)` result changes nothing. Otherwise the name is filed and counted, and a fully filed link is closed. `COMPLETE_LINK` only grows. |
| Task.AliasSharesRecord | module/task.py:203-209 | After `alias`, a value set through the alias is read through the primary key. |
| Task.RetryLosesAlbumProgressAsWritten | module/task.py:97-104 | As written, a two-item album whose second item was retried never joins `COMPLETE_LINK`. |
| Task.RetryKeepsAlbumProgress | module/task.py:97-104 | When the record is kept across the retry, the same album completes. |
| Task.UploadRegistry.Register | module/task.py:222-238 | The chat's table is created if missing, and the file's record is replaced. |
| Task.UploadRegistry.SetErrorMsgAsWritten | module/task.py:268-278 | As written: an unknown chat raises. The error is stored only for a file already registered; otherwise nothing changes. |
| Task.UploadRegistry.SetErrorMsg | module/task.py:268-278 | Corrected: for a known chat the file's record carries the error afterwards, created with the size on disk when missing. |
| Task.UploadErrorLostAsWritten | module/task.py:270-278 | As written, a failure for a file the chat has no record of is lost. |
| Task.UploadErrorKept | module/task.py:270-278 | The corrected version keeps that failure. |
| App.Record | module/app.py:120-164 | A status adds the name to its own set of the kind only, and `DOWNLOADING` only increments the counter. The kind's failures then exclude its successes. |
| App.RecordSeparates | module/app.py:161-164 | After any update, the failures of the updated kind are disjoint from its successes. |
| App.RecordEffect | module/app.py:153-160 | Each status touches its own set and no other, and `DOWNLOADING` adds to no set. |
| App.RecordKeepsConsistent | module/app.py:120-164 | Every update keeps failures and successes disjoint for every kind. |
| App.RemoveFirst | module/app.py:177 | `list.remove` drops exactly the first occurrence. |
| App.Settle | module/app.py:181-184 | An empty list becomes the list of all kinds. A non-empty one is kept. |
| App.IterRemove | module/app.py:175-177 | The list left by removing while iterating: it holds only entries of the original list, and never loses a supported one. |
| App.Supported | module/app.py:175-177 | Exactly the supported names of the list, in order. |
| App.AsWrittenKeepsUnsupported | module/app.py:175-177 | As written, a list of two misspelt kinds keeps the second one. |
| App.CheckedTypesSupported | module/app.py:174-185 | With every unsupported entry removed, the configured list is never empty and holds supported kinds only. |
| App.Application.constructor | module/app.py:44-49 | The statistics are empty, the counter is 0, and the configured kinds are checked by the corrected check: exactly the supported ones, in order, or all kinds when none is. |
| App.Application.UpdateDownloadStatus | module/app.py:120-164 | The statistics become `Record` of the old ones, which keeps them consistent. |
| App.Application.GetFileType | module/app.py:166-172 | The status is recorded under the last media kind the message carries, and that kind is returned. |
| App.Application.CheckDownloadTypeAsWritten | module/app.py:174-185 | As written: removing while iterating skips the entry after each removed one. |
| App.Application.CheckDownloadType | module/app.py:174-185 | Corrected: every unsupported entry is removed. An empty result is replaced by all kinds and saved. |
| App.RemoveWhileIterating | module/app.py:175-180 | The as-written loop yields the iteration-skipping result. |
| App.KeepSupported | module/app.py:175-180 | The corrected loop keeps exactly the supported entries, in order. |
| App.GetFilename | module/app.py:302-325 | The result is `None` exactly when there is no `mime_type` attribute. Otherwise the name starts with `"{id} - {file_unique_id}."`. |
| App.GetVideoFilename | module/app.py:230-254 | The name starts with `"{id} - {title}."` and ends with the extension `get_extension` gives for the MIME type, `video/mp4` by default. |
| App.GetPhotoFilename | module/app.py:256-277 | The name starts with `"{id} - {file_unique_id}."`. A photo takes the `image/jpg` extension, a document that of its MIME type, any other kind `unknown`. |
| App.TimestampName | module/app.py:103-105 | The fallback name starts with `"{id} - "` and the time, and ends with `.unknown`. |
| App.GetDocumentFilename | module/app.py:279-300 | The result is `None` exactly for an empty MIME type. A missing or `None` MIME type gives the timestamp name. One containing `video` gives the video name; else one containing `image` gives the photo name. Otherwise it is a generated name or the original name. |
| App.TempDirectory | module/app.py:78-89 | The chat's directory when the chat id can be read, else the temporary directory itself. It ends with the chat id, and has no trailing slash when the temporary directory has none. |
| App.TempPathOf | module/app.py:84-106 | The derived name, sanitised, joined to the chat's temporary directory, and truncated to 230 bytes. |
| App.GetTempFilePath | module/app.py:71-106 | A video, a photo, a document and an audio, voice or animation take the name of `get_video_filename`, `get_photo_filename`, `get_document_filename` and `get_filename`; no kind takes the timestamp name. There is no path exactly for a document with an empty MIME type, or an audio, voice or animation without one. |
| App.CutNameShape | module/path_tool.py:78-83 | The last component `truncate_filename` leaves keeps the extension and a prefix of the stem, fits the limit when the extension does, and is the whole name when that fits. |
| App.TempPathShape | module/app.py:78-106 | The path lies directly in the chat's temporary directory. Its last component holds no forbidden character, keeps the sanitised name's extension and a prefix of its stem, fits 230 bytes when the extension does, and is the whole sanitised name when that fits. |
| App.IdReadBack | module/app.py:246-247 | The leading digits of a generated name read back as the message id. |
| App.VideoNameParts | module/app.py:230-254 | A video name splits into `"{id} - {title}"` and the chosen extension. The title is `"None"` for a missing name or one starting with `video_`. |
| App.CompressedDocumentKeepsName | module/app.py:288-293 | A document with a compressed original name keeps that name verbatim. |
| App.FilenameKeepsOriginalExtension | module/app.py:309-323 | `get_filename` uses the full extension of the original name when there is one. |
| PathTool.RFind | module/path_tool.py:33 | The last index holding the character, or -1 when there is none. |
| PathTool.SplitPath | module/path_tool.py:31-37 | The last component holds no slash. The directory keeps no trailing slash unless it is made of slashes only. |
| PathTool.JoinPath | module/path_tool.py:141 | A plain name is joined after exactly one slash. |
| PathTool.SplitJoin | module/path_tool.py:31-37 | Splitting a joined directory and plain name gives the two parts back. |
| PathTool.SplitExt | module/path_tool.py:79 | Root plus extension is the path. The extension starts at the last dot of the last component, after something other than dots. |
| PathTool.SplitExtOf | module/path_tool.py:79 | A plain root followed by a dot-free extension splits at that dot. |
| PathTool.ValidateTitle | module/path_tool.py:55-59 | Every forbidden character becomes `_`, and the length is kept. |
| PathTool.ValidateTitleSafe | module/path_tool.py:55-59 | A validated title holds no forbidden character and keeps every allowed one. Validating it again changes nothing. |
| PathTool.Utf8Prefix | module/path_tool.py:82 | The longest prefix of whole characters whose UTF-8 encoding fits the byte budget. |
| PathTool.StemBudget | module/path_tool.py:80-82 | The byte budget for the stem. A negative budget counts from the end, as Python slicing does. |
| PathTool.TruncateFilename | module/path_tool.py:62-83 | The directory and the extension are kept, and the stem is cut to the longest prefix that fits the budget. |
| PathTool.LongestCutUnique | module/path_tool.py:82 | Only one prefix is the longest that fits. |
| PathTool.TruncateShortName | module/path_tool.py:78-83 | A name whose stem and extension already fit is only normalised. |
| PathTool.TruncatedNameFits | module/path_tool.py:78-83 | When the extension fits, the truncated name fits in `limit` bytes. |
| PathTool.MultiPartExtension | module/path_tool.py:254-264 | The three multi-part patterns are tried in order. Each returns its suffix without the leading dot. |
| PathTool.PlainExtension | module/path_tool.py:266-269 | The last `splitext` extension without its dots, when it is not empty. |
| PathTool.ExtractFullExtension | module/path_tool.py:243-271 | `None` for a missing, empty or blank name. A result never starts with a dot, and is a suffix of the stripped name after a dot. |
| PathTool.IsCompressedFile | module/path_tool.py:278-279 | `False` for a missing or empty name. |
| PathTool.CompressedIgnoresCase | module/path_tool.py:291-293 | Upper-case and lower-case spellings of a name are classified alike. |
| PathTool.ArchiveExtensionRecognised | module/path_tool.py:284 | Any name ending in one of the single archive extensions, in any case, is recognised. |
| PathTool.IsFileDuplicate | module/path_tool.py:40-52 | True exactly when a non-directory entry of the server size is at the path. |
| PathTool.GetFileSize | module/path_tool.py:228-235 | The size of the path if it exists, else of its temporary twin, else 0. |
| PathTool.SizeStableUnderFinalise | module/path_tool.py:228-235 | Moving a complete temporary file to its final name does not change the size reported for that name. |
| PathTool.MovedFileIsDuplicate | module/path_tool.py:136-145 | A temporary file of the server size, once moved into the save directory, is found as a duplicate. |
| PathTool.AfterReplace | module/path_tool.py:116-133 | The source file is renamed to the target when it is a file and the target is not a different directory. Otherwise the tree is unchanged. |
| PathTool.AfterDelete | module/path_tool.py:99-113 | A directory goes with everything below it, a file goes alone, and a missing path changes nothing. |
| PathTool.AfterMove | module/path_tool.py:136-156 | The save directory is made if missing, then the file is moved in unless the name is taken or there is no file. |
| PathTool.MoveOutcome | module/path_tool.py:136-156 | An error is reported exactly when the file is not moved. A taken name moves nothing. |
| PathTool.FileSystem.SafeReplace | module/path_tool.py:116-133 | The tree becomes `AfterReplace`. An error is reported exactly when the source is not a file. |
| PathTool.FileSystem.SafeDelete | module/path_tool.py:99-113 | The tree becomes `AfterDelete`. The result is `Some(true)` when something was removed, and `None` otherwise. |
| PathTool.FileSystem.MoveToSaveDirectory | module/path_tool.py:136-156 | The tree becomes `AfterMove`, and the error matches `MoveOutcome`. |
| PathTool.FileSystem.MakeDirs | module/path_tool.py:139 | The directory exists afterwards, and nothing else changes. |
| PathTool.FileSystem.MoveTo | module/path_tool.py:141-145 | The file is moved under its name unless that name is taken. |
| PathTool.FileSystem.Open | module/downloader.py:2171-2180 | `wb` truncates and `ab` keeps, and a missing file is created. A directory cannot be opened. |
| PathTool.FileSystem.Write | module/downloader.py:2185 | Writing a chunk grows the file by the chunk's length. |
| Filter.DateRange | module/filter.py:14-25 | Each bound that is set and not 0 is an inclusive limit. |
| Filter.DateRangeUnbounded | module/filter.py:25 | Without bounds, every message passes. |
| Filter.DateRangeInclusive | module/filter.py:19-20 | Both bounds are inclusive. |
| Filter.Dtype | module/filter.py:28-39 | True exactly when some enabled kind of the table is carried by the message. |
| Filter.FullText | module/filter.py:54-59 | Specification: the lower-cased text and caption joined by a space, a missing one read as empty. |
| Filter.Keywords | module/filter.py:42-70 | No list, or an empty one, passes. Otherwise true exactly when some non-empty keyword, lower-cased and stripped, occurs in the lower-cased text and caption. |
| Filter.BlankKeywordMatchesAll | module/filter.py:62-67 | A keyword made of white space only matches every message. |
| Telegram.TypeOfName | module/app.py:175-176 | A name is read back as a kind exactly when it is one of the supported names. |
| Telegram.MimeOr | module/app.py:251 | `getattr(obj, 'mime_type', default)`: the default when the attribute is missing, `None` when it is `None`, and the text otherwise. |
| Telegram.FirstMediaType | module/downloader.py:2271-2273 | The first kind in enumeration order that the message carries, or none. |
| Telegram.LastMediaType | module/app.py:167-172 | The last kind in enumeration order that the message carries, or none. |
| Common.Strip | module/filter.py:65 | The result has no white space at either end. |
| Common.Split | module/downloader.py:351 | There is always at least one piece, and no piece holds the separator. |
| Common.JoinSplit | module/downloader.py:351 | Joining the pieces with the separator gives the text back. |
| Common.Contains | module/filter.py:66 | A substring test: true exactly when the needle occurs at some position. |
| Common.NatToString | module/app.py:246-247 | The decimal digits of the number. |
| Common.NatToStringRoundTrip | module/app.py:246-247 | Reading the digits back gives the number. |
| Common.Insert | module/task.py:63 | Inserting into a strictly sorted list keeps it strictly sorted and adds the element. |
| Common.SortedUnique | module/task.py:63 | A strictly sorted list is determined by its elements. |
| Resume.Prepare | module/downloader.py:2130-2167 | Specification: the checks before streaming, giving the tree and whether `resume_download` returns early. |
| Resume.Continue | module/downloader.py:2168-2211 | Specification: the streaming from the resumed chunk and the final rename, giving the tree and the outcome. |
| Resume.Resume | module/downloader.py:2117-2211 | Specification: `Prepare`, then `Continue` unless it returned early. Its properties are the lemmas below. |
| Resume.CompleteFileKept | module/downloader.py:2130-2139 | A final file of the expected size is returned as it is: nothing is streamed and nothing changes. |
| Resume.IncompleteFileContinued | module/downloader.py:2140-2188 | A final file of another size becomes the `.temp` file. Streaming restarts from the chunk its size reaches and ends at its size plus what is streamed. |
| Resume.CompleteTempFinalised | module/downloader.py:2149-2161 | A complete `.temp` file is moved to the final name, and nothing is streamed. |
| Resume.OversizedTempRestarted | module/downloader.py:2162-2174 | An oversized `.temp` file is deleted and streaming starts from chunk 0. |
| Resume.FinalisedOnlyWhenSizesMatch | module/downloader.py:2168-2211 | The `.temp` file ends at its start size plus the streamed bytes. It becomes the final file exactly when no size is expected or the sizes match. |
| Resume.PrepareFiles | module/downloader.py:2130-2167 | The checks before streaming leave the tree and the early return that `Prepare` gives. |
| Resume.ContinueDownload | module/downloader.py:2168-2211 | The streaming loop leaves the tree and outcome that `Continue` gives: it appends every chunk from the resumed offset. |
| Resume.ResumeDownload | module/downloader.py:2117-2211 | `file_name` is always returned, and the tree and outcome are `Resume`'s. |
| Downloader.Attempts | module/downloader.py:2507-2577 | Specification: the verdict after a run of attempts with the given local sizes, and how many attempts it took. Its properties are `GiveUpAfterMaxRetries` and `DoneOnFirstMatch`. |
| Downloader.Selected | module/downloader.py:2245-2268 | Specification: the messages `__add_task` handles, a single message, or from a list every one on a first attempt and only the retried one on a retry. |
| Downloader.Resolve | module/downloader.py:2622-2635 | A message resolves exactly when its chat can be read, to a single-member link of that message; otherwise the raise is an unlisted error. A link string resolves as resolving the link gave. |
| Downloader.JobVerdict | module/downloader.py:2511-2537 | Done exactly when the sizes match. Retry exactly on a mismatch with retries left. Otherwise give up. |
| Downloader.GiveUpAfterMaxRetries | module/downloader.py:2536-2575 | An item whose size never matches is given up after exactly `max_download_retries + 1 - count` attempts. |
| Downloader.DoneOnFirstMatch | module/downloader.py:2511-2537 | An item whose size first matches on attempt `k` within the retry budget completes after `k + 1` attempts. |
| Downloader.SelectionOnRetry | module/downloader.py:2245-2268 | A retry handles at most one message: the first one carrying the retried id, and none when no message carries it. |
| Downloader.SelectMessages | module/downloader.py:2245-2268 | The loop hands on every message on a first attempt, and only the retried one on a retry. |
| Downloader.FailureResult | module/downloader.py:2651-2756 | A failure reports no chat and no members, with the error under `"all_member"` and the explanation under `"error_msg"`. |
| Downloader.OpenTask | module/task.py:89-113 | Corrected hook: the target's canonical key holds a fresh zeroed record on a first attempt or for a new key, and a retry of a known key changes no record. `COMPLETE_LINK` is unchanged. |
| Downloader.SetLinkMeta | module/downloader.py:2639-2640 | The link type and the member count read back for the key. |
| Downloader.RecordFailure | module/task.py:121-122 | The record's `error_msg` becomes the failure's `e_code`. |
| Downloader.FileError | module/downloader.py:2571-2573 | The error can be read for the link under its key afterwards. |
| Downloader.FileCompletion | module/task.py:145-171 | A reported item is filed for its link, a `(None, None)` result changes nothing, and `COMPLETE_LINK` only grows. |
| Downloader.Downloader.constructor | module/downloader.py:253-285 | The downloader starts with no link taken on, no download in flight and no retry, and the counter is 0. |
| Downloader.Downloader.Effective | module/downloader.py:2275 | Specification: the kinds in effect, `diy_download_type` when given, else the configured ones. |
| Downloader.Downloader.MediaMetaOf | module/downloader.py:2213-2231 | The metadata exist only for a kind the message carries. The file name is the last component of the temporary path, and the save path joins it to the chat's directory. |
| Downloader.Downloader.PlanFor | module/downloader.py:2269-2418 | The gate checks only the first kind the message carries. Configured: raise without a name, complete at once when a duplicate is on disk, otherwise start a download. Unconfigured: skip. |
| Downloader.Downloader.DuplicateAfterSuccess | module/downloader.py:2310-2326 | A file downloaded in full and moved into the save directory is found as a duplicate by a later attempt. |
| Downloader.Downloader.CheckDownloadFinish | module/downloader.py:2421-2466 | Complete exactly when the local size (the file, else its `.temp`) equals the server's. The file is then moved, and the outcome is recorded in the statistics. |
| Downloader.Downloader.SettleJob | module/downloader.py:2507-2577 | The counter drops by one in every branch. A match moves the file and reports the item. A mismatch schedules a retry with `count + 1` while retries remain. Otherwise the failure is recorded and the link leaves `bot_task_link`. |
| Downloader.Downloader.JobCallback | module/downloader.py:2507-2577 | `SettleJob`'s effects. On giving up, the error naming the retry count is filed under the file name. No other record changes. |
| Downloader.Downloader.RunJob | module/downloader.py:2358-2368 | The download leaves the in-flight list, and its file is streamed as `Resume` describes. |
| Downloader.Downloader.Finish | module/downloader.py:2468-2577 | The counter keeps counting the downloads in flight. An item whose size matched is filed for its link, and `COMPLETE_LINK` only grows. |
| Downloader.Downloader.CompleteJob | module/downloader.py:2468-2577 | The counter drops by one, and an item whose size matched is filed for its link. |
| Downloader.Downloader.CompleteDuplicate | module/downloader.py:2310-2326 | A duplicate on disk is filed as completed for its link, and the counter is untouched. |
| Downloader.Downloader.DuplicateCallback | module/downloader.py:2486-2506 | A skip is recorded on a first attempt only, the counter is untouched, and `(link, file_name)` is returned. |
| Downloader.Downloader.StartJob | module/downloader.py:2327-2391 | The counter counts the new download, and the download joins those in flight. |
| Downloader.Downloader.SkipItem | module/downloader.py:2392-2418 | A skip is recorded under the name when there is one. The skip error is filed under that name, or under `"all_member"`. |
| Downloader.Downloader.AddOne | module/downloader.py:2269-2418 | The branch taken is `PlanFor`. Only a started download joins those in flight. A raise changes nothing. |
| Downloader.Downloader.HandleAtOnce | module/downloader.py:2310-2418 | The branches that start no download leave the counter untouched. |
| Downloader.Downloader.AddNext | module/downloader.py:2246-2268 | One message of the loop is handled, and its plan extends the plans so far. |
| Downloader.Downloader.AddTask | module/downloader.py:2233-2419 | The selected messages are handled in order until one raises. Without a raise, exactly those configured and not on disk join the downloads in flight, in order. |
| Downloader.Downloader.AddRun | module/downloader.py:2246-2268 | The loop succeeds exactly when no selected message raises, and starts the downloads `Started` lists. |
| Downloader.Downloader.AddResolved | module/downloader.py:2638-2643 | The kind and member count are filed, and the result tells whether any message raised. |
| Downloader.Downloader.CreateDownloadTask | module/downloader.py:2609-2756 | `DOWNLOADING` with the chat, member count and kind exactly when the target resolves and no message raises. Otherwise a `FAILURE` record, whose `e_code` becomes the target's `error_msg`; a message that raises is explained as an unlisted error. |
| BotLinks.CanonMap | module/downloader.py:783 | One spelling per canonical key, taken from the request. |
| BotLinks.DeduplicateAsWritten | module/downloader.py:766-789 | Specification, as written: the existing keys are mapped back through `canon_map`, and only those spellings leave the request. Its properties are `DedupAsWrittenKeys` and `DedupAsWrittenKeepsSecondSpelling`. |
| BotLinks.Deduplicate | module/downloader.py:766-789 | Specification, corrected: every spelling whose key is taken on or complete leaves the request. Its property is `DedupSound`. |
| BotLinks.DedupAsWrittenKeys | module/downloader.py:766-789 | The remaining keys are neither taken on nor complete. The reported links come from the request and are exactly those removed. |
| BotLinks.DedupAsWrittenKeepsSecondSpelling | module/downloader.py:783-789 | As written, for any two spellings that share the canonical key of a completed link, the later one is reported as present and the earlier one is let through. |
| BotLinks.DedupSound | module/downloader.py:766-789 | Corrected: no link whose key is taken on or complete gets through, and the request is split between the two outcomes. |
| BotLinks.ClassifyLine | module/downloader.py:2766-2780 | A line starting with `https://t.me/` is a link. A blank or `#` line is skipped. Anything else is illegal. |
| BotLinks.CommentNeverAccepted | module/downloader.py:2774 | A comment line is never a link. |
| BotLinks.FileLinks | module/downloader.py:2763-2780 | Every link a file yields starts with `https://t.me/`. |
| BotLinks.TextLinks | module/downloader.py:2762-2782 | A string yields the links of the `.txt` file it names, or itself when it is a link. |
| BotLinks.Gather | module/downloader.py:2758-2787 | The links read from files are among the links of the argument, and all of them start with `https://t.me/`. |
| BotLinks.ProcessLinksAsWritten | module/downloader.py:2758-2795 | Specification, as written: a string gives its links; a list runs every element through the whole function; no links exits without a bot token and gives `None` with one. |
| BotLinks.ItemsAsWritten | module/downloader.py:2783-2787 | Specification, as written: the loop over a list, uniting the elements' links, and ending the program where an element exits. |
| BotLinks.AsWrittenWithToken | module/downloader.py:2758-2795 | With a bot token, the version as written yields exactly the links of the whole argument. |
| BotLinks.AsWrittenExitsOnOneBadItem | module/downloader.py:2783-2792 | As written, without a bot token, a list with one link and one word exits instead of returning the link. |
| BotLinks.TakeOn | module/downloader.py:2768-2773 | The link joins `bot_task_link`, and its canonical key joins `bot_task_link_canon`. |
| BotLinks.ScanLine | module/downloader.py:2766-2780 | A link line is kept and taken on. Other lines add nothing. |
| BotLinks.ScanFile | module/downloader.py:2763-2780 | Every link of the file is kept and recorded, with its canonical key. |
| BotLinks.Collect | module/downloader.py:2762-2787 | The links of an argument are `Gather`'s, and the file links are taken on. |
| BotLinks.CollectItems | module/downloader.py:2783-2787 | The list elements' links are united in order. |
| BotLinks.ProcessLinks | module/downloader.py:2758-2795 | Corrected: the links of the whole argument; `None` or the exit only when there are none at all. |
| BotLinks.ProcessedLinks | module/downloader.py:2758-2795 | The links handed back are Telegram links. With a bot token the result equals the as-written one. |
| BotSettings.ToggledTypesNeverEmpty | module/downloader.py:1143-1151 | The toggle is refused exactly when it would switch off the last kind, and its result is never empty. |
| BotSettings.ToggleOnOffRestores | module/downloader.py:1143-1151 | Switching a kind on and then off gives the list back. |
| BotSettings.ToggleOffOnKeepsKinds | module/downloader.py:1143-1151 | Switching a kind off and on keeps the same kinds, with the toggled one last. |
| BotSettings.ToggleDownloadType | module/downloader.py:1143-1171 | The toggle's list is saved to the configuration, and a refused toggle changes nothing. |
| BotSettings.FlipKeepsOneOn | module/downloader.py:1192-1203 | A flip that goes through leaves at least one kind on. |
| BotSettings.FlipTwiceRestores | module/downloader.py:1482-1487 | Flipping twice restores the dictionary. |
| BotSettings.Switches.ToggleForward | module/downloader.py:1192-1203 | The forward setting flips, read through its default, unless it is the last one on. |
| BotSettings.Switches.ToggleChatType | module/downloader.py:1482-1487 | The chat's kind setting flips unless it is the last one on. |
| BotSettings.IndexFrom | module/downloader.py:1414 | The first position of the entry from the given position on. |
| BotSettings.StepsDistinct | module/downloader.py:1413 | The listed steps are all different. |
| BotSettings.NextIn | module/downloader.py:1414-1416 | The entry after the given one, wrapping round. `None` where `index` raises. |
| BotSettings.NextStep | module/downloader.py:1411-1416 | One press gives the step after the current one in 1, 2, 5, 10, 15, 20. |
| BotSettings.NextStepMoves | module/downloader.py:1411-1416 | A listed step moves to a different listed step. Anything else is refused. |
| BotSettings.CycleIn | module/downloader.py:1414-1416 | As many presses as the list is long bring an entry back to itself, and no fewer do. |
| BotSettings.StepCycle | module/downloader.py:1411-1416 | Six presses bring any step back to itself, and no fewer do. |
| LogStream.ReplaceCR | module/downloader.py:350 | Every carriage return becomes a newline, and nothing else changes. |
| LogStream.Stripped | module/downloader.py:353-354 | Each piece between line breaks, stripped. |
| LogStream.FeedStep | module/downloader.py:349-352 | The complete pieces stay. The open last piece, with the block appended, is split anew. |
| LogStream.LogLines | module/downloader.py:353-361 | Each complete line is stripped, blank ones are skipped, and the rest are logged with the tag. |
| LogStream.Advance | module/downloader.py:342-361 | The loop invariant carries over one more block. |
| LogStream.Feed | module/downloader.py:349-361 | The buffer is appended to, the complete lines are logged, and the unterminated rest is kept. |
| LogStream.Logged | module/downloader.py:331-368 | Specification: the log of decoded output, its non-blank stripped lines, carriage returns taken as line breaks, each with the stream's tag. |
| LogStream.RelayStream | module/downloader.py:331-368 | However the decoded text is cut into blocks, the log is `Logged`: the non-blank stripped lines, with carriage returns taken as line breaks. |
| LogStream.KeptShape | module/downloader.py:353-361 | Each record is the tag followed by a non-blank line. |
| LogStream.UnterminatedTailIsFlushed | module/downloader.py:362-368 | Output without a line break is still logged once, from the final flush. |
| LogStream.CarriageReturnActsAsNewline | module/downloader.py:350-352 | A progress bar redrawn with carriage returns is logged as if each redraw were a line. |

## Left out

- The progress tracker, the progress bars, console and log output, the `done_notice` message and the uploader hand-off (`download_upload`) are output only. They are left out.
- The admission wait on `max_download_task` is not modelled. It is an asynchronous event loop, so the model runs one call at a time and keeps only the counter bookkeeping.
- The queue (`put_nowait`, `task_done`) and `event.set()` are left out for the same reason.
- The tag maps (`link_tag_map`, `message_tag_map`) are left out. They only label messages for display.
- The assignment `retry["id"] = file_id` in `__add_task` is left out. Nothing in the modelled flow reads it afterwards.
- `get_extension`, `__get_file_type` and `get_mime_from_extension` are a function parameter (`ExtensionOf`). The MIME table and the file-id decoding are not part of this model.
- `canonical_link_str` and `canonical_link_message` are function parameters. `module/util` is not part of this model.
- `os.path.normpath` is a function parameter.
- Unicode NFC normalisation in `truncate_filename` is not modelled.
- `lower()` folds ASCII letters only.
- The clock (`datetime.now()` in generated names) is a string parameter. Message dates are real numbers.
- Downloader.Downloader.constructor: `get_temp_file_path` is bound when the downloader is built. The temporary directory and the clock string are therefore fixed for all files of a run.
- Creating the temporary directories is left out. That is the side effect of `os.makedirs` inside `get_temp_file_path`.
- Resolving a link (`get_message_by_link`) is a parameter: the resolution, or the exception's text and explanation.
- The remote stream is a function from the starting chunk to the chunk lengths it yields. Chunk contents are not modelled.
- The YAML encoding of the history file is left out. The file is a list of strings.
- Errors from `open` or `yaml` that `_load_history` and `_save_history` swallow are not modelled.
- A directory's size is taken as 0.
- The only operating-system errors modelled are those the tree determines. Permission errors, the cross-device fallback of `safe_replace` and the `downloads` fallback of `move_to_save_directory` are left out.
- `UploadTask.on_create_task` and the upload pipeline are left out. Only `set_error_msg` and the record it writes are core.
- `download_chat`, the bot menus, forwarding, listening, gallery-dl, yt-dlp, `run()` and the shutdown are outside this core.
- Downloader.OpenTask: opens the record through the corrected `on_create_task` hook, which keeps the record on a retry. The code as written zeroes it on every call (module/task.py:97-104); that behaviour is `Task.Registry.BeginCreate`, and its consequence is `Task.RetryLosesAlbumProgressAsWritten`.
- Downloader.Downloader.CreateDownloadTask: runs under the corrected hook through `OpenTask`, so a retry keeps the items already filed for the link, which the code as written discards.
- Downloader.Downloader.CreateDownloadTask: the text of the exception a message raises (`str(e)` of the `TypeError` from `validate_title(None)`) is worded by the Python runtime. It is the parameter `raisedText`.
- App.Application.constructor: runs the corrected `check_download_type`, which removes every unsupported kind. The code as written skips the entry after each removed one (module/app.py:175-177); that behaviour is `App.Application.CheckDownloadTypeAsWritten`.
- App.TempPathShape: assumes that `os.path.normpath` leaves the joined path as it is, which holds for a normal temporary directory and a sanitised name other than `.` or `..`.
- LogStream.RelayStream: takes text already decoded. The code decodes each 1024-byte read on its own with `errors="ignore"` (module/downloader.py:343-346), so a multi-byte character split across two reads is dropped, and the log then depends on where the reads cut the bytes. That loss is not modelled.
- Downloader.Downloader.AddTask: when a message raises, the downloads already started before it are not stated.
- Downloader.Downloader.HandleAtOnce: states only the invariant and the counter. The effects of each branch are stated by `CompleteDuplicate` and `SkipItem`.
- Downloader.Downloader.Finish: states the filing, the counter and `COMPLETE_LINK`. The statistics, the retries and the tree after the callback are stated by `JobCallback`.
- Downloader.Downloader.CompleteJob: weaker than `JobCallback` in the same way as `Finish`.
- Downloader.Downloader.CreateDownloadTask: on success, the effects of each message are stated by `AddTask`, not repeated.
- Downloader.Downloader.MediaMetaOf: the display size (`format_file_size`) is not modelled.
- PathTool.IsCompressedFile: its own contract states only the empty case. The suffix test is stated by `CompressedIgnoresCase` and `ArchiveExtensionRecognised`; the multi-part and old-volume patterns are modelled but have no lemma of their own.
- BotLinks.ProcessLinks: the warnings for illegal lines go to the log and are not returned.

## Findings

| source | as written | input that shows it | evidently intended | confidence | as-written member | corrected member |
|---|---|---|---|---|---|---|
| module/app.py:175-177 | `check_download_type` removes from `download_type` while iterating over it, so the entry after each removed one is never checked. | `["vidio", "fotos"]`: the second misspelt kind is kept. | Every unsupported kind is removed, and an empty list becomes all kinds. | high; not executed | App.AsWrittenKeepsUnsupported | App.CheckedTypesSupported |
| module/task.py:97-104 | `on_create_task` replaces the link's record on every call, retries included. The retry wipes the items already filed. | A two-item album whose second item needs one retry: after the retry and the second item, `complete_num` is 1 and `member_num` is 2. | A retry keeps the record, so the album completes. | medium; not executed | Task.RetryLosesAlbumProgressAsWritten | Task.RetryKeepsAlbumProgress |
| module/downloader.py:783-789 | The existing keys are mapped back through `canon_map`, which holds one spelling per key, so only that spelling is removed. | Any request holding two different spellings that `canonical_link_str` maps to one key, when that key is complete: one is reported as present, the other still goes ahead. Which spellings share a key is up to `canonical_link_str` (`module/util`, not part of this model); that two distinct ones exist is an assumption. | Every spelling whose key is taken on or complete is set aside. | medium; not executed | BotLinks.DedupAsWrittenKeepsSecondSpelling | BotLinks.DedupSound |
| module/downloader.py:2783-2792 | Each list element goes through the whole function, so an element yielding no link calls `sys.exit(0)` when there is no bot token. | `["https://t.me/c/1/2", "hello"]` without a bot token exits instead of returning the link. | Exit only when the whole argument yields no link. | medium; not executed | BotLinks.AsWrittenExitsOnOneBadItem | BotLinks.ProcessLinks |
| module/task.py:270-278 | `set_error_msg` writes the error into `meta.get(file_path, default)`. For a file not registered under the chat, that default record is never stored. | A chat with one registered file, and an error for another path: afterwards no record of that path exists. | The error is kept in a stored record. | low; not executed | Task.UploadErrorLostAsWritten | Task.UploadErrorKept |
