# kodicontroller: thumbnail cache, resume percentages and target resolution

This project models, in Dafny, the post-processing and target-resolution layer of
`kodicontroller/kodicontroller.py`, the Python wrapper around Kodi's JSON-RPC API. It
proves properties of that model. The parts modelled are:

- **GetThumbnail**. It turns a Kodi thumbnail reference into the md5 hex digest of the
  reference. On first use it stores the image at `cacheDir/<digest>`, creating the cache
  directory if needed. A reference with no match for the regular expression `.jpg` gives `''`.
- **ProcessThumbnails**. It rewrites the `thumbnail` field of every record of a list, in
  place and in list order, using the cache directory `static/cache`.
- **GetResumePercent**. It gives every record of a list a `resume.percentage`. The value
  comes from `resume.position`/`resume.total`, or from the `watchedepisodes`/`episode`
  counters when the record has no `resume`. The loop locals carry over between records
  exactly as Python keeps them.
- **The GetActivePlayer and GetPlaylists decorators**. They resolve the id a command
  acts on: the first active player, or the last playlist of a requested type.
- **The four list commands**. VideoLibrary_GetMovies, VideoLibrary_GetRecentlyAddedMovies,
  Playlist_GetItems and Favourites_GetFavourites return `[]` when the response lacks
  their key. Otherwise they post-process the records before returning them.

Modules:

- `Records` (records.dfy) holds the decoded JSON values, the Python exceptions, and
  Python's subscript and `float()` semantics.
- `FileStore` (filestore.dfy) holds the filesystem as a value (`Disk`) and as a mutable
  `FileSystem` object with `os.mkdir` and a file write.
- `Thumbnails` (thumbnails.dfy), `ResumePercent` (resume.dfy), `Targets` (targets.dfy)
  and `ListCommands` (listcommands.dfy) hold the operations.

The three loops of the core are Dafny methods with a `while` or `for` loop:
ProcessThumbnails, GetResumePercent and the GetPlaylists decorator. Each is proved equal to
a recursive specification function: `ProcessEffect`, `NormalizeAll` and `ScanPlaylists`.
GetThumbnail and the list commands have no loop of their own. Their methods,
`GetThumbnail` and `RunListCommand`, are proved equal to the non-recursive functions
`ThumbnailEffect` and `ListReply`. The lemmas then state what the source promises about
these functions. Lists that the source mutates in place are `array<Value>`.
The filesystem is a class whose fields the methods update.

Behaviour of the code that the model keeps:

- **The gate is `re.findall(r'.jpg', s)`, not an extension test.** It matches any
  character except a newline followed by `jpg`. So `ajpg.png` passes and `poster.JPG`
  does not (`GateIsNotAnExtensionTest`).
- **An interrupted download leaves a truncated file under the digest.** Every later call
  is a cache hit on that truncated file (`InterruptedDownloadIsServedLater`).
- **Processing a record twice erases its identifier.** A hex digest never passes the
  gate, so the second pass writes `''` (`ReprocessingErasesIdentifier`).
- **GetResumePercent leaks values between records.** A record whose `resume` has a
  `total` but no `position` gets a percentage computed from the previous record's
  position before the KeyError propagates (`StalePositionLeaks`). On the first record the
  same shape raises UnboundLocalError from the `finally` clause, and that replaces the
  KeyError (`FirstMalformedIsUnbound`).
- **GetPlaylists raises UnboundLocalError for `playlist_id` when no entry has the
  requested type.** The command is not called. When several entries match, the last one
  wins. `playlist_id` is a local of each call, so an id from an earlier call is never
  reused.
- **Only KeyError is caught in the list commands.** A response that is not a dict raises
  TypeError. A value under the key that is not a list is iterated as Python would
  iterate it.

## Model

| member | source | states |
|---|---|---|
| FileStore.Join | kodicontroller/kodicontroller.py:69 | `os.path.join(cacheDir, digest)` starts with the cache directory and is at least as long as both parts |
| FileStore.ParentOf | kodicontroller/kodicontroller.py:75 | the parent `os.mkdir` needs to exist: the text before the last `/`, or the working directory for a bare name |
| FileStore.Disk.Mkdir | kodicontroller/kodicontroller.py:75-76 | `os.mkdir` succeeds exactly when the path is new and its parent is an existing directory (or the working directory); it then adds exactly that directory and nothing else; otherwise it raises and there is no new filesystem |
| FileStore.FileSystem.Mkdir | kodicontroller/kodicontroller.py:75-76 | on the object: succeeds with the new directory added, or raises and leaves the filesystem unchanged |
| FileStore.Disk.Write | kodicontroller/kodicontroller.py:83-85 | writing the image stores exactly the given bytes at the path, keeps every directory and every other file |
| FileStore.FileSystem.WriteFile | kodicontroller/kodicontroller.py:83-85 | on the object: the new state is the old one with the file written |
| Thumbnails.ThumbnailContract | kodicontroller/kodicontroller.py:61-87 | GetThumbnail never deletes or overwrites a file or directory; a returned identifier is md5 of the reference when the reference passes the gate and '' otherwise, whatever the cache held; '' is returned exactly for a string failing the gate and then nothing changes; a non-empty identifier names a cache entry that exists afterwards |
| Thumbnails.DotJpgAt | kodicontroller/kodicontroller.py:63 | a match of the regular expression `.jpg` at a position: `jpg` there, preceded by one character that is not a newline |
| Thumbnails.MatchesDotJpg | kodicontroller/kodicontroller.py:62-65 | `re.findall(r'.jpg', s)[0]` does not raise IndexError: some position matches |
| Thumbnails.ThumbnailId | kodicontroller/kodicontroller.py:62-69 | the identifier of a string reference: its md5 hex digest when it passes the gate, otherwise `''` |
| Thumbnails.ImageUrl | kodicontroller/kodicontroller.py:80 | the download URL: the server URL, `image/`, then the quoted reference |
| Thumbnails.ThumbnailEffect | kodicontroller/kodicontroller.py:61-87 | one call as a value: TypeError for a non-string, `''` on a gate failure, a hit returns the digest, a miss creates the directory if absent, raises if it is not a directory, fetches, writes, and returns the digest or the interruption |
| Thumbnails.GetThumbnail | kodicontroller/kodicontroller.py:61-87 | the method's result and new filesystem are those of `ThumbnailEffect`: non-string → TypeError, gate → '', hit → digest, miss → mkdir if absent, not-a-directory error, fetch, write, digest |
| Thumbnails.CacheHitIsInert | kodicontroller/kodicontroller.py:71-87 | a hit returns the digest, changes nothing and does not depend on what the network would return |
| Thumbnails.CacheMissStoresDownload | kodicontroller/kodicontroller.py:71-87 | a miss with a complete download creates the cache directory if absent and stores the body under the digest, nothing else |
| Thumbnails.NotADirectoryRaisesBeforeDownload | kodicontroller/kodicontroller.py:74-81 | when the cache path is a file the call raises before any download, independent of the network, with the filesystem unchanged |
| Thumbnails.IdentifierIgnoresCacheState | kodicontroller/kodicontroller.py:68-87 | two successful calls on the same reference return the same identifier whatever their caches, cache directories and downloads |
| Thumbnails.SecondCallIsHit | kodicontroller/kodicontroller.py:71-87 | idempotence: after a successful call, a second call returns the same identifier and leaves the filesystem as the first left it |
| Thumbnails.InterruptedDownloadIsServedLater | kodicontroller/kodicontroller.py:83-85 | an interrupted download raises, leaves the partial body under the digest, and the next call is a hit on it |
| Thumbnails.GateIsNotAnExtensionTest | kodicontroller/kodicontroller.py:62-65 | the `.jpg` gate accepts `poster.jpg` and `ajpg.png`, rejects `jpg`, `poster.JPG` and `"\njpg"` |
| Thumbnails.DigestFailsGate | kodicontroller/kodicontroller.py:62-69 | no md5 hex digest passes the gate |
| Thumbnails.ReprocessingErasesIdentifier | kodicontroller/kodicontroller.py:96-97 | rewriting an already rewritten record sets its thumbnail to '' and touches no file |
| Thumbnails.RewriteContract | kodicontroller/kodicontroller.py:97 | one iteration never deletes or overwrites files; when it does not raise the record is the old one with `thumbnail` replaced by the identifier of the old thumbnail; a non-empty identifier is cached |
| Thumbnails.RewriteEffect | kodicontroller/kodicontroller.py:97 | one iteration as a value: the subscript's KeyError/TypeError, the call's exception, or the record with `thumbnail` replaced |
| Thumbnails.ProcessEffect | kodicontroller/kodicontroller.py:93-97 | the loop as a value: the first exception stops it with the remaining records untouched; the result keeps the list's length |
| Thumbnails.RewriteItem | kodicontroller/kodicontroller.py:97 | the method's result and filesystem are those of one iteration of the specification |
| Thumbnails.ProcessRewritesPrefix | kodicontroller/kodicontroller.py:93-97 | ProcessThumbnails rewrites a prefix of the list in order, leaves the rest untouched, and rewrote every record exactly when it returned normally |
| Thumbnails.ProcessOnlyGrows | kodicontroller/kodicontroller.py:93-97 | ProcessThumbnails never deletes or overwrites a file or directory |
| Thumbnails.ProcessCachesEveryId | kodicontroller/kodicontroller.py:93-97 | after a normal return every non-empty identifier written names a cache entry on disk |
| Thumbnails.ProcessThumbnails | kodicontroller/kodicontroller.py:93-97 | in place over the array with the cache directory `static/cache`: the outcome, the array and the filesystem are those of `ProcessEffect` on the old array and filesystem |
| ResumePercent.Percent | kodicontroller/kodicontroller.py:119-122 | `100.0 * currentValue/maxValue` succeeds exactly when both are numbers, and then times `maxValue` gives 100 times `currentValue` |
| ResumePercent.Lookup | kodicontroller/kodicontroller.py:104-117 | the `try` with its `except KeyError` and `else` clauses: binds the locals from `resume` or the counters, with `maxValue = 0` when a counter is missing and `item['resume'] = {}`; a lookup exception stays pending |
| ResumePercent.Finish | kodicontroller/kodicontroller.py:118-124 | the `finally` clause: an unbound local raises UnboundLocalError, which replaces the pending exception; otherwise the percentage (0 when `maxValue == 0`) is stored in `item['resume']` before the pending exception propagates |
| ResumePercent.NormalizeItem | kodicontroller/kodicontroller.py:104-124 | one iteration: Lookup, then Finish |
| ResumePercent.NormalizeAll | kodicontroller/kodicontroller.py:102-124 | the loop as a value, with the locals carried from record to record; the first exception stops it; the result keeps the list's length |
| ResumePercent.GetResumePercent | kodicontroller/kodicontroller.py:102-124 | in place over the array: outcome and records are those of `NormalizeAll` on the old array with both locals unbound |
| ResumePercent.WithPercentage | kodicontroller/kodicontroller.py:102-124 | the reference record: only `resume` changes; `resume.percentage` is the expected percentage; an existing `resume` keeps its other keys, a missing one becomes `{percentage}` |
| ResumePercent.NormalizeWellFormedItem | kodicontroller/kodicontroller.py:103-124 | a well-formed record is normalised without raising exactly as the reference says, whatever locals earlier records left |
| ResumePercent.NormalizeAllWellFormed | kodicontroller/kodicontroller.py:102-124 | on a list of well-formed records the loop returns normally and every record is its reference normalisation |
| ResumePercent.NormalizeItemCompletes | kodicontroller/kodicontroller.py:104-124 | any record the loop passes without raising has `resume.percentage` and no other key changed |
| ResumePercent.NormalizeAllCompletes | kodicontroller/kodicontroller.py:102-124 | whatever the records, a normal return leaves every record with `resume.percentage` and no key other than `resume` changed |
| ResumePercent.NormalizeAllWellFormedRecords | kodicontroller/kodicontroller.py:102-124 | whatever the other records, a normal return leaves each well-formed record exactly as the reference WithPercentage says |
| ResumePercent.RatioInRange | kodicontroller/kodicontroller.py:119-122 | with 0 <= position <= total the percentage lies in [0, 100] |
| ResumePercent.StalePositionLeaks | kodicontroller/kodicontroller.py:103-124 | a second record without `resume.position` gets a percentage from the first record's position, and the KeyError propagates after the store |
| ResumePercent.FirstMalformedIsUnbound | kodicontroller/kodicontroller.py:104-122 | the same shape on the first record raises UnboundLocalError for `currentValue` from the `finally` clause, after `maxValue` was bound |
| Targets.ActivePlayerId | kodicontroller/kodicontroller.py:37 | an id is found exactly when the query returned a non-empty list whose first entry is a dict with `playerid`, and it is that entry's `playerid` |
| Targets.GetActivePlayer | kodicontroller/kodicontroller.py:34-43 | no resolvable player → `{}`; otherwise the command's own result with that id |
| Targets.NoActivePlayerSkipsCommand | kodicontroller/kodicontroller.py:36-40 | a failed query or an empty player list gives `{}` whatever the command |
| Targets.FirstActivePlayerWins | kodicontroller/kodicontroller.py:37-42 | the command is called with the first player's id whatever follows it |
| Targets.ScanErrorPersists | kodicontroller/kodicontroller.py:51-53 | once an entry raised, later entries do not change the outcome |
| Targets.ScanEntry | kodicontroller/kodicontroller.py:52-53 | one iteration: KeyError/TypeError from `type`; otherwise a matching entry rebinds `playlist_id` (or raises on a missing `playlistid`) and any other entry leaves it |
| Targets.ScanPlaylists | kodicontroller/kodicontroller.py:51-53 | the loop over a prefix of the list: the binding of `playlist_id` after it, or the first exception |
| Targets.PlaylistId | kodicontroller/kodicontroller.py:50-54 | the id passed on: the loop over a list, Python's iteration of anything else, and UnboundLocalError when nothing was bound |
| Targets.PlaylistCall | kodicontroller/kodicontroller.py:49-54 | the decorated call: the query's exception, the resolution's exception, or the command's result for the id |
| Targets.ScanFailureRaises | kodicontroller/kodicontroller.py:50-54 | an entry raising inside the loop ends the decorated call with that exception, the command not called |
| Targets.GetPlaylists | kodicontroller/kodicontroller.py:48-54 | the method's result is `PlaylistCall`: query error, iteration error, UnboundLocalError when nothing matched, or the command with the last match's id |
| Targets.ScanSucceedsIffWellFormed | kodicontroller/kodicontroller.py:51-53 | the loop raises exactly when some entry lacks `type` or a matching entry lacks `playlistid` |
| Targets.ScanUnboundIffNoMatch | kodicontroller/kodicontroller.py:51-54 | on a well-formed list `playlist_id` stays unbound exactly when no entry has the requested type |
| Targets.ScanFindsLastMatch | kodicontroller/kodicontroller.py:51-53 | on a well-formed list the bound id is the last matching entry's `playlistid` |
| Targets.NoMatchingPlaylistRaises | kodicontroller/kodicontroller.py:50-54 | with no matching entry the decorated call raises UnboundLocalError and never calls the command |
| Targets.LastMatchingPlaylistWins | kodicontroller/kodicontroller.py:50-54 | with matches the command is called with the last match's id |
| ListCommands.ListReply | kodicontroller/kodicontroller.py:234-244 | a query error propagates; a non-dict response raises TypeError; a missing key gives `[]` with the filesystem unchanged; the filesystem only grows |
| ListCommands.ReturnedRecordsAreProcessed | kodicontroller/kodicontroller.py:236-244 | returned records are exactly the input records with thumbnails rewritten; for GetMovies each also has `resume.percentage` with no top-level key other than `resume` changed, and a well-formed record is exactly the reference `WithPercentage` of its rewritten self, so its percentage is the expected one and its other `resume` keys are kept |
| ListCommands.RewrittenKeepsWellFormed | kodicontroller/kodicontroller.py:241-242 | rewriting the thumbnail keeps a record well-formed for GetResumePercent |
| ListCommands.ReturnedThumbnailsAreCached | kodicontroller/kodicontroller.py:236-244 | after a list command returns, every non-empty identifier in its records names a cached file |
| ListCommands.RunListCommand | kodicontroller/kodicontroller.py:234-244 | the method's result and filesystem are those of `ListReply` for the command's key and post-processing |

## Left out

- The transport is left out: the GetServer decorator, `jsonrpcclient`, credentials,
  logging, Status and every command outside the four list commands. Server responses
  are inputs (`Result<Value>`), and a failed query is an `External` error.
- md5, `urllib.parse.quote_plus` and `requests.get` with `shutil.copyfileobj` are
  parameters of `Thumbnails.Remote`. Only their results are modelled: a digest of 32
  lower-case hex digits, and a body that may be cut short by an exception.
- The request's fixed basic-auth credentials are not modelled.
- Paths are plain strings. There is no normalisation, no trailing-slash handling, and no
  permission or disk-full failure of `os.mkdir` or `open`. Writing into an existing
  cache directory never fails.
- FileStore.Disk.Mkdir raises FileNotFound, not NotADirectory, when a path component
  above the parent is a regular file. `Disk.Exists("")` holds when "" is recorded as a
  path, although `os.path.exists("")` is False. The cache directory `static/cache`
  meets neither case.
- The `int(item['episode'])` loop of VideoLibrary_GetEpisodes is not part of this model,
  nor is that command.
- Concurrency is left out: two callers racing on the same cache file, and the non-atomic
  write.
- Numbers are exact reals, not IEEE floats. The percentage is exact.
- `float()` of a numeric string raises ValueError in the model. Python would parse it.
- Python's cross-type equality (`True == 1`, `1 == 1.0`) in `playlist['type'] ==
  playlistType` and `maxValue == 0` is modelled only for the zero test.
  `Targets.TypeMatches` uses structural equality of JSON values.
- Aliasing between records is not modelled: the same dict appearing twice in one list
  cannot arise from a decoded JSON response.
- Targets.GetPlaylists: the decorated command is a pure function of the id. The
  composition with Playlist_GetItems, whose body changes the filesystem, is not stated,
  and neither is its `int(playlist_id)` conversion.
- ListCommands.RunListCommand copies the decoded list into a fresh array. The response
  object itself is not kept.
