# YouTube video ingestion service, modelled in Dafny

This project models the deterministic core of a small video-ingestion system.
The system has three parts:

- a main HTTP service that accepts a YouTube URL and downloads the video with
  either of two interchangeable backends: a local one that runs the extraction
  library itself, and a remote proxy that forwards the request to a separate
  extraction service;
- that extraction service, with its own download and cleanup endpoints;
- a front-end component that submits the URL and displays the result.

What the model covers:

- **URL validation** (`UrlValidator`). Both backends use the same regular
  expression `(https?://)?(www\.)?(youtube\.com|youtu\.be)/.+` under Python's
  `re.match`. The expression is written as a syntax tree. `re.match` gets its
  meaning as the set of positions where a match from position 0 can end. The
  model proves that this accepts exactly the strings that start with a scheme
  (or none), `www.` (or not), one of the two hosts and `/`, followed by a
  character that is not a newline. Both backends call this one validator
  (backend/services/video_downloader.py:36-37 and
  backend/services/video_downloader_api.py:16-17), so they agree on every
  string by construction.
- **Result shaping** (`Records`, `LocalDownloader`, `RemoteProxy`, `YtdlpApi`).
  The model includes the default values of missing keys. A key that is present
  with the value `None` is kept apart from a missing key, because Python's
  `dict.get` gives the default only for a missing key. It also covers the two
  different description truncations.
- **The temporary directory** (`FileSystem`, `LocalDownloader`, `YtdlpApi`). The
  directory is a table from path to entry (`File(mtime)` or `Dir`), held in a
  `Disk` object that methods change in place. `Disk.locked` names the paths
  whose `unlink` fails with a permission error (`EACCES`), files and
  directories alike, because the permission check comes first. Four operations change the
  table, and each is specified by a function of the old table:
  - removal of the partial file when a download fails,
  - `delete_video`,
  - the age-based sweep `cleanup_old_videos`, a loop over the listed files,
  - the extraction service's `/cleanup/{video_id}`.
- **Error mapping** (`RemoteProxy`, `VideoRoutes`, `Deployment`). The HTTP call
  ends as `Timeout`, `ConnectionFailed`, `TransportFailed(text)` or
  `Responded(status, body)`. The model covers:
  - the messages each backend raises,
  - how the route turns `ValueError` into 400 and everything else into 500,
  - the fact that 400 comes only from the validator,
  - the prefixes that stack up along the full remote path.
- **The front end** (`VideoFetcher`). It covers `formatDuration` with
  JavaScript's flooring division and truncating `%`, the duration label, the
  submit button's disabled rule, and the state changes of `handleSubmit`.

The extraction library, the random identifier, the clock and the HTTP
transport are inputs:

- `Extraction` is either `Extracted(info, mtime)` or
  `ExtractionFailed(error, partial)`;
- the identifier `videoId` and the current time `now` are parameters;
- `HttpOutcome` is the outcome of the HTTP call.

Where the design description and the code differ, the model follows the code:

- A zero-hour sweep removes only files modified strictly before `now`, because
  the age test `now - mtime > 0` is strict. It does not remove "all `.mp4`
  files regardless of age".
- The remote backend fills in the description but never truncates it. The
  extraction service truncates it to 200 characters without an ellipsis. The
  local backend keeps the first 200 characters and always adds `...`, even to a
  short description.
- A remote error reaches the client behind several stacked prefixes
  (`Deployment.RemoteEndToEnd`).

## Model

| member | source | states |
|---|---|---|
| `UrlValidator.Ends` | backend/services/video_downloader.py:37 | the set of positions where a match of the tree starting at `i` can end, each between `i` and the length of the text; its meaning for the validator's expression is what `ValidatorCharacterised` states |
| `UrlValidator.ReMatch` | backend/services/video_downloader.py:37 | `re.match(r, u)` is truthy exactly when some match that starts at position 0 ends somewhere, in any position and not necessarily at the end of the text |
| `UrlValidator.ValidateYouTubeUrl` | backend/services/video_downloader.py:36-37 | `validate_youtube_url` is `ReMatch` of the tree for the expression; the strings it accepts are exactly those `ValidatorCharacterised` describes |
| `UrlValidator.ValidatorCharacterised` | backend/services/video_downloader.py:36-37 | under `re.match`, the regex accepts `u` exactly when `u` starts with a scheme in {"", "http://", "https://"}, then "" or "www.", then "youtube.com" or "youtu.be", then "/", followed by a character other than a newline; both directions |
| `UrlValidator.AcceptsAfterPrefix` | backend/services/video_downloader.py:36-37 | every such combination followed by one non-newline character is accepted, whatever comes after it |
| `UrlValidator.AcceptsWatchUrl` | backend/models/schemas.py:10 | the request model's example URL is accepted |
| `UrlValidator.AcceptsShortPaths` | backend/services/video_downloader.py:36-37 | `youtu.be/x`, with neither scheme nor `www.`, is accepted; so is `http://youtube.com//` followed by a newline, because only the character right after `/` is constrained and the match need not reach the end |
| `UrlValidator.AcceptedPrefixStart` | backend/services/video_downloader.py:36 | every accepted prefix starts with lower-case `h`, `w` or `y` |
| `UrlValidator.RejectsOtherFirstCharacter` | backend/services/video_downloader.py:36-37 | an empty string, or one starting with any other character, is rejected (matching is case-sensitive) |
| `UrlValidator.RejectsExamples` | backend/services/video_downloader.py:36-37 | "not a url", an upper-case URL and "" are rejected |
| `UrlValidator.AcceptedPrefixStartingWithY` | backend/services/video_downloader.py:36 | the only accepted prefixes with no scheme and no `www.` are `youtube.com/` and `youtu.be/` |
| `UrlValidator.RejectsEmptyPath` | backend/services/video_downloader.py:36 | `.+` needs a non-newline character right after `/`: `youtube.com/` alone and `youtu.be/` followed by a newline are rejected |
| `Base.GetOr` | backend/services/video_downloader.py:99-102 | `dict.get(key, default)`: a missing key gives the default, a key present as None gives None, and a present value is copied |
| `Base.GetOrNone` | backend/services/video_downloader_api.py:49-50 | `dict.get(key)` with no default: a value exactly when the key is present with a value, and then that value |
| `Records.Title` | backend/services/video_downloader.py:99 | the title is `Unknown` when the key is missing, the value when present, and None when present as None |
| `Records.Duration` | backend/services/video_downloader.py:100 | the duration is 0 when the key is missing, copied otherwise |
| `Records.Uploader` | backend/services/video_downloader.py:101 | the uploader is `Unknown` when the key is missing, copied otherwise |
| `Records.Thumbnail` | backend/services/video_downloader.py:102 | the thumbnail is "" when the key is missing, copied otherwise |
| `FileSystem.OsErrorText` | ytdlp_API/main.py:133 | `str(e)` of the `OSError` that `unlink` raises is "[Errno n] " plus the message for errno 2, 21 or 13, then ": " and the `repr` of the path; `CleanupOfDirectory` reads the path back from it |
| `PyText.PyRepr` | ytdlp_API/main.py:133 | Python's `repr` of a string: the text between one quote character at each end, a double quote when the text holds a single quote and no double quote, a single quote otherwise |
| `PyText.PyReprRoundTrip` | ytdlp_API/main.py:133 | reading the quoted literal back (dropping the quotes and undoing the escapes) gives the original text, for every text |
| `PyText.PyReprPlain` | ytdlp_API/main.py:133 | a text with no backslash and no control character is quoted as it is, in single quotes, or in double quotes when it holds a single quote but no double quote |
| `PyText.PyReprBothQuotes` | ytdlp_API/main.py:133 | with both quote characters present, single quotes are used and the single quote inside is escaped |
| `PyText.PyReprEscapes` | ytdlp_API/main.py:133 | a backslash is doubled and a newline is written as backslash-n |
| `PyText.PyReprHexEscape` | ytdlp_API/main.py:133 | another control character, such as U+0001, is written as a `\x` escape with two lower-case hexadecimal digits |
| `FileSystem.Disk.Write` | backend/services/video_downloader.py:92 | the extraction library's write of the output file: the entry at that path becomes the given one and no other entry changes |
| `FileSystem.UnlinkError` | backend/services/video_downloader.py:128 | `unlink` succeeds exactly on an existing regular file that the process may remove; otherwise it raises an `OSError`: no such file exactly for a missing path, permission denied exactly for an existing locked path (file or directory, since Linux checks permission before the directory test), is a directory exactly for an unlocked directory |
| `FileSystem.Disk.Unlink` | ytdlp_API/main.py:128 | the error raised is `UnlinkError` of the old table, and the path is removed exactly when nothing was raised |
| `LocalDownloader.OutputPath` | backend/services/video_downloader.py:59 | `temp_dir / f"{video_id}.mp4"`, as `temp_dir + "/" + id + ".mp4"`; `OutputPathListed` shows the sweep lists it |
| `LocalDownloader.AfterExtraction` | backend/services/video_downloader.py:92 | a successful extraction leaves a file with its modification time at the output path; a failed one leaves the partial file it wrote there, if any; the stand-in writes no path other than the output path |
| `LocalDownloader.Deletes` | backend/services/video_downloader.py:127-128 | the path is one whose `unlink` raises nothing: an existing regular file that is not locked (`UnlinkError` of the table is None) |
| `LocalDownloader.LocalDescription` | backend/services/video_downloader.py:103 | an absent, None or empty description gives ""; otherwise the result is at most 203 long, ends in "...", and is a prefix of the description of length min(200, len) followed by "...", even for a short one |
| `LocalDownloader.LocalRecord` | backend/services/video_downloader.py:95-104 | success is True; `video_id` and `file_path` are the given ones; the metadata fields take the defaults above |
| `LocalDownloader.DownloadSpec` | backend/services/video_downloader.py:53-113 | an invalid URL raises ValueError("Invalid YouTube URL provided") and changes nothing; on success the record's path is `temp_dir/<video_id>.mp4` for the returned id, and that file is in the table; on failure the output path is removed and "Failed to download video: " + the error is raised, unless the removal fails, in which case that OSError escapes; since the stand-in extraction writes only the output path, the model changes no other path |
| `LocalDownloader.DownloadVideo` | backend/services/video_downloader.py:39-113 | the method's result and the new directory are those of `DownloadSpec` applied to the old directory |
| `LocalDownloader.AfterDelete` | backend/services/video_downloader.py:115-133 | a deletable path (an existing, removable regular file) is absent afterwards; otherwise the table is unchanged; other paths never change |
| `LocalDownloader.DeleteVideo` | backend/services/video_downloader.py:115-133 | returns true exactly when the path was an existing regular file that could be unlinked; the new directory is `AfterDelete` of the old; it never raises |
| `LocalDownloader.DeleteTwice` | backend/services/video_downloader.py:125-130 | deleting the same path again reports false and changes nothing |
| `LocalDownloader.InGlobMp4` | backend/services/video_downloader.py:146 | `glob("*.mp4")` lists a path exactly when it is `temp_dir + "/" + name` with a name that holds no `/` and ends in `.mp4` |
| `LocalDownloader.Expired` | backend/services/video_downloader.py:147-149 | a listed path that is a regular file whose age `now - mtime` is strictly greater than `max_age_hours * 3600` |
| `LocalDownloader.SweepSpec` | backend/services/video_downloader.py:135-154 | a path disappears exactly when it is a direct `*.mp4` child of the directory, is a regular file, is strictly older than `max_age_hours * 3600` seconds, and can be unlinked; every kept entry is unchanged |
| `LocalDownloader.SweepOne` | backend/services/video_downloader.py:147-154 | one loop pass removes the path only if it is a removable regular file older than the threshold; a failing unlink leaves the table as it was |
| `LocalDownloader.CleanupOldVideos` | backend/services/video_downloader.py:135-154 | the loop over the listed files leaves exactly `SweepSpec` of the old directory; per-file failures do not stop it |
| `LocalDownloader.CleanupOldVideosDefault` | backend/services/video_downloader.py:135 | called without an argument, the sweep uses the default of 24 hours: the new directory is `SweepSpec` of the old with 24 |
| `LocalDownloader.SweepDefaultIsADay` | backend/services/video_downloader.py:135-149 | with the default, a listed file at most 86400 seconds old is kept and one older than that is removed unless its unlink fails |
| `LocalDownloader.SweepKeeps` | backend/services/video_downloader.py:146-149 | files younger than the threshold or exactly at it, unlisted entries and directories are kept unchanged |
| `LocalDownloader.SweepZeroHours` | backend/services/video_downloader.py:144-151 | with 0 hours, every listed removable file modified strictly before `now` is removed |
| `LocalDownloader.SweepNothingOldEnough` | backend/services/video_downloader.py:144-149 | if no file has passed the threshold, the sweep changes nothing |
| `LocalDownloader.SweepMonotone` | backend/services/video_downloader.py:144-149 | a longer threshold keeps a superset of what a shorter one keeps |
| `LocalDownloader.SweepIdempotent` | backend/services/video_downloader.py:143-154 | a second sweep at the same time removes nothing more |
| `LocalDownloader.OutputPathListed` | backend/services/video_downloader.py:58-59 | the file a download writes is a direct `*.mp4` child of the directory, so the sweep lists it |
| `LocalDownloader.DownloadedVideoSwept` | backend/services/video_downloader.py:146-151 | a downloaded video is removed by the first sweep that runs more than `max_age_hours` after it was written, unless it is unremovable |
| `LocalDownloader.DownloadedVideoDeletable` | backend/services/video_downloader.py:127-129 | `delete_video` on the returned `file_path` removes exactly the downloaded file |
| `RemoteProxy.DetailText` | backend/services/video_downloader_api.py:58 | a missing detail reads "Unknown error", a None one "None", and otherwise the detail itself |
| `RemoteProxy.RecordFromBody` | backend/services/video_downloader_api.py:45-56 | for a missing key, `success` defaults to False, title and uploader to `Unknown`, duration to 0, thumbnail and description to ""; a key present as null gives None and a present value is copied; the description is not truncated; `video_id` and `file_path` are copied, None if missing |
| `RemoteProxy.MapOutcome` | backend/services/video_downloader_api.py:44-66 | a timeout gives exactly "Download timeout - video might be too large"; a connection failure gives "Cannot connect to YT-DLP API at " + api_url; a 200 JSON reply gives the record; a non-200 reply gives "Failed to download video: API returned error: " + detail; an undecodable body or another exception gives "Failed to download video: " + its text; never a ValueError |
| `RemoteProxy.ProxyDownload` | backend/services/video_downloader_api.py:33-66 | an invalid URL raises the ValueError and sends nothing; otherwise one POST to `api_url + "/download"` with the URL and a 120 s timeout, mapped as above |
| `RemoteProxy.ProxyValueErrorOnlyForInvalidUrl` | backend/services/video_downloader_api.py:34-35 | a ValueError arises exactly when the validator rejects the URL |
| `RemoteProxy.ProxyCleanup` | backend/services/video_downloader_api.py:68-88 | a DELETE goes to `api_url + "/cleanup/" + id` with a 10 s timeout; the result is true only for a 200 JSON reply whose `success` is true; any other status or body, and any exception, gives false; it never raises |
| `YtdlpApi.VideoPath` | ytdlp_API/main.py:78 | `TEMP_DIR / f"{video_id}.mp4"`, as `temp_videos/<id>.mp4`; the download reply's `file_path` and the cleanup endpoint's file are both this path |
| `YtdlpApi.ApiDescription` | ytdlp_API/main.py:111 | the description is at most 200 long and is a prefix of the original, with no ellipsis; one of 200 characters or fewer is unchanged; a longer one gives exactly 200; an absent or empty one gives "" |
| `YtdlpApi.ApiDownload` | ytdlp_API/main.py:71-119 | success gives `success=True`, message "Video downloaded successfully", the id, `temp_videos/<id>.mp4` and the defaulted metadata; any extraction error gives HTTP 500 "Download failed: " + the error; there is no URL validation |
| `YtdlpApi.CleanupSpec` | ytdlp_API/main.py:122-133 | an existing `<id>.mp4` that can be unlinked is removed, with the reply (True, "Video deleted"); a missing one gives (False, "Video not found") and no change; an existing one whose unlink fails gives HTTP 500 with the error text; only that key is touched |
| `YtdlpApi.CleanupVideo` | ytdlp_API/main.py:122-133 | the endpoint's reply and the new directory are those of `CleanupSpec` |
| `YtdlpApi.CleanupTwice` | ytdlp_API/main.py:126-131 | after a cleanup that deleted the file, the same id reports "Video not found" |
| `YtdlpApi.CleanupOfDirectory` | ytdlp_API/main.py:127-133 | an unlocked directory at `<id>.mp4` gives HTTP 500 with a detail that starts "[Errno 21] Is a directory: " and whose rest reads back as the file's path |
| `YtdlpApi.CleanupOfDirectoryQuoted` | ytdlp_API/main.py:126-133 | for an id with a single quote, no double quote and no backslash or control character (such as `it's`), an unlocked directory's detail is exactly "[Errno 21] Is a directory: " followed by the path in double quotes |
| `YtdlpApi.ApostropheIdIsPlain` | ytdlp_API/main.py:122-123 | the identifier `it's`, which a request to `/cleanup/it's` carries, meets the requires of `CleanupOfDirectoryQuoted`: no backslash or control character, a single quote and no double quote |
| `YtdlpApi.CleanupOfLockedPath` | ytdlp_API/main.py:127-133 | an existing `<id>.mp4` the process may not remove, file or directory, gives HTTP 500 with a detail that starts "[Errno 13] Permission denied: " and whose rest reads back as the path, and nothing changes |
| `VideoRoutes.FetchVideo` | backend/routes/video_routes.py:23-48 | a ValueError becomes 400 with its text verbatim; any other exception becomes 500 with "Failed to download video: " + its text; a normal return always gives success True and "Video downloaded successfully", and copies `video_id`, `file_path`, title, duration, uploader, thumbnail and description unchanged |
| `VideoRoutes.LocalBadRequestIffInvalid` | backend/routes/video_routes.py:39-43 | with the local backend, the response is 400 exactly when the validator rejects the URL, and then the detail is "Invalid YouTube URL provided" |
| `VideoRoutes.RemoteBadRequestIffInvalid` | backend/routes/video_routes.py:39-43 | the same holds for the remote backend, whatever the HTTP outcome |
| `VideoRoutes.LocalFailureDoublePrefix` | backend/routes/video_routes.py:44-48 | a failed local extraction whose cleanup succeeds reaches the client as 500 "Failed to download video: Failed to download video: " + the error |
| `VideoRoutes.RemoteTransportMessages` | backend/services/video_downloader_api.py:61-64 | a remote timeout and a remote connection failure each keep their own text behind the route's single prefix |
| `VideoRoutes.RemoteSuccessFlagIgnored` | backend/routes/video_routes.py:27-29 | a 200 reply whose `success` is false still yields a response with success True |
| `VideoRoutes.HealthCheck` | backend/routes/video_routes.py:56-62 | the payload is always status "healthy", service "video-ingestion", version "1.0.0" |
| `Deployment.ToWire` | ytdlp_API/main.py:103-119 | a response model goes out as a 200 JSON body with every field, None as null and nothing missing; an `HTTPException` goes out with its status and a body holding only `detail` |
| `Deployment.RemoteEndToEndSuccess` | ytdlp_API/main.py:103-113 | a successful extraction, passed through the extraction service, the proxy and the route, arrives with the service's id, its path `temp_videos/<id>.mp4`, the defaulted metadata and its description truncated to 200 characters without an ellipsis |
| `Deployment.RemoteEndToEndFailure` | ytdlp_API/main.py:115-119 | a failed extraction arrives as 500 with four stacked prefixes: "Failed to download video: Failed to download video: API returned error: Download failed: " + the error |
| `Deployment.RemoteEndToEnd` | ytdlp_API/main.py:103-119 | both of the above, for every extraction outcome |
| `Deployment.DescriptionsDiffer` | backend/services/video_downloader.py:103 | the local description is the extraction service's description followed by "...", and both are "" when there is no description |
| `VideoFetcher.FormatDuration` | frontend/src/components/VideoFetcher.tsx:28-32 | minutes by flooring division, then `:`, then the JavaScript remainder of 60 padded to two characters; its meaning is stated by `FormatDurationRoundTrip` and `FormatDurationExamples` |
| `Text.IntToString` | frontend/src/components/VideoFetcher.tsx:31 | an integer's `toString()`: a minus sign for a negative number, then the decimal digits of its absolute value with no leading zero |
| `Text.ParseNatToString` | frontend/src/components/VideoFetcher.tsx:31 | the decimal digits of a non-negative number read back as that number |
| `VideoFetcher.JsRemainder` | frontend/src/components/VideoFetcher.tsx:30 | for a positive divisor, the result differs from the dividend by a multiple of the divisor and takes the dividend's sign: in [0, divisor) for a non-negative dividend and in (-divisor, 0] for a negative one, which is JavaScript's truncating `%`; it is the ordinary remainder for a non-negative dividend and minus the remainder of the absolute value for a negative one |
| `Text.PadStart2` | frontend/src/components/VideoFetcher.tsx:31 | a text of two or more characters is unchanged; a shorter one is left-padded with `0` to exactly two characters |
| `VideoFetcher.FormatDurationRoundTrip` | frontend/src/components/VideoFetcher.tsx:28-32 | for s >= 0 the text reads back as minutes s div 60 (not wrapped into hours), a colon, and a seconds field of exactly two digits worth s mod 60 < 60, so that minutes*60 + seconds == s |
| `VideoFetcher.SecondsField` | frontend/src/components/VideoFetcher.tsx:30-31 | for a value below 60, the padded seconds field has exactly two characters and reads back as that value |
| `VideoFetcher.FormatDurationExamples` | frontend/src/components/VideoFetcher.tsx:28-32 | 42 s gives "0:42", 65 s gives "1:05", 3725 s gives "62:05", and -5 s gives "-1:-5" (flooring division, truncating remainder) |
| `VideoFetcher.DurationLabel` | frontend/src/components/VideoFetcher.tsx:101 | the label is 'N/A' exactly when the duration is 0 or absent, and is the formatted duration otherwise |
| `VideoFetcher.Fetcher.SubmitDisabled` | frontend/src/components/VideoFetcher.tsx:54 | the button is disabled exactly while loading or when the URL is empty; `BeginSubmit` ensures it holds once a submission starts |
| `VideoFetcher.Fetcher.constructor` | frontend/src/components/VideoFetcher.tsx:7-10 | the state starts with an empty URL, not loading, no error and no result |
| `VideoFetcher.Fetcher.SetUrl` | frontend/src/components/VideoFetcher.tsx:45 | only the URL changes |
| `VideoFetcher.Fetcher.BeginSubmit` | frontend/src/components/VideoFetcher.tsx:14-16 | loading becomes true and error and result are cleared, so the button (disabled when loading or the URL is empty, line 54) is disabled |
| `VideoFetcher.Fetcher.FinishSubmit` | frontend/src/components/VideoFetcher.tsx:18-25 | a response is stored as the result, a thrown message as the error; loading ends false either way |
| `VideoFetcher.Fetcher.HandleSubmit` | frontend/src/components/VideoFetcher.tsx:12-26 | afterwards loading is false; on success the result is set and the error is empty, on failure the error is the message and there is no result; so exactly one is set when the message is not empty |

## Left out

- The extraction library (`yt_dlp`) and its option dictionaries. `Extraction` stands in for `extract_info`. The file it writes on success is taken to be at the output path, and its modification time is a parameter.
- `LocalDownloader.AfterExtraction`: the stand-in extraction writes only at the output path. The library, with the options at backend/services/video_downloader.py:62-86 (no `nopart`), downloads into `<id>.mp4.part` and, for the merged `bestvideo+bestaudio` format, into per-format intermediate files. After a failure these stay behind: the cleanup at lines 110-111 checks only the output path, and `glob("*.mp4")` does not list them, so `cleanup_old_videos` never removes them either. The model does not track these files, so `DownloadSpec`'s promise that no other path changes holds of the model only.
- `uuid.uuid4()`: the identifier is a parameter. Nothing assumes that identifiers are unique, and the sweep lemmas ask only that the identifier contain no `/`. If the output path collides with an existing directory, a successful `Extracted` replaces the directory with a file, where the real library would fail to write; an identifier from `uuid4` makes that collision practically impossible.
- `time.time()` and `st_mtime` are whole seconds, not floating point. Durations are integers too, and the front end's `formatDuration` is modelled on integers only.
- The `requests` calls. Only their outcome is modelled. The subclass order of `requests` exceptions (`ConnectTimeout` is both a timeout and a connection error and is caught as a timeout) is folded into the outcome datatype. A JSON body that is not an object falls under the undecodable-body case.
- `RemoteProxy.DetailText`: a `detail` that is not a string (such as the list in a 422 validation reply) is modelled by its text form.
- `RemoteProxy.ProxyCleanup`: a `success` of `null` makes the source return `None`, which is falsy. The model returns false.
- `YtdlpApi.ApiDownload`: the response model's fields declared `str = None` or `int = None` (ytdlp_API/main.py:41-47) are read as optional, as pydantic 1 does, so a None title, duration, uploader or thumbnail from the extraction library passes through as null. Under pydantic 2 such a None is rejected: the `ValidationError` is raised inside the `try` and the endpoint answers 500 "Download failed: " + the validation text. That outcome is not modelled.
- Pydantic validation of the main service's response model. A field of the wrong type would raise a `ValidationError`, which is a `ValueError`, and the route would then answer 400 instead of 500; the model takes every field to have its declared type. FastAPI's own 422 for a malformed request body is also left out.
- `YtdlpApi.ApiDownload`: the extraction service's `/download` is a function with no effect on the directory. It does not remove the partial file its library may leave, and the model does not track that file.
- Path handling: `str(Path(dir) / name)` is `dir + "/" + name`. The local backend's configured directory is taken as already normalised, so no trailing slash, no `./` and no links. The extraction service's `./temp_videos` is written in its normalised form `temp_videos`. `glob("*.mp4")` is taken to list every direct child whose name ends in `.mp4`, including hidden ones.
- `LocalDownloader.DeleteVideo`: the argument is looked up as it is given. `Path(file_path)` normalises it first, dropping a trailing `/`, collapsing `//` and removing a leading `./`, so the source deletes `t/x.mp4` for `"t/x.mp4/"` where the model reports false and changes nothing.
- `PyText.PyRepr`: every character from U+0020 up, other than U+007F, is taken to be printable. Python's `repr` also escapes the non-printable characters beyond ASCII (as `\x`, `\u` or `\U` escapes); the model copies them.
- Filesystem errors other than those of `unlink` (for example `exists()` or `stat()` failing).
- `FileSystem.UnlinkError`: a locked path stands only for missing write or search permission on the parent directory, which raises `EACCES` ("[Errno 13] Permission denied"). The `EPERM` refusal of a sticky directory or an immutable file ("[Errno 1] Operation not permitted") and other errnos such as `EROFS` or `EBUSY` are not modelled.
- The `print` logging in `delete_video`, `cleanup_old_videos` and `cleanup_video`.
- Backend selection by the `USE_EXTERNAL_API` environment flag (backend/services/__init__.py). Each backend is stated separately and composed with the route by its own lemmas.
- The process-wide SSL and environment changes, the FastAPI/uvicorn application setup, CORS, the root endpoints and the extraction service's `/health` (ytdlp_API/main.py:14-68), and backend/config.py. `MAX_VIDEO_DURATION` and `ALLOWED_VIDEO_FORMATS` are never used by the code.
- The front end's rendering, the axios wrapper in frontend/src/services/api.ts, and page.tsx. The outcome of `videoApi.fetchVideo` is a parameter of `HandleSubmit`.
- Asynchronous scheduling and concurrency: each request and each submission is one sequential step.
