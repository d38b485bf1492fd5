# Download registry and format handling of a YouTube download API, in Dafny

The service is a Flask application around yt-dlp and ffmpeg. This project models
the deterministic core of `app.py`:

- **Download registry** (`registry.dfy`, module `Registry`): the two module-level
  dictionaries `downloads_in_progress` and `completed_downloads` become the fields
  `inProgress` and `completed` of the class `DownloadRegistry`. Background
  downloads (`process_download`), the yt-dlp progress hook (`update_progress`),
  the status and file endpoints, the registry writes of the direct-download
  endpoint and the registry half of the clean-up thread are methods and
  functions of that class. yt-dlp and ffmpeg results, clocks and file existence
  are parameters.
- **Format classification** (`formats.dfy`, module `Formats`): the metadata
  endpoint's split of the format list into `audio_formats` and `video_formats`,
  two order-preserving filters built by loops, specified by `AudioList` and
  `VideoList`. Nothing is deduplicated, sorted or ranked.
- **Channel helpers** (`channel.dfy`, module `Channel`): the verified-badge
  check and the profile-picture pick.
- **Names and selectors** (`naming.dfy`, module `Naming`): the cache file name,
  the yt-dlp format selector, title cleaning and the attachment name, and the
  search over fallback extensions for the file yt-dlp wrote.
- Support modules: `Wrappers` (Option), `Text` (Python truthiness of optional
  strings, substring test, ASCII case folding, splitting at a separator) and
  `Picking` (a generic order-preserving filter-and-transform with lemmas that
  pin down every element's position).

Behaviour reproduced as written:
- `merge_video_audio` swallows ffmpeg errors and returns false, and
  `process_download` ignores that value: a failed merge still gives a
  "completed" record (`FinishDownload`, `ProcessRecord`).
- Without a format id, `process_download` ignores the audio id (`PlanFor`).
- When yt-dlp raises inside the direct-download endpoint, its in-progress entry
  is never removed, and no sweep removes in-progress entries
  (`DirectDownload`, `CleanupRegistry`).
- The direct-download endpoint writes a "completed" record before checking that
  the output file exists; when it does not, the reply is a 500 but the record
  stays "completed".
- A format whose `vcodec` key is missing counts as video (`IsVideo`).
- The cache file name of the direct-download endpoint does not separate a
  format id containing '_' from a request with an audio id: format "1" with
  audio "2" and format "1_2" without audio both use `<video id>_1_2.mp4`, so a
  file cached for one request can be sent for the other
  (`CacheFilenameCollision`).
- The audio id of the direct-download endpoint is an unrestricted query
  parameter that goes into the cache file name unchecked, so the name can
  carry path segments: audio id `ba/../../x` gives the path
  `<folder>/v_f_ba/../../x.mp4`, which starts with `<folder>/` but resolves
  outside it. The cached-file check and the file endpoint use such a path as
  it is (`DirectDownload`, `FileToServe`).

`app.py` implements no request throttle or retry loop of its own (it only
passes `retries: 3` and a 30-second socket timeout to yt-dlp), and no
deduplication, ranking, weighted progress phases or guaranteed clean-up of
merge inputs, so none is modelled.

## Model

| member | source | states |
|---|---|---|
| Channel.AnyVerified | app.py:95-99 | true exactly when some badge of the list is verified |
| Channel.VerificationStatus | app.py:93-99 | true iff the badge list exists and some badge is a non-empty dict whose lower-cased `type` contains "verified"; a missing or empty list gives false |
| Channel.VerifiedAnyCase | app.py:97 | a badge dict whose `type` contains "verified" in any ASCII capitalisation, at any offset, is a verified badge |
| Channel.ProfilePicture | app.py:145-148 | the url of the first thumbnail that has a url and whose id contains "avatar"; nothing exactly when no thumbnail qualifies |
| Formats.Classification | app.py:151-168 | no format is both audio-only and video; a format is in neither list exactly when both codecs are "none" |
| Formats.ToAudioEntry | app.py:154-161 | an audio entry copies id, ext, filesize, note and abr and links to `/api/direct-download/<video id>/<format id>` |
| Formats.DigitsRoundTrip | app.py:180 | reading the decimal digits of a width or height back gives the number: the resolution shows `str(n)` |
| Formats.ToVideoEntry | app.py:169-181 | a video entry copies the format's fields, links to the direct download and shows `<width>x<height>` with missing sizes as 0 |
| Formats.ExtractAudioFormats | app.py:150-163 | the loop's result equals the audio-list specification |
| Formats.ExtractVideoFormats | app.py:165-183 | the loop's result equals the video-list specification |
| Formats.AudioListLength | app.py:151-161 | the audio list has exactly one entry per audio-only format |
| Formats.AudioListContains | app.py:151-161 | every audio-only format is in the audio list, at the count of audio-only formats before it |
| Formats.AudioListOnlyAudio | app.py:151-161 | every audio entry comes from an audio-only format at that position |
| Formats.VideoListLength | app.py:166-181 | the video list has exactly one entry per format whose vcodec is not "none" |
| Formats.VideoListContains | app.py:166-181 | every video format is in the video list, at the count of video formats before it |
| Formats.VideoListOnlyVideo | app.py:166-181 | every video entry comes from a video format at that position |
| Formats.ListsKeepUpstreamOrder | app.py:150-183 | of two formats in one list, the one earlier upstream comes first |
| Formats.DuplicatesKept | app.py:166-181 | two equal video formats give two equal entries: no deduplication |
| Naming.CacheFilename | app.py:446-449 | the name starts with `<video id>_<format id>`, ends in ".mp4", and between them holds `_<audio id>` exactly when a non-empty audio id is given |
| Naming.CacheFilenameRoundTrip | app.py:446-449 | for a format id without '_', the name gives back the format id and the non-empty audio id |
| Naming.CacheFilenameSeparatesFormats | app.py:446-454 | one video's cached files for two different format ids (without '_') have different names |
| Naming.CacheFilenameCollision | app.py:446-456 | format id f with audio id a and format id `f_a` without audio get the same cache name, so the cache check can answer one with the other's file |
| Naming.FormatSelector | app.py:476 | the selector is the format id, '+', then the audio id if one is given, else "bestaudio" |
| Naming.FormatSelectorRoundTrip | app.py:476 | split at its first '+', the selector gives back the format id and the audio part |
| Naming.SanitizeTitleOnlyKept | app.py:493 | the cleaned title holds only letters, digits, space, '.', '_' and '-' |
| Naming.SanitizeTitleLength | app.py:493 | the cleaned title has exactly one character per kept character of the title |
| Naming.SanitizeTitleOnlyFromTitle | app.py:493 | every character of the cleaned title is a kept character of the title at its rank: nothing is added |
| Naming.SanitizeTitleKeepsInOrder | app.py:493 | every kept character of the title survives, in order, at the count of kept characters before it |
| Naming.SanitizeTitleIdempotent | app.py:493 | cleaning a cleaned title changes nothing, nor does cleaning a title of kept characters |
| Naming.DownloadName | app.py:489-496 | a non-empty custom name wins; else the cleaned non-empty title plus ".mp4"; else the video id plus ".mp4" |
| Naming.TitleNameHasNoSeparator | app.py:490-494 | a title-derived attachment name contains no '/' |
| Naming.ResolveDownloadedFile | app.py:332-342 | the expected file if it exists, else the first existing candidate over mp4, webm, mkv, m4a, mp3, else the expected name |
| Registry.AfterHook | app.py:364-371 | "finished" sets processing and 100; "downloading" with a parsed percentage sets the progress only; anything else changes nothing; url, start time and a processing status are kept |
| Registry.AfterHooks | app.py:361-371 | a run of progress hooks never changes an entry's url or start time |
| Registry.ProcessingAfterFinishedHook | app.py:364-371 | from a downloading entry, the status reads processing after a run of hooks exactly when one of them reported "finished" |
| Registry.FinishedHookSetsFullProgress | app.py:369-371 | after a "finished" hook the entry reads processing with progress 100 until a later "downloading" hook carries a parsed percentage |
| Registry.PlanFor | app.py:247-287 | both ids give separate downloads and a merge; a format id alone gives `<format>+bestaudio`; no format id gives bestvideo+bestaudio, ignoring the audio id |
| Registry.MergeVideoAudio | app.py:344-359 | the merge reports success exactly when ffmpeg did not raise |
| Registry.ProcessRecord | app.py:296-311 | the record is completed iff no yt-dlp call raised; completed carries `<folder>/<id>.mp4` and `/api/get-file/<id>`; failed carries the message |
| Registry.Retained | app.py:47-54 | a record survives a sweep iff `now - completion_time <= 7200`, a missing time counting as 0, and survives unchanged |
| Registry.RetainedComposes | app.py:47-56 | a sweep after an earlier sweep leaves what a single sweep at the later time leaves |
| Registry.RecentRecordSurvives | app.py:50 | a record completed at t survives every sweep up to t + 7200 |
| Registry.CompletedFileName | app.py:415-420 | a completed background download is sent as `<id>.mp4` |
| Registry.DownloadRegistry.constructor | app.py:29-31 | both registries start empty |
| Registry.DownloadRegistry.StartDownload | app.py:228-233 | the id becomes in progress with status downloading, progress 0, its url and start time; terminal records unchanged |
| Registry.DownloadRegistry.FinishDownload | app.py:235-316 | the id leaves the in-progress registry and gets the terminal record of ProcessRecord, whatever ffmpeg did |
| Registry.DownloadRegistry.ProcessDownload | app.py:226-316 | afterwards the id is not in progress, has exactly one terminal record, and its status is "completed" iff no yt-dlp call raised |
| Registry.DownloadRegistry.UpdateProgress | app.py:361-371 | only the entry of the id changes, as AfterHook says, and only if it is in progress; terminal records unchanged |
| Registry.DownloadRegistry.Status | app.py:384-402 | an in-progress entry wins over a terminal record; an id in neither registry is not found; the reply carries the entry's fields, and a file link it carries names the id itself |
| Registry.DownloadRegistry.FileToServe | app.py:415-422 | a file is sent iff the record exists, is completed and its file exists, under the file's base name; every file path sent starts with `<download folder>/` |
| Registry.DownloadRegistry.CleanupRegistry | app.py:47-54 | the completed registry becomes exactly the retained records; the in-progress registry is untouched |
| Registry.DownloadRegistry.DirectDownload | app.py:440-516 | cached: sent with no registry change; yt-dlp raised: 500 and the in-progress entry stays as the progress hooks left it; yt-dlp returned: entry replaced by a completed record without a file link, file sent if written, else 500 |

## Left out

- Flask routing, CORS, request parsing and JSON/HTTP replies: handlers are methods and functions over the registry; only the direct-download reply keeps its 500 code.
- The `download_video` handler (uuid generation, missing-url 400 reply, thread start): download ids are parameters and the per-download thread is a call to `ProcessDownload`.
- yt-dlp (`extract_info`, `prepare_filename`) and the ffmpeg process are parameters (`Extraction`, `ProcessOutcome`); when a plan makes several yt-dlp calls, `Extraction` stands for the first one that raised, if any; `Raised` also covers yt-dlp returning no info (its errors are ignored by configuration), after which reading the title raises.
- Registry.DownloadRegistry.ProcessDownload: progress hooks that yt-dlp calls while it runs are separate `UpdateProgress` calls a caller can interleave between `StartDownload` and `FinishDownload`; `ProcessDownload` itself does not take them, because `FinishDownload` removes the entry whatever they wrote. The separate-streams route of `process_download` registers no hooks at all. (`DirectDownload`, whose entry can outlive the request, takes the hooks yt-dlp calls as a sequence and applies them in order.)
- Threads, the hourly sleep and concurrent access to the two dictionaries: one sweep is one call with `now` as input.
- File-system work: the mtime-based file deletion of the sweep, renaming yt-dlp's output into the download folder, deleting the temporary stream files, and `os.path.exists` (a predicate or a flag where a decision depends on it).
- Proxy configuration, the proxy test and the health check.
- Parsing `_percent_str` as a float: the hook carries the parsed value, or nothing when the parse raised.
- Registry.AfterHook: the hook's `status` key is assumed present; a missing key raises inside yt-dlp's callback.
- Channel.VerificationStatus: lower-casing covers ASCII letters only, where Python's `str.lower` also folds other scripts; a `type` that is not a string (which raises) and a `badges` key holding null are not modelled.
- Naming.SanitizeTitleOnlyKept: letters and digits are ASCII only, where Python's `str.isalnum` also keeps non-ASCII letters and digits, which the model drops.
- Dictionary keys present with a null value are not told apart from missing keys; with a null `width` or `height` the source would print "None" in the resolution.
- The rest of the metadata reply (title, description, counts, channel name and url) is copied from upstream without logic and is not modelled.
- `os.path.join` is modelled for a relative second argument, the only kind used here.
