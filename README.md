# youtube_snapper: retry driver, stream selection and argument handling

This project models and proves the sequential logic inside `youtube_snapper.py`, a command-line tool that downloads videos through pytube and muxes them with ffmpeg. The modelled parts are:

- **`convert_title`** (module `Title`): a title becomes a usable file name. Each of `< > : " / \ | ? *` is replaced by a space. `ConvertTitle` keeps the source's loop of nine `replace` calls and is proved equal to a per-character map, `Sanitize`.
- **`download_iterator`** (module `Retry`): the bounded retry driver. `DownloadIterator` keeps the source's `while … else` loop. It has a budget of three passes, builds a `failed` list per pass, and carries those failures into the next pass. The inner `for` loop is `AttemptPass`, proved equal to the recursive `Failures` of one pass. `DownloadIterator` is proved equal to the recursive specification `Passes` of the whole run. The download action `to_call` is an oracle: `succeeds(p, i)` says whether the call on position `i` of pass `p` returned normally, and `false` stands for a raised exception. A run is described by the batches of its passes, how the loop ended (`break` or the `else` branch), the final `max_retry`, and the URLs still failing.
- **Stream selection** in `download_video` and `download_sound` (module `Selection`):
  - The pytube streams of a video are a sequence of records in pytube's order: resolution label, fps, video codec, audio bitrate, and whether there is a video or audio track.
  - `RESOLUTIONS` is filtered by the quality ceiling (`Candidates`).
  - `SelectVideo` keeps the `while True` / `next()` scan over the candidates. At the first resolution that has streams, it narrows to vp9 when any stream there uses it, then takes `order_by("fps").last()`. When the candidates run out it returns the fallback.
  - `SelectAudio` is `filter(only_audio=True).order_by("abr").last()`.
  - `order_by(key).last()` is a stable ascending sort followed by its last element. It is modelled as `LastMax`: the last position holding the largest key.
- **Argument handling** in the `__main__` block (module `Cli`):
  - `--quality` is read by `ParseQuality`: `\d{3,4}p`, or 1080 otherwise.
  - The sub-directory for a file of links is `args.file[:args.file.rfind(".")]`, modelled as `FileStem` (see Findings).

`Decimal` holds digit strings and their values, Python's `int(...)` on them. `Wrappers` holds `Option`.

## Model

| member | source | states |
|---|---|---|
| Title.Clean | youtube_snapper.py:50-51 | after the nine replacements an illegal character has become a space, a legal character is unchanged, and no illegal character remains |
| Title.Replace | youtube_snapper.py:51 | `str.replace` of one character keeps the length, puts the replacement at every position of the replaced character, keeps every other character, and leaves no occurrence of the replaced one |
| Title.Sanitize | youtube_snapper.py:45-52 | the cleaned title has the same length, each character is the cleaned input character, and no illegal character remains |
| Title.ConvertTitle | youtube_snapper.py:45-52 | the loop of nine `replace` calls yields exactly the per-character cleaning `Sanitize` |
| Title.SanitizeIdempotent | youtube_snapper.py:45-52 | cleaning a cleaned title changes nothing |
| Title.SanitizeFixedPoints | youtube_snapper.py:45-52 | a title is left unchanged exactly when it holds no illegal character |
| Title.SanitizeExample | youtube_snapper.py:45-52 | "A:B?" becomes "A B " |
| Retry.Failures | youtube_snapper.py:63-70 | a pass's `failed` list is no longer than the batch it came from |
| Retry.Passes | youtube_snapper.py:55-80 | a run makes at most as many passes as its budget and never ends with more budget than it started with; `PassesShape` and `PassesChain` state the rest |
| Retry.Flatten | youtube_snapper.py:63-66 | the sequence of all calls of a run contains every pass in full, each URL at least as often as in any one pass |
| Retry.FailedPositions | youtube_snapper.py:63-70 | the failing positions of a pass are in range and strictly increasing, and a position is listed exactly when its call raised |
| Retry.FailuresAtFailedPositions | youtube_snapper.py:63-74 | `failed` holds exactly the URLs at the positions whose call raised, in batch order; a URL whose call returned is never carried forward |
| Retry.FailuresSubMultiset | youtube_snapper.py:63-73 | the failures of a pass are drawn from that pass, each URL at most as often as it occurs in it |
| Retry.PassesShape | youtube_snapper.py:60-80 | at most `max_retry` passes, and the first is the whole list; the run aborts exactly when the budget reaches 0, then after three passes with URLs still failing; otherwise it stops with `break` after a pass with no failures and nothing pending |
| Retry.PassesChain | youtube_snapper.py:62-80 | each later pass is exactly the non-empty failures of the pass before it; after `break` the last pass had no failures; after an abort the pending URLs are the last pass's failures |
| Retry.PassesWithinList | youtube_snapper.py:61-74 | no pass holds a URL more often than the list passed to `download_iterator` |
| Retry.AttemptsBounded | youtube_snapper.py:60-77 | over a whole run, each URL is passed to `to_call` at most three times per occurrence in the list |
| Retry.AllFailing | youtube_snapper.py:62-80 | when every call raises, a non-empty list is tried three times and the run aborts with the whole list pending |
| Retry.AllSucceeding | youtube_snapper.py:62-77 | when no call raises, the run makes one pass and stops with `break` |
| Retry.AttemptPass | youtube_snapper.py:63-71 | the `for` loop over one batch builds exactly that pass's failures |
| Retry.DownloadIterator | youtube_snapper.py:55-80 | the `while … else` loop produces exactly the passes, ending, final budget and pending URLs of `Passes` |
| Decimal.Value | youtube_snapper.py:221 | the number a digit string denotes is below 10 to the power of its length |
| Decimal.Show | youtube_snapper.py:221 | the decimal spelling is a non-empty digit string, and it is one digit long exactly for numbers below 10 |
| Decimal.ValueShow | youtube_snapper.py:221 | reading back the decimal spelling of a number gives that number |
| Decimal.ShowLength | youtube_snapper.py:220 | numbers from 100 to 999 are spelt with three digits, and from 1000 to 9999 with four |
| Selection.LabelValue | youtube_snapper.py:100 | `int(x[:-1])` of a label is below 10 to the power of its digit count, and it is `n` for the label spelling `n` followed by 'p' |
| Selection.ResolutionValues | youtube_snapper.py:41-42 | every entry of `RESOLUTIONS` is a label, and `int(x[:-1])` of the entries gives 2160, 1440, 1080, 720, 480, 360, 240 and 144 |
| Selection.ResolutionsDescending | youtube_snapper.py:41-42 | `RESOLUTIONS` falls strictly from the highest resolution to the lowest |
| Selection.AtMost | youtube_snapper.py:100 | the `filter` keeps exactly the labels whose value is at most the ceiling; it is `Filter`, so `FilterAppend` gives its order |
| Selection.AtMostDescending | youtube_snapper.py:100 | filtering a falling list by the ceiling leaves a falling list |
| Selection.AtMostAll | youtube_snapper.py:100 | a ceiling at or above every label keeps them all, in order |
| Selection.AtMostNone | youtube_snapper.py:100 | a ceiling below every label keeps none |
| Selection.Candidates | youtube_snapper.py:100 | the candidate resolutions are labels, from the highest down |
| Selection.CandidatesCeiling | youtube_snapper.py:100 | the candidates are exactly the entries of `RESOLUTIONS` at or below the ceiling; below 144 there are none, and from 2160 on there are all eight |
| Selection.Filter | youtube_snapper.py:100-109 | Python's `filter` and a stream query keep exactly the elements the condition accepts, and no more of them |
| Selection.FilterAppend | youtube_snapper.py:100-109 | filtering distributes over concatenation, so the elements kept stay in their original order |
| Selection.AtResolution | youtube_snapper.py:104 | `streams.filter(res=...)` holds exactly the streams of the video with that resolution |
| Selection.WithVp9 | youtube_snapper.py:109-110 | `filter(video_codec="vp9")` holds exactly the streams of the group using vp9 |
| Selection.AudioOnly | youtube_snapper.py:124 | `filter(only_audio=True)` holds exactly the streams with an audio track and no video track |
| Selection.LastMax | youtube_snapper.py:111 | `order_by(key).last()` picks a position with the largest key, after which every key is smaller |
| Selection.LastMaxUnique | youtube_snapper.py:111 | only one position has the largest key with nothing as large after it |
| Selection.NoVp9 | youtube_snapper.py:109 | the vp9 query is empty exactly when no stream uses vp9 |
| Selection.Narrowed | youtube_snapper.py:109-110 | the narrowed streams are those of the group using vp9, or the whole group when none does; a non-empty group narrows to a non-empty set |
| Selection.BestOf | youtube_snapper.py:108-111 | the stream kept from a resolution belongs to it, uses vp9 whenever any stream there does, and has the highest fps of the narrowed set, later streams of the narrowed set all having lower fps |
| Selection.FirstAvailable | youtube_snapper.py:102-108 | the scan stops at the first candidate with streams: every earlier candidate has none |
| Selection.PickVideo | youtube_snapper.py:100-112 | the video stream chosen is the fallback, or a stream of the video at one of the candidate resolutions |
| Selection.HigherUnavailable | youtube_snapper.py:100-108 | no candidate above the first one with streams has any streams |
| Selection.PickedResolution | youtube_snapper.py:104-111 | the chosen stream has the resolution the scan stopped at |
| Selection.PickVideoCeiling | youtube_snapper.py:100-112 | with no stream at any candidate resolution, the fallback is returned; otherwise the choice is a stream of the video, at a candidate resolution within the ceiling that has streams, the best of that resolution, with no stream at any higher candidate |
| Selection.SelectVideo | youtube_snapper.py:100-112 | the `while True` / `next()` scan returns exactly the specified choice `PickVideo` for the candidates of the ceiling |
| Selection.SelectAudio | youtube_snapper.py:168 | nothing when no stream is audio-only; otherwise an audio-only stream of the video with the highest bitrate, later audio-only streams all having lower bitrate |
| Cli.IsQualityString | youtube_snapper.py:220 | a string matches `\d{3,4}p` exactly when it is three or four digits followed by 'p' |
| Cli.ParseQuality | youtube_snapper.py:220-223 | the ceiling is at most 9999, and 1080 when `--quality` is absent |
| Cli.ParseQualityRoundTrip | youtube_snapper.py:220-221 | every ceiling from 100 to 9999 written as "<n>p" matches the pattern and is read back as itself |
| Cli.ParseQualityCases | youtube_snapper.py:220-223 | a matching argument gives the value of its digits, which is at least 100 unless it starts with '0'; any other argument gives 1080 |
| Cli.ParseQualityAccepts | youtube_snapper.py:220-221 | "1440p" and "0720p" give 1440 and 720 |
| Cli.ParseQualityRejects | youtube_snapper.py:220-223 | "720", "72p", "10800p" and "4k" give 1080 |
| Cli.RFind | youtube_snapper.py:237 | `rfind` gives -1 exactly when the character is absent, else a position holding it after which it does not occur |
| Cli.SliceTo | youtube_snapper.py:237 | `s[:k]` is a prefix of `s`, of length `k` for `k` in range and of length `len(s) + k` for a negative `k` in range |
| Cli.FileStem | youtube_snapper.py:237 | the as-written directory name is a prefix of the file name, and always strictly shorter than a non-empty name |
| Cli.FileStemWithDot | youtube_snapper.py:237 | with a dot in the name, the directory name followed by the extension gives back the name, and the extension holds no further dot |
| Cli.FileStemWithoutDot | youtube_snapper.py:237 | without a dot, the directory name is the name minus its last character |
| Cli.FileStemDropsLetter | youtube_snapper.py:236-241 | a file of links called "links" gets the directory "link" where "links" is meant |
| Cli.Stem | youtube_snapper.py:236-241 | the intended directory name is a prefix of the name; what follows it is empty or a dot followed by no dot and no separator; before that dot the last component holds more than dots, so a dotfile keeps its name |
| Cli.StemNoExtension | youtube_snapper.py:236-241 | a name whose last component has no dot is its own directory name |
| Cli.StemAgrees | youtube_snapper.py:236-241 | where the last component has an extension (a dot preceded by something other than dots), the as-written and the intended directory names agree |
| Cli.FileStemDotfile | youtube_snapper.py:236-241 | a file of links called ".links" gets the directory "" as written and ".links" as intended |

## Left out

- pytube itself is not modelled: building `YouTube`, fetching the stream list, `streams.filter`/`order_by` internals and `get_highest_resolution()` (lines 93-94, 104-111, 165-168). The streams are given as a sequence of records, and `get_highest_resolution()` is the parameter `fallback`.
- The fallback of `get_highest_resolution()` can itself be `None`; the next attribute access then raises. The model takes the fallback as a stream; a missing one is just another failure of `to_call`, which the retry driver already covers.
- `order_by` drops streams whose key is `None`. The model gives every stream an fps and an abr, so nothing is dropped.
- Selection.SelectAudio: when there is no audio-only stream the source gets `None` from `.last()` and the next line raises; the model returns `None` and leaves the raise to the retry driver's failure case.
- The thumbnail download (line 98), every `os.system` ffmpeg/`del` call, `os.makedirs`, `os.chdir` and reading the file of links (lines 131-154, 177-185, 225-242). These are network, subprocess and filesystem I/O. The choice between merging and a direct download (line 123) is part of that I/O. Line 123 tests `includes_video_track`, so an audio stream is fetched and muxed for every stream with a video track, a progressive stream that carries its own audio included. The playlist branch creates `DL_PATH/<title>` but does not change into it (lines 230-234). Neither is modelled.
- `time.sleep`, `logging`, `traceback` output and `download_callback` (lines 67-71, 79-80, 188-191). These are timing, console output and floating point. The abort branch only logs, and its message names none of the URLs still failing. `Run.pending` records them so that properties can mention them, but the source reports nothing back.
- argparse setup and the choice between `download_video` and `download_sound` (lines 195-218, 243-244). This is CLI plumbing.
- Retry.DownloadIterator: `to_call` is an oracle over (pass, position), not a Python callable. Any sequence of outcomes of the calls is one such oracle, because the calls happen in a fixed order. The caller's `url_list` is a value, so the property "never mutated" holds by construction rather than being proved about a copy.
- Cli.ParseQuality: Python's `\d` and `int()` also accept non-ASCII decimal digits (such as full-width ones); the model accepts ASCII digits only.
- Selection.BestOf: line 109 narrows to vp9 as soon as one stream of the resolution uses it; the model does the same.
- Ties in fps and abr are broken by pytube's enumeration order, as the source does. The model makes that order the order of the input sequence.

## Findings

| source | as written | input that shows it | evidently intended | confidence | as-written member | corrected member |
|---|---|---|---|---|---|---|
| youtube_snapper.py:236-241 | the directory for a file of links is `args.file[:args.file.rfind(".")]`; without a dot, `rfind` gives -1 and the slice drops the last character | `-f links` gives the directory `downloads/link` | the file name without its extension, and the whole name when there is no extension | medium, not executed | Cli.FileStemDropsLetter | Cli.Stem |
| youtube_snapper.py:236-241 | for a dotfile the last dot is the first character, so the slice is empty | `-f .links` gives the directory `downloads/`, and the links are downloaded into the download directory itself | the whole name, since a leading dot does not start an extension | low, not executed | Cli.FileStemDotfile | Cli.Stem |
