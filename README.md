# HG-YT-DL stream handler, modelled in Dafny

HG-YT-DL is a small FastAPI service. Its `/stream/` endpoint takes a video
page URL and a resolution and turns them into an HLS stream. It does this in
steps:

- It trims the query string off the URL.
- It asks yt-dlp for the list of available formats.
- It picks the first mp4 video stream at exactly the requested height.
- It picks the audio-only stream with the highest average bitrate.
- It reads a Netscape `cookies.txt` file into a `Cookie:` header.
- It starts ffmpeg to remux both streams into an HLS playlist in a fresh session directory.
- It checks up to twenty times for the playlist.
- It then answers with a redirect to the playlist, a 404 when no video stream matches, or a 500 for everything else.

This project models that handler and the cookie helper in Dafny and proves
their contracts. The modules are:

- `PyText`: the Python string operations the handler relies on, with their specifications:
  - `str.strip` with Python's whitespace set;
  - `str.split` on one character;
  - `str.join`;
  - `str(int)`.
- `Cookies`: `load_cookies_header`, as a method with a loop over the file's lines, proved against the function `CookieHeader`.
- `UrlCleaning`: `url.split("?", 1)[0]`.
- `StreamSelection`: the format record, and the `next(...)` video lookup and the `max(..., key=...)` audio lookup. This includes the `TypeError` Python raises when `max` compares a `None` bitrate.
- `MuxerCommand`: the ffmpeg argument vector. As its partner it has a small reading of ffmpeg's command-line grammar, and a proof that the vector reads back as the intended two-input, one-output HLS remux.
- `Readiness`: the twenty-check readiness loop, and the process handle with a count of `kill()` calls.
- `StreamHandler`:
  - `StreamVideo`, an imperative method with the handler's early exits;
  - `Respond`, the function it is proved against;
  - the mapping from exceptions to HTTP statuses.
- `Scenarios`: four whole requests against a small catalog: a redirect, a missing resolution, a missing audio stream and a playlist timeout.

The outside world enters as parameters:

- The extractor is a function `resolve` from the cleaned URL to an optional list of formats. `None` stands for `extract_info` raising, or for a result with no `"formats"` entry.
- The cookies file is its list of lines, or `None` when it cannot be opened.
- The session directory is given as `hlsRoot` and `sessionId`.
- Whether `Popen` succeeds is a boolean.
- What each existence check of the playlist sees is a sequence of booleans, one per check. A check past its end sees nothing.

Behaviours of the code worth noting:

- The video filter does not check `acodec`, so a muxed mp4 at the right height is picked (`StreamSelection.MuxedFormatPassesVideoFilter`).
- The `HTTPException` raised on timeout is caught by the handler's own `except Exception` clause and raised again as a new 500.
- The concurrency semaphore is created but never acquired, so no admission limit exists.

## Model

| member | source | states |
|---|---|---|
| Cookies.LoadCookiesHeader | main.py:34-43 | The loop over the lines returns exactly `CookieHeader(lines)`: the `name=value` pairs of the qualifying lines, in file order, joined by `"; "` |
| Cookies.Qualifies | main.py:38-41 | The test a line must pass to give a cookie: no leading `#`, not blank after stripping, at least seven tab-separated fields. It has no contract of its own; `Cookies.CookieLineKept` and `Cookies.CookieLineDropped` give its meaning |
| Cookies.Fields | main.py:40 | `line.strip().split("\t")`. It has no contract of its own; `PyText.StripSpec` and `PyText.SplitSpec` give its meaning, and `Cookies.CookieLineKept` uses it |
| Cookies.Contribution | main.py:38-42 | What one line adds: its pair when it qualifies, nothing otherwise. It has no contract of its own; `Cookies.CookieLineKept` and `Cookies.CookieLineDropped` give its meaning |
| Cookies.CookiePairs | main.py:35-42 | The list `cookies` after the loop, defined line by line. It has no contract of its own; `Cookies.CookiePairsAppend`, `Cookies.CookieLineKept`, `Cookies.CookieLineDropped` and `Cookies.CookiePairsEmpty` give its meaning |
| Cookies.CookieHeader | main.py:43 | `"; ".join(cookies)`. It has no contract of its own; `Cookies.LoadCookiesHeader` is proved equal to it and `Cookies.CookieHeaderEmpty` says when it is empty |
| Cookies.CookieLineKept | main.py:37-43 | A line that does not start with `#`, has a non-whitespace character and has at least seven tab-separated fields after stripping inserts exactly `fields[5] + "=" + fields[6]`, in its place between the pairs before and after it |
| Cookies.CookieLineDropped | main.py:38-41 | A comment line, an all-whitespace line or a line with fewer than seven fields adds nothing |
| Cookies.CookiePairsAppend | main.py:37-42 | The pairs of two consecutive runs of lines are the concatenation of each run's pairs |
| Cookies.CookiePairsEmpty | main.py:35-42 | The list of pairs is empty exactly when no line qualifies |
| Cookies.CookieHeaderEmpty | main.py:35-43 | The header is the empty string exactly when no line qualifies |
| Cookies.CookiePairIsPair | main.py:42 | Every collected entry contains `=` |
| Cookies.PairOf | main.py:42 | The pair taken from a qualifying line contains `=` |
| PyText.LStripSpec | main.py:38 | Leading strip removes only whitespace, leaves a suffix, and the result is empty or starts with a non-whitespace character |
| PyText.RStripSpec | main.py:38 | Trailing strip removes only whitespace, leaves a prefix, and the result is empty or ends with a non-whitespace character |
| PyText.IsSpace | main.py:38 | Python's `str.isspace` for one character: the control characters from tab to carriage return, the file, group, record and unit separators, space, NEL, no-break space, and the Unicode space, line and paragraph separators. It has no contract of its own; the strip lemmas are stated with it |
| PyText.LStrip | main.py:38-40 | Removes leading whitespace: never longer than its argument; `PyText.LStripSpec` gives its meaning |
| PyText.RStrip | main.py:38-40 | Removes trailing whitespace: never longer than its argument; `PyText.RStripSpec` gives its meaning |
| PyText.Strip | main.py:38-40 | `str.strip()`: never longer than its argument; `PyText.StripSpec` says it is the slice left after removing the surrounding whitespace, and `PyText.StripEnds` and `PyText.StripBlank` add that its ends are not whitespace and when it is empty |
| PyText.StripSpec | main.py:38-40 | The result of `strip()` is a slice `s[i..j]` of its argument, and every character before `i` and from `j` on is whitespace |
| PyText.StartsWith | main.py:38 | `line.startswith("#")`. It has no contract of its own; it is the comment test in `Cookies.CookieLineKept` and `Cookies.CookieLineDropped` |
| PyText.StripEnds | main.py:40 | The result of `strip()` is empty or has a non-whitespace character at each end |
| PyText.StripBlank | main.py:38 | `not line.strip()` holds exactly when every character of the line is whitespace |
| PyText.SplitSpec | main.py:40 | `split('\t')` gives at least one piece, no piece contains a tab, and joining the pieces with a tab gives the line back |
| PyText.Split | main.py:40 | `split('\t')`: at least one piece; `PyText.SplitSpec` and `PyText.SplitJoin` give its meaning |
| PyText.Join | main.py:43 | `sep.join(parts)`. It has no contract of its own; `PyText.SplitSpec`, `PyText.SplitJoin` and `PyText.JoinInjective` tie it to `PyText.Split` |
| PyText.SplitJoin | main.py:40 | Splitting a tab-joined list of tab-free pieces gives the pieces back |
| PyText.JoinInjective | main.py:40 | Two non-empty lists of separator-free pieces with the same join are equal |
| PyText.NatToDecimal | main.py:137 | The rendering of a natural number is a non-empty string of digits without a leading zero |
| PyText.NatToDecimalValue | main.py:137 | Reading the digits back gives the number |
| PyText.IntToDecimalRoundTrip | main.py:137 | `str(n)` is `-` followed by the digits of `-n` for negative `n`, and otherwise the digits of `n`; either way it reads back as `n` |
| PyText.IntToDecimal | main.py:137 | `str(resolution)`. It has no contract of its own; `PyText.IntToDecimalRoundTrip` gives its meaning |
| UrlCleaning.CleanUrl | main.py:59 | The cleaned URL is a prefix of the URL with no `?` in it, and it is the whole URL or stops right at a `?`; a URL without `?` is unchanged |
| UrlCleaning.CleanUrlIdempotent | main.py:59 | Cleaning twice is the same as cleaning once |
| StreamSelection.FirstIndexFrom | main.py:72-78 | Finds the first position from `from` onward whose element passes the test, or reports that none does |
| StreamSelection.IsVideoCandidate | main.py:75-77 | The video filter. It has no contract of its own; `StreamSelection.FirstVideo` and `StreamSelection.MuxedFormatPassesVideoFilter` state what it selects |
| StreamSelection.IsAudioCandidate | main.py:81 | The audio filter. It has no contract of its own; `StreamSelection.SelectAudio` states what it selects |
| StreamSelection.AbrKey | main.py:82 | The key `x.get("abr", 0)`, `None` when the entry holds `None`. It has no contract of its own; `StreamSelection.SelectAudio`, `StreamSelection.AudioTiesAndAbsentBitrates` and `StreamSelection.NoneBitrate` state how it ranks |
| StreamSelection.FirstVideo | main.py:72-78 | The chosen format passes the video filter (`vcodec != "none"`, exact height, `ext == "mp4"`) and none before it does; there is no choice exactly when no format passes |
| StreamSelection.MaxAudioFrom | main.py:80-83 | The rest of `max`'s scan never reports "no candidates"; a chosen index beats every other candidate; "unorderable" happens only when two candidates exist and one has a `None` bitrate |
| StreamSelection.PromoteBest | main.py:80-82 | A candidate with a strictly greater key beats everything the previous best beat |
| StreamSelection.SelectAudio | main.py:80-83 | No candidates exactly when no audio-only format exists; unorderable exactly when two candidates exist and one has a `None` bitrate; otherwise the chosen candidate's bitrate (absent counting as 0) is at least every other candidate's, and strictly above every earlier candidate's |
| StreamSelection.BestAudioUnique | main.py:80-83 | At most one position satisfies the selection's description, so on ties the earliest wins |
| StreamSelection.MuxedFormatPassesVideoFilter | main.py:75-77 | For every format, resolution and audio codec, replacing the format's `acodec` does not change whether it passes the video filter, so a format with both a video and an audio codec is picked like a video-only one |
| StreamSelection.AudioTiesAndAbsentBitrates | main.py:80-83 | An absent bitrate ties with 0 and the first of two equal candidates is kept; a higher bitrate later in the list wins |
| StreamSelection.NoneBitrate | main.py:80-83 | A lone candidate with a `None` bitrate is chosen; beside another candidate, in either order, the lookup fails |
| MuxerCommand.MuxerArgvParses | main.py:92-119 | The argument vector reads back as two inputs, video then audio, each with the same cookie header option, and one output `sessDir/index.m3u8` that copies both codecs into HLS with 4-second segments `sessDir/seg_%03d.ts`, an unlimited list and the given flags |
| MuxerCommand.MuxerArgv | main.py:93-119 | The argument vector `cmd`. It has no contract of its own; `MuxerCommand.MuxerArgvParses` and `MuxerCommand.MuxerArgvLayout` give its meaning |
| MuxerCommand.CookieHeaderLine | main.py:92 | The header value `Cookie: {header}` followed by CR LF. It has no contract of its own; `MuxerCommand.MuxerArgvLayout` places it before each input |
| MuxerCommand.SessionPath | main.py:117-118 | `sess_dir / name` as `sessDir + "/" + name`. It has no contract of its own; `MuxerCommand.MuxerArgvLayout` places the segment pattern and the playlist path with it |
| MuxerCommand.MuxerArgvLayout | main.py:92-119 | `-headers` with the cookie line, then `-i videoUrl`; the same pair, then `-i audioUrl`; then `-c:v copy -c:a copy -f hls`; and the last three arguments are `-hls_segment_filename sessDir/seg_%03d.ts sessDir/index.m3u8` |
| MuxerCommand.ParseOptions | main.py:104-117 | A run of output options, each with its value, is read into the pending options in order |
| MuxerCommand.RenderOutputOptions | main.py:104-117 | The output options of the command are the rendering of the intended output option list |
| MuxerCommand.ParseInputPart | main.py:92-103 | The two header-and-input groups read as two inputs, each with the header option |
| MuxerCommand.ParseGlobalPart | main.py:95-97 | `-hide_banner -loglevel error` read as global options |
| MuxerCommand.ParseOutputPart | main.py:104-118 | The output options followed by the playlist path read as one output carrying those options |
| Readiness.Process.constructor | main.py:120 | A new handle carries the argument vector it was started with and has not been killed |
| Readiness.Observed | main.py:125 | What the `n`-th `playlist_path.exists()` check sees: the `n`-th observation, and nothing past the last one. It has no contract of its own; `Readiness.AwaitPlaylist` is stated with it |
| Readiness.PlaylistAppears | main.py:124-126 | One of the twenty checks sees the playlist. It has no contract of its own; `Readiness.AwaitPlaylist` reports success exactly when it holds |
| Readiness.Process.Kill | main.py:129 | Each `kill()` is counted once |
| Readiness.AwaitPlaylist | main.py:123-130 | At most twenty checks; the loop stops at the first check that sees the playlist, so a playlist first seen at check `k` means exactly `k + 1` checks and `k` pauses; it reports failure exactly when none of the twenty checks sees it, after twenty checks and twenty pauses |
| StreamHandler.Prepare | main.py:59-119 | Every step before `Popen`, in the source's order: the muxer's inputs, or the response already settled on. It has no contract of its own; `StreamHandler.RedirectIff`, `StreamHandler.NotFoundIffNoVideo` and `StreamHandler.AudioFailureIs500` give its meaning |
| StreamHandler.Respond | main.py:59-140 | The response to one request, the specification `StreamHandler.StreamVideo` is proved against. It has no contract of its own; the `StreamHandler` lemmas below give its meaning |
| StreamHandler.StatusCode | main.py:130-140 | 307 for a redirect, 404 for the missing stream, 500 for every error. It has no contract of its own; the `StreamHandler` lemmas use it |
| StreamHandler.NoStreamDetail | main.py:137 | The 404 detail. It has no contract of its own; `StreamHandler.NoStreamDetailNamesResolution` gives its meaning |
| StreamHandler.PlaylistLocation | main.py:133 | The path of the session's playlist under `/hls`. It has no contract of its own; `StreamHandler.RedirectIff` and `StreamHandler.RedirectOnlyOnSuccess` use it |
| StreamHandler.SessionDir | main.py:87 | `HLS_ROOT / session_id`. It has no contract of its own; `StreamHandler.StreamVideo` starts the muxer with the argument vector for this directory |
| StreamHandler.StreamVideo | main.py:57-140 | The response is `Respond(...)`. A muxer is started exactly when every step before `Popen` succeeded and `Popen` did. It is started with the argument vector built from the chosen streams' URLs, the cookie header and the session directory. It is killed exactly once when no check saw the playlist, and never otherwise |
| StreamHandler.RedirectOnlyOnSuccess | main.py:60-134 | A redirect implies that the formats were obtained, a video stream at the resolution exists, a best audio stream exists, the cookies were read, the muxer started and the playlist appeared; the redirect points at `/hls/{sessionId}/index.m3u8` |
| StreamHandler.RedirectOnFullSuccess | main.py:60-134 | A catalog with a video stream at the resolution, an audio candidate and comparable bitrates, whose two chosen formats carry a URL, together with a readable cookies file, a started muxer and a playlist that appears, gives the redirect; formats that are not chosen need no URL |
| StreamHandler.RedirectIff | main.py:60-134 | The handler redirects exactly when the formats were obtained, a video stream and a best audio stream were chosen, both chosen formats carry a URL, the cookies were read, the muxer started and the playlist appeared |
| StreamHandler.NotFoundIffNoVideo | main.py:72-78 | The status is 404 exactly when the formats were obtained and none passes the video filter, whatever the audio candidates are, and the 404 carries the "No {resolution}p stream available" detail |
| StreamHandler.NoStreamDetailNamesResolution | main.py:137 | The 404 detail is "No ", then the decimal rendering of the resolution, then "p stream available"; for a non-negative resolution the rendering is its digits, and for a negative one it is `-` followed by the digits of its magnitude, so either way it reads back as the resolution |
| StreamHandler.AudioFailureIs500 | main.py:80-83 | When the video stream was found but there is no audio candidate, or a `None` bitrate has to be compared, the status is 500 |
| StreamHandler.TimeoutIs500 | main.py:124-140 | When the muxer started and none of the twenty checks sees the playlist, the status is 500 for the timeout |
| Scenarios.CleanSharedLink | main.py:59 | `https://example/video?si=abc` is cleaned to `https://example/video` |
| Scenarios.Decimal1080 | main.py:137 | `str(1080)` is `"1080"` |
| Scenarios.Detail1080 | main.py:137 | The 404 detail for 1080 is "No 1080p stream available" |
| Scenarios.FullCatalogChoice | main.py:72-83 | In a catalog of a 1080p video stream and a 128 kbps audio stream, those two are chosen |
| Scenarios.FullCatalogPrepares | main.py:59-119 | For that catalog, the plain or the shared link and an empty cookies file, the muxer gets the two stream URLs and an empty cookie header |
| Scenarios.RedirectScenario | main.py:57-134 | A shared link with a query string whose playlist appears at the second check is redirected to `/hls/s1/index.m3u8`, with the video URL and the audio URL as the muxer's inputs |
| Scenarios.MissingResolutionScenario | main.py:72-78 | Asking for 1080p of a 720p-only catalog gives 404 "No 1080p stream available" and starts nothing |
| Scenarios.MissingAudioScenario | main.py:80-83 | A catalog with the video stream and no audio stream gives 500 and starts nothing |
| Scenarios.TimeoutScenario | main.py:124-140 | A playlist that never appears gives a 500 for the timeout, and the muxer is killed exactly once |

## Left out

- `yt_dlp.YoutubeDL.extract_info` (main.py:62-69) is a network call. It is the `resolve` parameter, and its options (cookie file, user agent, player client) are not modelled.
- `subprocess.Popen` and what ffmpeg does (main.py:120) are not modelled. Only the argument vector, whether the spawn succeeded and the handle's `kill()` calls are. The working directory passed as `cwd` is not modelled.
- MuxerCommand.ParseCommandLine: the parser covers only the options this command line uses, and it is not all of ffmpeg's grammar.
- `asyncio.sleep(0.5)` (main.py:127) is counted as a pause. Time is not modelled.
- Cancellation of the request while it waits at the pause (main.py:127) is not modelled. `CancelledError` is caught by neither handler (main.py:136-140), so in the source the muxer is then never killed and no response is sent. The model's `StreamVideo` always runs to one of its responses.
- `uuid.uuid4().hex` and `mkdir` (main.py:86-88): the session id and the HLS root are parameters. A failing `mkdir` is not modelled.
- The `HLS_ROOT` set-up at import time and the directory creation (main.py:16-22) are outside the handler.
- FastAPI routing, CORS, the static `/hls` mount, the root endpoint and the logging middleware (main.py:29-32, 45-55) are framework plumbing.
- The `logger.error(...)` call in the generic exception handler (main.py:139) only logs, so it is not modelled.
- The default `resolution` of 1080 (main.py:58) belongs to the query-parameter parsing. In the model `resolution` is always passed explicitly.
- `request.url_for` (main.py:133) produces an absolute URL. The model keeps only its path, `/hls/{sessionId}/index.m3u8`.
- `download_semaphore` (main.py:27) is never acquired, so it has no behaviour to model.
- Opening the cookies file (main.py:36) is modelled as its lines or `None`. Python's newline translation when reading is not modelled: the lines are given as the iteration yields them.
- StreamHandler.Respond: a 500 names which failure caused it. The exact `str(e)` detail text of each exception is not modelled.
- StreamSelection.Format: absent keys and `None` values are one case for every field except `abr`, because the handler's comparisons cannot tell them apart. Bitrates are reals, so NaN comparisons are not modelled.
- A chosen format without a `"url"` entry raises `KeyError`, and one whose `"url"` is `None` makes `Popen` raise. The model treats both as `StreamUrlMissing`, checked before the spawn. The outcome is the same: a 500, and no muxer is started.
- Exceptions other than the ones listed in `StreamHandler.ErrorCause` are not modelled. An example is a format list whose entries are not dictionaries.
