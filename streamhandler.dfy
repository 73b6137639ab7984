/**
  The `/stream/` request handler (`stream_video`): trim the URL, obtain the
  formats, choose the two streams, build the cookie header and the muxer
  command, start the muxer, wait for its playlist, and answer with a
  redirect, a 404 or a 500.
 */
module StreamHandler {
  import opened Wrappers
  import opened PyText
  import Cookies
  import opened UrlCleaning
  import opened StreamSelection
  import MuxerCommand
  import opened Readiness

  /** The failures the generic `except Exception` clause turns into a 500. */
  datatype ErrorCause =
    | ExtractionFailed      // extract_info raised, or its result has no "formats"
    | NoAudioStream         // max() over no audio candidate
    | BitrateNotComparable  // max() compared a None bitrate
    | CookieFileUnreadable  // opening the cookies file raised
    | StreamUrlMissing      // a chosen format has no usable "url"
    | SpawnFailed           // Popen raised
    | PlaylistTimeout       // the HTTPException raised after kill(), caught by the same clause

  /** What the handler answers with. */
  datatype Response =
    | Redirect(location: string)
    | NotFound(detail: string)
    | ServerError(cause: ErrorCause)

  /** The HTTP status of a response; `RedirectResponse` defaults to 307. */
  function StatusCode(r: Response): int {
    match r
    case Redirect(_) => 307
    case NotFound(_) => 404
    case ServerError(_) => 500
  }

  /** The detail of the 404: `f"No {resolution}p stream available"`. */
  function NoStreamDetail(resolution: int): string {
    "No " + IntToDecimal(resolution) + "p stream available"
  }

  /** Where the redirect points: the playlist under the static `/hls` mount. */
  function PlaylistLocation(sessionId: string): string {
    "/hls/" + sessionId + "/index.m3u8"
  }

  /** `HLS_ROOT / session_id` */
  function SessionDir(hlsRoot: string, sessionId: string): string {
    MuxerCommand.SessionPath(hlsRoot, sessionId)
  }

  /** The inputs of the muxer once both streams are chosen and the cookies are read. */
  datatype Launch = Launch(videoUrl: string, audioUrl: string, cookieHeader: string)

  /** Every step before `Popen`: the muxer's inputs, or the response the handler has already settled on. */
  function Prepare(url: string, resolution: int, resolve: string -> Option<seq<Format>>,
                   cookieFile: Option<seq<string>>): Result<Launch, Response>
  {
    match resolve(CleanUrl(url))
    case None => Failure(ServerError(ExtractionFailed))
    case Some(formats) =>
      match FirstVideo(formats, resolution)
      case None => Failure(NotFound(NoStreamDetail(resolution)))
      case Some(v) =>
        match SelectAudio(formats)
        case NoCandidates => Failure(ServerError(NoAudioStream))
        case Unorderable => Failure(ServerError(BitrateNotComparable))
        case Chosen(a) =>
          if cookieFile.None? then Failure(ServerError(CookieFileUnreadable))
          else if formats[v].url.None? || formats[a].url.None? then Failure(ServerError(StreamUrlMissing))
          else Success(Launch(formats[v].url.value, formats[a].url.value, Cookies.CookieHeader(cookieFile.value)))
  }

  /** The response to one request. */
  function Respond(url: string, resolution: int, resolve: string -> Option<seq<Format>>,
                   cookieFile: Option<seq<string>>, sessionId: string,
                   spawnOk: bool, observations: seq<bool>): Response
  {
    match Prepare(url, resolution, resolve, cookieFile)
    case Failure(r) => r
    case Success(_) =>
      if !spawnOk then ServerError(SpawnFailed)
      else if !PlaylistAppears(observations) then ServerError(PlaylistTimeout)
      else Redirect(PlaylistLocation(sessionId))
  }

  /**
    `stream_video`. The extractor is `resolve`, the cookies file is
    `cookieFile` (`None` when it cannot be opened), `hlsRoot` and `sessionId`
    name the session directory, `spawnOk` says whether `Popen` succeeds, and
    `observations` answers the existence checks. The muxer handle is returned
    so that what was done to it can be stated.
   */
  method StreamVideo(url: string, resolution: int, resolve: string -> Option<seq<Format>>,
                     cookieFile: Option<seq<string>>, hlsRoot: string, sessionId: string,
                     spawnOk: bool, observations: seq<bool>)
    returns (response: Response, proc: Process?)
    ensures response == Respond(url, resolution, resolve, cookieFile, sessionId, spawnOk, observations)
    ensures proc != null <==> Prepare(url, resolution, resolve, cookieFile).Success? && spawnOk
    ensures proc != null ==>
      && Prepare(url, resolution, resolve, cookieFile).Success?
      && var launch := Prepare(url, resolution, resolve, cookieFile).value;
         proc.argv == MuxerCommand.MuxerArgv(launch.videoUrl, launch.audioUrl, launch.cookieHeader,
                                             SessionDir(hlsRoot, sessionId))
    ensures proc != null ==> proc.killed == if PlaylistAppears(observations) then 0 else 1
  {
    proc := null;
    var cleanUrl := CleanUrl(url);
    var info := resolve(cleanUrl);
    if info.None? {
      return ServerError(ExtractionFailed), null;
    }
    var formats := info.value;
    var video := FirstVideo(formats, resolution);
    if video.None? {
      return NotFound(NoStreamDetail(resolution)), null;
    }
    var audio := SelectAudio(formats);
    if audio.NoCandidates? {
      return ServerError(NoAudioStream), null;
    } else if audio.Unorderable? {
      return ServerError(BitrateNotComparable), null;
    }
    var vidFmt, audFmt := formats[video.value], formats[audio.index];
    var sessDir := SessionDir(hlsRoot, sessionId);
    if cookieFile.None? {
      return ServerError(CookieFileUnreadable), null;
    }
    var cookieHeader := Cookies.LoadCookiesHeader(cookieFile.value);
    if vidFmt.url.None? || audFmt.url.None? {
      return ServerError(StreamUrlMissing), null;
    }
    var cmd := MuxerCommand.MuxerArgv(vidFmt.url.value, audFmt.url.value, cookieHeader, sessDir);
    if !spawnOk {
      return ServerError(SpawnFailed), null;
    }
    proc := new Process(cmd);
    // How many checks and pauses the wait made is stated by `AwaitPlaylist`'s contract.
    var ready, checks, pauses := AwaitPlaylist(observations);
    if !ready {
      proc.Kill();
      return ServerError(PlaylistTimeout), proc;
    }
    response := Redirect(PlaylistLocation(sessionId));
  }

  /**
    A redirect happens only when a video stream at the exact resolution and a
    best audio stream were found, the cookies were read, the muxer started and
    the playlist appeared; it points at the session's playlist.
   */
  lemma RedirectOnlyOnSuccess(url: string, resolution: int, resolve: string -> Option<seq<Format>>,
                              cookieFile: Option<seq<string>>, sessionId: string,
                              spawnOk: bool, observations: seq<bool>)
    requires Respond(url, resolution, resolve, cookieFile, sessionId, spawnOk, observations).Redirect?
    ensures var info := resolve(CleanUrl(url));
      && info.Some?
      && (exists v :: 0 <= v < |info.value| && IsVideoCandidate(info.value[v], resolution))
      && (exists a :: IsBestAudio(info.value, a))
      && cookieFile.Some? && spawnOk && PlaylistAppears(observations)
      && Respond(url, resolution, resolve, cookieFile, sessionId, spawnOk, observations).location
         == PlaylistLocation(sessionId)
  {
    var formats := resolve(CleanUrl(url)).value;
    var v := FirstVideo(formats, resolution).value;
    assert IsVideoCandidate(formats[v], resolution);
    assert IsBestAudio(formats, SelectAudio(formats).index);
  }

  /**
    Conversely, a catalog with a video stream at the resolution, an audio
    stream and bitrates that can be compared, whose two chosen formats carry a
    URL, a readable cookies file, a started muxer and a playlist that appears
    give the redirect. Formats that are not chosen need no URL.
   */
  lemma RedirectOnFullSuccess(url: string, resolution: int, resolve: string -> Option<seq<Format>>,
                              cookieFile: Option<seq<string>>, sessionId: string,
                              spawnOk: bool, observations: seq<bool>)
    requires resolve(CleanUrl(url)).Some?
    requires var formats := resolve(CleanUrl(url)).value;
      && (exists v :: 0 <= v < |formats| && IsVideoCandidate(formats[v], resolution))
      && (exists a :: 0 <= a < |formats| && IsAudioCandidate(formats[a]))
      && !HasUnorderablePair(formats)
      && formats[FirstVideo(formats, resolution).value].url.Some?
      && formats[SelectAudio(formats).index].url.Some?
    requires cookieFile.Some? && spawnOk && PlaylistAppears(observations)
    ensures Respond(url, resolution, resolve, cookieFile, sessionId, spawnOk, observations)
         == Redirect(PlaylistLocation(sessionId))
  {
  }

  /**
    Exactly when the handler redirects: the formats were obtained, a video
    stream and a best audio stream were chosen, both carry a URL, the cookies
    were read, the muxer started and the playlist appeared.
   */
  lemma RedirectIff(url: string, resolution: int, resolve: string -> Option<seq<Format>>,
                    cookieFile: Option<seq<string>>, sessionId: string,
                    spawnOk: bool, observations: seq<bool>)
    ensures var info := resolve(CleanUrl(url));
      Respond(url, resolution, resolve, cookieFile, sessionId, spawnOk, observations).Redirect?
      <==>
      && info.Some?
      && FirstVideo(info.value, resolution).Some?
      && SelectAudio(info.value).Chosen?
      && info.value[FirstVideo(info.value, resolution).value].url.Some?
      && info.value[SelectAudio(info.value).index].url.Some?
      && cookieFile.Some? && spawnOk && PlaylistAppears(observations)
  {
  }

  /**
    The answer is 404 exactly when the formats were obtained and none passes
    the video filter, whatever the audio candidates are; its detail is the
    "No {resolution}p stream available" message.
   */
  lemma NotFoundIffNoVideo(url: string, resolution: int, resolve: string -> Option<seq<Format>>,
                           cookieFile: Option<seq<string>>, sessionId: string,
                           spawnOk: bool, observations: seq<bool>)
    ensures var r := Respond(url, resolution, resolve, cookieFile, sessionId, spawnOk, observations);
      var info := resolve(CleanUrl(url));
      && (StatusCode(r) == 404 <==>
            info.Some? && forall i :: 0 <= i < |info.value| ==> !IsVideoCandidate(info.value[i], resolution))
      && (StatusCode(r) == 404 ==> r == NotFound(NoStreamDetail(resolution)))
  {
  }

  /** The 404 detail spells the requested resolution in decimal right after "No ". */
  lemma NoStreamDetailNamesResolution(resolution: int)
    ensures var d := IntToDecimal(resolution);
      var msg := NoStreamDetail(resolution);
      && msg[..3] == "No "
      && msg[3..3 + |d|] == d
      && msg[3 + |d|..] == "p stream available"
      && (resolution >= 0 ==> AllDigits(d) && DecimalValue(d) == resolution)
      && (resolution < 0 ==> d[0] == '-' && AllDigits(d[1..]) && DecimalValue(d[1..]) == -resolution)
  {
    IntToDecimalRoundTrip(resolution);
  }

  /**
    Without an audio candidate, or when `max` has to compare a `None`
    bitrate, a request that found its video stream gets a 500.
   */
  lemma AudioFailureIs500(url: string, resolution: int, resolve: string -> Option<seq<Format>>,
                          cookieFile: Option<seq<string>>, sessionId: string,
                          spawnOk: bool, observations: seq<bool>)
    requires resolve(CleanUrl(url)).Some?
    requires var formats := resolve(CleanUrl(url)).value;
      && (exists v :: 0 <= v < |formats| && IsVideoCandidate(formats[v], resolution))
      && ((forall a :: 0 <= a < |formats| ==> !IsAudioCandidate(formats[a])) || HasUnorderablePair(formats))
    ensures var r := Respond(url, resolution, resolve, cookieFile, sessionId, spawnOk, observations);
      StatusCode(r) == 500 && (r.cause == NoAudioStream || r.cause == BitrateNotComparable)
  {
  }

  /** When every check misses the playlist after the muxer started, the answer is a 500 for the timeout. */
  lemma TimeoutIs500(url: string, resolution: int, resolve: string -> Option<seq<Format>>,
                     cookieFile: Option<seq<string>>, sessionId: string,
                     spawnOk: bool, observations: seq<bool>)
    requires Prepare(url, resolution, resolve, cookieFile).Success? && spawnOk
    requires forall n :: 0 <= n < MaxAttempts ==> !Observed(observations, n)
    ensures Respond(url, resolution, resolve, cookieFile, sessionId, spawnOk, observations)
         == ServerError(PlaylistTimeout)
  {
  }
}
