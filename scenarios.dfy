/**
  Whole requests against a small catalog: a redirect, a missing resolution,
  a missing audio stream and a playlist that never appears.
 */
module Scenarios {
  import opened Wrappers
  import opened PyText
  import opened UrlCleaning
  import opened StreamSelection
  import opened StreamHandler
  import Readiness
  import Cookies

  const VideoUrl := "https://cdn.example/v.mp4"
  const AudioUrl := "https://cdn.example/a.m4a"
  const PageUrl := "https://example/video"

  /** A 1080p mp4 video-only format. */
  const Video1080 := Format(Some("avc1.640028"), Some("none"), Some(1080), Some("mp4"), AbrAbsent, Some(VideoUrl))

  /** A 720p mp4 video-only format. */
  const Video720 := Format(Some("avc1.4d401f"), Some("none"), Some(720), Some("mp4"), AbrAbsent, Some(VideoUrl))

  /** A 128 kbps audio-only format. */
  const Audio128 := Format(Some("none"), Some("mp4a.40.2"), None, Some("m4a"), AbrValue(128.0), Some(AudioUrl))

  /** The extractor: it knows the one page, and only by its URL without a query string. */
  function Resolver(formats: seq<Format>): string -> Option<seq<Format>> {
    u => if u == PageUrl then Some(formats) else None
  }

  /** The query string is cut at the '?'. */
  lemma CleanSharedLink()
    ensures CleanUrl(PageUrl + "?si=abc") == PageUrl
  {
    var url := PageUrl + "?si=abc";
    var r := CleanUrl(url);
    assert url[|PageUrl|] == '?';
    assert forall k :: 0 <= k < |PageUrl| ==> url[k] != '?';
    assert '?' !in r;
  }

  /** A URL without a query string is left as it is. */
  lemma CleanPlainLink()
    ensures CleanUrl(PageUrl) == PageUrl
  {
    assert '?' !in PageUrl;
  }

  /** `str(1080)` */
  lemma Decimal1080()
    ensures IntToDecimal(1080) == "1080"
  {
    assert NatToDecimal(10) == "10";
    assert NatToDecimal(108) == "108";
  }

  /** The message of the 404 for 1080p. */
  lemma Detail1080()
    ensures NoStreamDetail(1080) == "No 1080p stream available"
  {
    Decimal1080();
  }

  /** The full catalog: the 1080p stream and the only audio stream are chosen. */
  lemma FullCatalogChoice()
    ensures FirstVideo([Video1080, Audio128], 1080) == Some(0)
    ensures SelectAudio([Video1080, Audio128]) == Chosen(1)
  {
    var catalog := [Video1080, Audio128];
    assert IsVideoCandidate(catalog[0], 1080) && IsAudioCandidate(catalog[1]);
    assert !IsAudioCandidate(catalog[0]);
    assert IsBestAudio(catalog, 1);
    BestAudioUnique(catalog, 1, SelectAudio(catalog).index);
  }

  /** Everything before `Popen` succeeds for the full catalog and an empty cookies file. */
  lemma FullCatalogPrepares(url: string)
    requires url == PageUrl || url == PageUrl + "?si=abc"
    ensures Prepare(url, 1080, Resolver([Video1080, Audio128]), Some([])) == Success(Launch(VideoUrl, AudioUrl, ""))
  {
    if url == PageUrl {
      CleanPlainLink();
    } else {
      CleanSharedLink();
    }
    FullCatalogChoice();
    assert Cookies.CookieHeader([]) == "";
  }

  /** A shared link with a query string gets the redirect, and the muxer reads both chosen streams. */
  method RedirectScenario() returns (status: int, location: string, videoArg: string, audioArg: string)
    ensures status == 307 && location == "/hls/s1/index.m3u8"
    ensures videoArg == VideoUrl && audioArg == AudioUrl
  {
    FullCatalogPrepares(PageUrl + "?si=abc");
    assert Readiness.Observed([false, true], 1);
    var response, proc := StreamVideo(PageUrl + "?si=abc", 1080, Resolver([Video1080, Audio128]), Some([]),
                                      "/tmp/hls_segments", "s1", true, [false, true]);
    status := StatusCode(response);
    location := response.location;
    videoArg, audioArg := proc.argv[7], proc.argv[11];
  }

  /** Asking for 1080p of a page that only has 720p gives a 404 whose detail names 1080. */
  method MissingResolutionScenario() returns (status: int, detail: string, started: bool)
    ensures status == 404 && detail == "No 1080p stream available" && !started
  {
    var catalog := [Video720, Audio128];
    assert !IsVideoCandidate(catalog[0], 1080) && !IsVideoCandidate(catalog[1], 1080);
    CleanPlainLink();
    Detail1080();
    var response, proc := StreamVideo(PageUrl, 1080, Resolver(catalog), Some([]), "/tmp/hls_segments", "s2", true, [true]);
    status := StatusCode(response);
    detail := response.detail;
    started := proc != null;
  }

  /** A matching video stream and no audio-only format give a 500, and no muxer is started. */
  method MissingAudioScenario() returns (status: int, started: bool)
    ensures status == 500 && !started
  {
    var catalog := [Video1080];
    CleanPlainLink();
    assert IsVideoCandidate(catalog[0], 1080) && !IsAudioCandidate(catalog[0]);
    var response, proc := StreamVideo(PageUrl, 1080, Resolver(catalog), Some([]), "/tmp/hls_segments", "s3", true, [true]);
    status := StatusCode(response);
    started := proc != null;
  }

  /** A muxer that never writes its playlist is killed exactly once, and the answer is a 500 for the timeout. */
  method TimeoutScenario() returns (status: int, cause: ErrorCause, kills: nat)
    ensures status == 500 && cause == PlaylistTimeout && kills == 1
  {
    FullCatalogPrepares(PageUrl);
    assert !Readiness.PlaylistAppears([]);
    var response, proc := StreamVideo(PageUrl, 1080, Resolver([Video1080, Audio128]), Some([]), "/tmp/hls_segments", "s4",
                                      true, []);
    status := StatusCode(response);
    cause := response.cause;
    kills := proc.killed;
  }
}
