/**
  Choosing the video-only and the audio-only stream out of the extractor's
  list of formats (`next(...)` and `max(...)` in `stream_video`).
 */
module StreamSelection {
  import opened Wrappers

  /**
    The `abr` entry of a format: absent (the lookup falls back to 0), present
    but `None`, or an average audio bitrate.
   */
  datatype Abr = AbrAbsent | AbrNull | AbrValue(kbps: real)

  /**
    One entry of the extractor's "formats" list. For the other keys an absent
    key and a `None` value answer every comparison the handler makes in the
    same way, so both are `None` here.
   */
  datatype Format = Format(
    vcodec: Option<string>,
    acodec: Option<string>,
    height: Option<int>,
    ext: Option<string>,
    abr: Abr,
    url: Option<string>)

  /** The video filter: a video codec other than "none", the exact height and the mp4 container. */
  predicate IsVideoCandidate(f: Format, resolution: int) {
    f.vcodec != Some("none") && f.height == Some(resolution) && f.ext == Some("mp4")
  }

  /** The audio filter: no video, and an audio codec other than "none". */
  predicate IsAudioCandidate(f: Format) {
    f.vcodec == Some("none") && f.acodec != Some("none")
  }

  /** The sort key `x.get("abr", 0)`; `None` when the entry holds `None`, which no number compares with. */
  function AbrKey(f: Format): Option<real> {
    match f.abr
    case AbrAbsent => Some(0.0)
    case AbrNull => None
    case AbrValue(v) => Some(v)
  }

  /** The first position at or after `from` whose element satisfies `p` (`next` over a generator). */
  function FirstIndexFrom<T>(s: seq<T>, p: T -> bool, from: nat): (r: Option<nat>)
    requires from <= |s|
    ensures r.Some? ==> from <= r.value < |s| && p(s[r.value])
    ensures r.Some? ==> forall j :: from <= j < r.value ==> !p(s[j])
    ensures r.None? ==> forall j :: from <= j < |s| ==> !p(s[j])
    decreases |s| - from
  {
    if from == |s| then None
    else if p(s[from]) then Some(from)
    else FirstIndexFrom(s, p, from + 1)
  }

  /** The position of the video stream: the first format that passes the video filter. */
  function FirstVideo(formats: seq<Format>, resolution: int): (r: Option<nat>)
    ensures r.Some? ==> r.value < |formats| && IsVideoCandidate(formats[r.value], resolution)
    ensures r.Some? ==> forall j :: 0 <= j < r.value ==> !IsVideoCandidate(formats[j], resolution)
    ensures r.None? <==> forall j :: 0 <= j < |formats| ==> !IsVideoCandidate(formats[j], resolution)
  {
    FirstIndexFrom(formats, f => IsVideoCandidate(f, resolution), 0)
  }

  /** How the audio lookup ends: `max` of an empty sequence, a comparison with `None`, or a position. */
  datatype AudioChoice = NoCandidates | Unorderable | Chosen(index: nat)

  /** `formats[j]` does not beat `formats[k]`: both keys are numbers, `j`'s is at most `k`'s, and strictly less when `j` comes first. */
  predicate RanksBelow(formats: seq<Format>, j: nat, k: nat)
    requires j < |formats| && k < |formats|
  {
    var a, b := AbrKey(formats[j]), AbrKey(formats[k]);
    a.Some? && b.Some? && a.value <= b.value && (j < k ==> a.value < b.value)
  }

  /** `formats[k]` is the audio candidate `max` returns: every other candidate ranks below it. */
  predicate IsBestAudio(formats: seq<Format>, k: nat) {
    && k < |formats|
    && IsAudioCandidate(formats[k])
    && forall j :: 0 <= j < |formats| && j != k && IsAudioCandidate(formats[j]) ==> RanksBelow(formats, j, k)
  }

  /** Two audio candidates exist, and one of them has a `None` bitrate. */
  predicate HasUnorderablePair(formats: seq<Format>) {
    exists j, k :: 0 <= j < k < |formats| && IsAudioCandidate(formats[j]) && IsAudioCandidate(formats[k])
      && (AbrKey(formats[j]).None? || AbrKey(formats[k]).None?)
  }

  /**
    The rest of `max`'s scan from position `i`, with `best` the candidate kept
    so far: a later candidate replaces it only when its key is strictly greater.
   */
  function MaxAudioFrom(formats: seq<Format>, i: nat, best: nat): (r: AudioChoice)
    requires best < i <= |formats|
    requires IsAudioCandidate(formats[best])
    requires forall j :: 0 <= j < i && j != best && IsAudioCandidate(formats[j]) ==> RanksBelow(formats, j, best)
    ensures !r.NoCandidates?
    ensures r.Chosen? ==> IsBestAudio(formats, r.index)
    ensures r.Unorderable? ==> HasUnorderablePair(formats)
    decreases |formats| - i
  {
    if i == |formats| then Chosen(best)
    else if !IsAudioCandidate(formats[i]) then MaxAudioFrom(formats, i + 1, best)
    else
      var key, bestKey := AbrKey(formats[i]), AbrKey(formats[best]);
      if key.None? || bestKey.None? then Unorderable
      else if key.value > bestKey.value then
        PromoteBest(formats, i, best);
        MaxAudioFrom(formats, i + 1, i)
      else
        MaxAudioFrom(formats, i + 1, best)
  }

  /** A candidate with a strictly greater key than the kept one beats everything the kept one beat. */
  lemma PromoteBest(formats: seq<Format>, i: nat, best: nat)
    requires best < i < |formats|
    requires forall j :: 0 <= j < i && j != best && IsAudioCandidate(formats[j]) ==> RanksBelow(formats, j, best)
    requires AbrKey(formats[i]).Some? && AbrKey(formats[best]).Some?
    requires AbrKey(formats[i]).value > AbrKey(formats[best]).value
    ensures forall j :: 0 <= j < i + 1 && j != i && IsAudioCandidate(formats[j]) ==> RanksBelow(formats, j, i)
  {
    forall j | 0 <= j < i + 1 && j != i && IsAudioCandidate(formats[j])
      ensures RanksBelow(formats, j, i)
    {
      if j != best {
        assert RanksBelow(formats, j, best);
      }
    }
  }

  /**
    The audio lookup: no candidate, a `None` bitrate in a comparison, or the
    candidate with the greatest bitrate (absent counting as 0), the first one on ties.
   */
  function SelectAudio(formats: seq<Format>): (r: AudioChoice)
    ensures r.NoCandidates? <==> forall j :: 0 <= j < |formats| ==> !IsAudioCandidate(formats[j])
    ensures r.Unorderable? <==> HasUnorderablePair(formats)
    ensures r.Chosen? ==> IsBestAudio(formats, r.index)
  {
    match FirstIndexFrom(formats, IsAudioCandidate, 0)
    case None => NoCandidates
    case Some(b) => MaxAudioFrom(formats, b + 1, b)
  }

  /** The video filter never looks at `acodec`: giving a format any audio codec leaves its verdict unchanged. */
  lemma MuxedFormatPassesVideoFilter(f: Format, resolution: int, acodec: Option<string>)
    ensures IsVideoCandidate(f.(acodec := acodec), resolution) == IsVideoCandidate(f, resolution)
  {
  }

  /** At most one candidate is the one `max` returns: ties go to the earlier position. */
  lemma BestAudioUnique(formats: seq<Format>, j: nat, k: nat)
    requires IsBestAudio(formats, j) && IsBestAudio(formats, k)
    ensures j == k
  {
  }

  /** With equal bitrates `max` keeps the first candidate, and an absent bitrate ranks as 0. */
  lemma AudioTiesAndAbsentBitrates()
    ensures var a := Format(Some("none"), Some("opus"), None, Some("webm"), AbrValue(0.0), Some("a"));
      var b := Format(Some("none"), Some("mp4a.40.2"), None, Some("m4a"), AbrAbsent, Some("b"));
      var c := Format(Some("none"), Some("opus"), None, Some("webm"), AbrValue(160.0), Some("c"));
      && SelectAudio([a, b]) == Chosen(0)
      && SelectAudio([b, a, c]) == Chosen(2)
  {
    var a := Format(Some("none"), Some("opus"), None, Some("webm"), AbrValue(0.0), Some("a"));
    var b := Format(Some("none"), Some("mp4a.40.2"), None, Some("m4a"), AbrAbsent, Some("b"));
    var c := Format(Some("none"), Some("opus"), None, Some("webm"), AbrValue(160.0), Some("c"));
    var r1, r2 := SelectAudio([a, b]), SelectAudio([b, a, c]);
    assert IsAudioCandidate([a, b][0]);
    assert !HasUnorderablePair([a, b]);
    assert IsBestAudio([a, b], 0);
    BestAudioUnique([a, b], 0, r1.index);
    assert IsAudioCandidate([b, a, c][2]);
    assert !HasUnorderablePair([b, a, c]);
    assert IsBestAudio([b, a, c], 2);
    BestAudioUnique([b, a, c], 2, r2.index);
  }

  /** A lone candidate with a `None` bitrate is returned, since `max` compares nothing; beside another it is a `TypeError`. */
  lemma NoneBitrate()
    ensures var n := Format(Some("none"), Some("opus"), None, Some("webm"), AbrNull, Some("n"));
      var a := Format(Some("none"), Some("opus"), None, Some("webm"), AbrValue(50.0), Some("a"));
      && SelectAudio([n]) == Chosen(0)
      && SelectAudio([a, n]) == Unorderable
      && SelectAudio([n, a]) == Unorderable
  {
    var n := Format(Some("none"), Some("opus"), None, Some("webm"), AbrNull, Some("n"));
    var a := Format(Some("none"), Some("opus"), None, Some("webm"), AbrValue(50.0), Some("a"));
    assert IsAudioCandidate([n][0]) && !HasUnorderablePair([n]);
    assert IsBestAudio([n], 0);
    BestAudioUnique([n], 0, SelectAudio([n]).index);
    assert IsAudioCandidate([a, n][0]) && IsAudioCandidate([a, n][1]);
    assert IsAudioCandidate([n, a][0]) && IsAudioCandidate([n, a][1]);
  }
}
