/** The query-string trimming applied to the requested URL (`url.split("?", 1)[0]`). */
module UrlCleaning {
  import opened PyText

  /**
    Everything before the first `?`: a prefix of `url` with no `?` in it that
    is `url` itself or stops right at a `?`.
   */
  function CleanUrl(url: string): (r: string)
    ensures r <= url
    ensures '?' !in r
    ensures r == url || url[|r|] == '?'
    ensures '?' !in url ==> r == url
  {
    var parts := Split(url, '?');
    SplitSpec(url, '?');
    assert |parts| > 1 ==> url == parts[0] + "?" + Join(parts[1..], "?");
    parts[0]
  }

  /** Cleaning an already cleaned URL changes nothing. */
  lemma CleanUrlIdempotent(url: string)
    ensures CleanUrl(CleanUrl(url)) == CleanUrl(url)
  {
  }
}
