/**
  The `Cookie:` header built from a Netscape cookies.txt file
  (`load_cookies_header`). The file is given as its lines, each possibly
  still carrying its line terminator.
 */
module Cookies {
  import opened PyText

  /** The tab-separated fields of a line, after surrounding whitespace is stripped. */
  function Fields(line: string): seq<string> {
    Split(Strip(line), '\t')
  }

  /** A line the loader turns into a cookie: no leading `#`, not blank, at least seven fields. */
  predicate Qualifies(line: string) {
    !StartsWith(line, "#") && Strip(line) != "" && |Fields(line)| >= 7
  }

  /** The cookie of a qualifying line: its name (field 5) and value (field 6). */
  function PairOf(line: string): (r: string)
    requires Qualifies(line)
    ensures '=' in r
  {
    var r := Fields(line)[5] + "=" + Fields(line)[6];
    assert r[|Fields(line)[5]|] == '=';
    r
  }

  /** What one line adds to the list of cookies. */
  function Contribution(line: string): seq<string> {
    if Qualifies(line) then [PairOf(line)] else []
  }

  /** The list `cookies` the loader has built after reading `lines`. */
  function CookiePairs(lines: seq<string>): seq<string> {
    if lines == [] then [] else CookiePairs(lines[..|lines| - 1]) + Contribution(lines[|lines| - 1])
  }

  /** The header value: the cookies joined by `"; "`. */
  function CookieHeader(lines: seq<string>): string {
    Join(CookiePairs(lines), "; ")
  }

  /** `load_cookies_header`, reading the file line by line. */
  method LoadCookiesHeader(lines: seq<string>) returns (header: string)
    ensures header == CookieHeader(lines)
  {
    var cookies: seq<string> := [];
    for i := 0 to |lines|
      invariant cookies == CookiePairs(lines[..i])
    {
      var line := lines[i];
      assert lines[..i + 1][..i] == lines[..i];
      assert CookiePairs(lines[..i + 1]) == cookies + Contribution(line);
      if StartsWith(line, "#") || Strip(line) == "" {
        continue;
      }
      var parts := Split(Strip(line), '\t');
      if |parts| >= 7 {
        cookies := cookies + [parts[5] + "=" + parts[6]];
      }
    }
    assert lines[..|lines|] == lines;
    header := Join(cookies, "; ");
  }

  /** A single line contributes what `Contribution` says. */
  lemma SingleLine(line: string)
    ensures CookiePairs([line]) == Contribution(line)
  {
    assert [line][..0] == [];
  }

  /** Reading two files' worth of lines one after the other gives the two lists of cookies in order. */
  lemma {:induction false} CookiePairsAppend(a: seq<string>, b: seq<string>)
    ensures CookiePairs(a + b) == CookiePairs(a) + CookiePairs(b)
    decreases |b|
  {
    if b == [] {
      assert a + b == a;
    } else {
      var b' := b[..|b| - 1];
      assert (a + b)[..|a + b| - 1] == a + b';
      CookiePairsAppend(a, b');
    }
  }

  /** A line with no leading `#`, not blank and with at least seven fields adds exactly `fields[5]=fields[6]`, in file order. */
  lemma CookieLineKept(before: seq<string>, line: string, after: seq<string>)
    requires !StartsWith(line, "#")
    requires exists k :: 0 <= k < |line| && !IsSpace(line[k])
    requires |Split(Strip(line), '\t')| >= 7
    ensures var fields := Split(Strip(line), '\t');
      CookiePairs(before + [line] + after)
        == CookiePairs(before) + [fields[5] + "=" + fields[6]] + CookiePairs(after)
  {
    StripBlank(line);
    assert Qualifies(line);
    SingleLine(line);
    CookiePairsAppend(before + [line], after);
    CookiePairsAppend(before, [line]);
  }

  /** Comment lines, blank lines and lines with fewer than seven fields add nothing. */
  lemma CookieLineDropped(before: seq<string>, line: string, after: seq<string>)
    requires || StartsWith(line, "#")
             || (forall k :: 0 <= k < |line| ==> IsSpace(line[k]))
             || |Split(Strip(line), '\t')| < 7
    ensures CookiePairs(before + [line] + after) == CookiePairs(before) + CookiePairs(after)
  {
    StripBlank(line);
    assert !Qualifies(line);
    SingleLine(line);
    CookiePairsAppend(before + [line], after);
    CookiePairsAppend(before, [line]);
  }

  /** The list of cookies is empty exactly when no line qualifies. */
  lemma {:induction false} CookiePairsEmpty(lines: seq<string>)
    ensures CookiePairs(lines) == [] <==> NoneQualify(lines)
    decreases |lines|
  {
    if lines != [] {
      var init, last := lines[..|lines| - 1], lines[|lines| - 1];
      CookiePairsEmpty(init);
      NoneQualifySnoc(init, last);
      assert CookiePairs(lines) == CookiePairs(init) + Contribution(last);
      assert Contribution(last) == [] <==> !Qualifies(last);
    }
  }

  /** No line of `lines` becomes a cookie. */
  predicate NoneQualify(lines: seq<string>) {
    forall i :: 0 <= i < |lines| ==> !Qualifies(lines[i])
  }

  lemma NoneQualifySnoc(init: seq<string>, last: string)
    ensures NoneQualify(init + [last]) <==> NoneQualify(init) && !Qualifies(last)
  {
    var lines := init + [last];
    assert forall i :: 0 <= i < |init| ==> init[i] == lines[i];
    assert lines[|init|] == last;
  }

  /** The header is the empty string exactly when no line qualifies. */
  lemma CookieHeaderEmpty(lines: seq<string>)
    ensures CookieHeader(lines) == "" <==> NoneQualify(lines)
  {
    CookiePairsEmpty(lines);
    var pairs := CookiePairs(lines);
    if pairs != [] {
      CookiePairIsPair(lines);
      assert '=' in pairs[0];
      assert CookieHeader(lines)[..|pairs[0]|] == pairs[0] by {
        assert |pairs| > 1 ==> CookieHeader(lines) == pairs[0] + "; " + Join(pairs[1..], "; ");
      }
    }
  }

  /** Every entry of the list is a `name=value` pair. */
  lemma {:induction false} CookiePairIsPair(lines: seq<string>)
    ensures forall i :: 0 <= i < |CookiePairs(lines)| ==> '=' in CookiePairs(lines)[i]
    decreases |lines|
  {
    if lines != [] {
      CookiePairIsPair(lines[..|lines| - 1]);
    }
  }
}
