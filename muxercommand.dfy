/**
  The ffmpeg command line that repackages the two selected streams into an
  HLS playlist, and a reading of that command line back into the inputs and
  the output it describes.
 */
module MuxerCommand {
  import opened Wrappers

  /** The per-input header block: `Cookie: {header}` terminated by CR LF. */
  function CookieHeaderLine(cookieHeader: string): string {
    "Cookie: " + cookieHeader + "\r\n"
  }

  /** `sessDir / name` */
  function SessionPath(sessDir: string, name: string): string {
    sessDir + "/" + name
  }

  /** The argument vector `cmd` handed to `subprocess.Popen`. */
  function MuxerArgv(videoUrl: string, audioUrl: string, cookieHeader: string, sessDir: string): seq<string> {
    var hdr := ["-headers", CookieHeaderLine(cookieHeader)];
    ["ffmpeg", "-hide_banner", "-loglevel", "error"]
    + hdr + ["-i", videoUrl]
    + hdr + ["-i", audioUrl]
    + ["-c:v", "copy", "-c:a", "copy",
       "-f", "hls",
       "-hls_time", "4",
       "-hls_list_size", "0",
       "-hls_flags", "delete_segments+append_list",
       "-hls_segment_filename", SessionPath(sessDir, "seg_%03d.ts"),
       SessionPath(sessDir, "index.m3u8")]
  }

  /** An option with its value; a flag that takes none has the empty value. */
  datatype Opt = Opt(name: string, value: string)

  /** An input or output file with the options written in front of it. */
  datatype FileSpec = FileSpec(options: seq<Opt>, path: string)

  /** What an ffmpeg command line asks for. */
  datatype Invocation = Invocation(globals: seq<Opt>, inputs: seq<FileSpec>, outputs: seq<FileSpec>)

  /** An argument that ffmpeg reads as an option name rather than a file name. */
  predicate IsOptionName(arg: string) {
    |arg| >= 2 && arg[0] == '-'
  }

  /**
    ffmpeg's reading of its arguments, for the options used here: `-hide_banner`
    is a global flag, `-loglevel` a global option with a value, `-i` names an
    input, every other option takes one value and applies to the next file,
    and a plain argument names an output. Options left over at the end, or an
    option missing its value, make the command line invalid.
   */
  function ParseArgs(args: seq<string>, globals: seq<Opt>, pending: seq<Opt>,
                     inputs: seq<FileSpec>, outputs: seq<FileSpec>): Option<Invocation>
    decreases |args|
  {
    if args == [] then
      if pending == [] then Some(Invocation(globals, inputs, outputs)) else None
    else if args[0] == "-hide_banner" then
      ParseArgs(args[1..], globals + [Opt(args[0], "")], pending, inputs, outputs)
    else if !IsOptionName(args[0]) then
      ParseArgs(args[1..], globals, [], inputs, outputs + [FileSpec(pending, args[0])])
    else if |args| < 2 then None
    else if args[0] == "-loglevel" then
      ParseArgs(args[2..], globals + [Opt(args[0], args[1])], pending, inputs, outputs)
    else if args[0] == "-i" then
      ParseArgs(args[2..], globals, [], inputs + [FileSpec(pending, args[1])], outputs)
    else
      ParseArgs(args[2..], globals, pending + [Opt(args[0], args[1])], inputs, outputs)
  }

  function ParseCommandLine(argv: seq<string>): Option<Invocation> {
    if |argv| >= 1 && argv[0] == "ffmpeg" then ParseArgs(argv[1..], [], [], [], []) else None
  }

  /**
    The remux the handler means: the video URL and then the audio URL as the
    two inputs, each fetched with the same cookie header; one HLS output that
    copies both streams, writes 4-second segments into the session directory
    and keeps every segment in the playlist `index.m3u8`.
   */
  function IntendedInvocation(videoUrl: string, audioUrl: string, cookieHeader: string, sessDir: string): Invocation {
    var hdr := [Opt("-headers", CookieHeaderLine(cookieHeader))];
    Invocation(
      [Opt("-hide_banner", ""), Opt("-loglevel", "error")],
      [FileSpec(hdr, videoUrl), FileSpec(hdr, audioUrl)],
      [FileSpec(OutputOptions(SessionPath(sessDir, "seg_%03d.ts")), SessionPath(sessDir, "index.m3u8"))])
  }

  /** One option with a value, read into the pending options. */
  lemma ParseOption(name: string, value: string, rest: seq<string>, globals: seq<Opt>, pending: seq<Opt>,
                    inputs: seq<FileSpec>, outputs: seq<FileSpec>)
    requires IsOptionName(name) && name != "-hide_banner" && name != "-loglevel" && name != "-i"
    ensures ParseArgs([name, value] + rest, globals, pending, inputs, outputs)
         == ParseArgs(rest, globals, pending + [Opt(name, value)], inputs, outputs)
  {
    assert ([name, value] + rest)[2..] == rest;
  }

  /** An input named with `-i`, taking the pending options with it. */
  lemma ParseInput(url: string, rest: seq<string>, globals: seq<Opt>, pending: seq<Opt>,
                   inputs: seq<FileSpec>, outputs: seq<FileSpec>)
    ensures ParseArgs(["-i", url] + rest, globals, pending, inputs, outputs)
         == ParseArgs(rest, globals, [], inputs + [FileSpec(pending, url)], outputs)
  {
    assert (["-i", url] + rest)[2..] == rest;
    assert "-i" != "-hide_banner" && "-i" != "-loglevel" && IsOptionName("-i");
  }

  /** Options written out as name, value, name, value, ... */
  function Render(opts: seq<Opt>): seq<string> {
    if opts == [] then [] else [opts[0].name, opts[0].value] + Render(opts[1..])
  }

  /** An option that is neither global nor `-i`, so it attaches to the next file. */
  predicate PlainOption(o: Opt) {
    IsOptionName(o.name) && o.name != "-hide_banner" && o.name != "-loglevel" && o.name != "-i"
  }

  /** A run of plain options is collected, in order, into the pending options. */
  lemma {:induction false} ParseOptions(opts: seq<Opt>, rest: seq<string>, globals: seq<Opt>, pending: seq<Opt>,
                                        inputs: seq<FileSpec>, outputs: seq<FileSpec>)
    requires forall i :: 0 <= i < |opts| ==> PlainOption(opts[i])
    ensures ParseArgs(Render(opts) + rest, globals, pending, inputs, outputs)
         == ParseArgs(rest, globals, pending + opts, inputs, outputs)
    decreases |opts|
  {
    if opts == [] {
      assert Render(opts) + rest == rest;
      assert pending + opts == pending;
    } else {
      var o := opts[0];
      assert Render(opts) + rest == [o.name, o.value] + (Render(opts[1..]) + rest);
      ParseOption(o.name, o.value, Render(opts[1..]) + rest, globals, pending, inputs, outputs);
      ParseOptions(opts[1..], rest, globals, pending + [o], inputs, outputs);
      assert pending + [o] + opts[1..] == pending + opts;
    }
  }

  /** The output options of the remux. */
  function OutputOptions(seg: string): seq<Opt> {
    [Opt("-c:v", "copy"), Opt("-c:a", "copy"), Opt("-f", "hls"),
     Opt("-hls_time", "4"), Opt("-hls_list_size", "0"),
     Opt("-hls_flags", "delete_segments+append_list"),
     Opt("-hls_segment_filename", seg)]
  }

  lemma RenderFrom(opts: seq<Opt>, k: nat)
    requires k < |opts|
    ensures Render(opts[k..]) == [opts[k].name, opts[k].value] + Render(opts[k + 1..])
  {
    assert opts[k..][1..] == opts[k + 1..];
  }

  /** The output options as they appear in the vector. */
  lemma RenderOutputOptions(seg: string)
    ensures Render(OutputOptions(seg))
         == ["-c:v", "copy", "-c:a", "copy", "-f", "hls", "-hls_time", "4",
             "-hls_list_size", "0", "-hls_flags", "delete_segments+append_list",
             "-hls_segment_filename", seg]
  {
    var opts := OutputOptions(seg);
    assert opts[7..] == [];
    RenderFrom(opts, 6);
    assert Render(opts[6..]) == ["-hls_segment_filename", seg];
    RenderFrom(opts, 5);
    assert Render(opts[5..]) == ["-hls_flags", "delete_segments+append_list", "-hls_segment_filename", seg];
    RenderFrom(opts, 4);
    assert Render(opts[4..]) == ["-hls_list_size", "0", "-hls_flags", "delete_segments+append_list",
                                 "-hls_segment_filename", seg];
    RenderFrom(opts, 3);
    RenderFrom(opts, 2);
    assert Render(opts[2..]) == ["-f", "hls", "-hls_time", "4", "-hls_list_size", "0",
                                 "-hls_flags", "delete_segments+append_list", "-hls_segment_filename", seg];
    RenderFrom(opts, 1);
    RenderFrom(opts, 0);
    assert opts[0..] == opts;
  }

  /** The output options and the playlist path after the two inputs. */
  lemma ParseOutputPart(seg: string, out: string, globals: seq<Opt>, inputs: seq<FileSpec>)
    requires out == [] || out[0] != '-'
    ensures ParseArgs(Render(OutputOptions(seg)) + [out], globals, [], inputs, [])
         == Some(Invocation(globals, inputs, [FileSpec(OutputOptions(seg), out)]))
  {
    var opts := OutputOptions(seg);
    assert forall i :: 0 <= i < |opts| ==> PlainOption(opts[i]);
    ParseOptions(opts, [out], globals, [], inputs, []);
    assert [] + opts == opts;
    assert out != "-hide_banner" by { assert "-hide_banner"[0] == '-'; }
    assert [out][1..] == [];
    assert [] + [FileSpec(opts, out)] == [FileSpec(opts, out)];
  }

  /** The global flag and option at the front of the vector. */
  lemma ParseGlobalPart(rest: seq<string>)
    ensures ParseArgs(["-hide_banner", "-loglevel", "error"] + rest, [], [], [], [])
         == ParseArgs(rest, [Opt("-hide_banner", ""), Opt("-loglevel", "error")], [], [], [])
  {
    assert (["-hide_banner", "-loglevel", "error"] + rest)[1..] == ["-loglevel", "error"] + rest;
    assert (["-loglevel", "error"] + rest)[2..] == rest;
    assert "-loglevel" != "-hide_banner" && IsOptionName("-loglevel");
    assert [] + [Opt("-hide_banner", "")] == [Opt("-hide_banner", "")];
    assert [Opt("-hide_banner", "")] + [Opt("-loglevel", "error")] == [Opt("-hide_banner", ""), Opt("-loglevel", "error")];
  }

  /** The two inputs, each with its own copy of the header pair. */
  lemma ParseInputPart(h: string, videoUrl: string, audioUrl: string, rest: seq<string>, globals: seq<Opt>)
    ensures ParseArgs(["-headers", h, "-i", videoUrl, "-headers", h, "-i", audioUrl] + rest, globals, [], [], [])
         == ParseArgs(rest, globals, [], [FileSpec([Opt("-headers", h)], videoUrl), FileSpec([Opt("-headers", h)], audioUrl)], [])
  {
    var hdr := [Opt("-headers", h)];
    var video := [FileSpec(hdr, videoUrl)];
    var t1 := ["-headers", h, "-i", audioUrl] + rest;
    calc {
      ParseArgs(["-headers", h, "-i", videoUrl, "-headers", h, "-i", audioUrl] + rest, globals, [], [], []);
      { assert ["-headers", h, "-i", videoUrl, "-headers", h, "-i", audioUrl] + rest
            == ["-headers", h] + (["-i", videoUrl] + t1);
        ParseOption("-headers", h, ["-i", videoUrl] + t1, globals, [], [], []);
        assert [] + hdr == hdr; }
      ParseArgs(["-i", videoUrl] + t1, globals, hdr, [], []);
      { ParseInput(videoUrl, t1, globals, hdr, [], []);
        assert [] + video == video; }
      ParseArgs(t1, globals, [], video, []);
      { assert t1 == ["-headers", h] + (["-i", audioUrl] + rest);
        ParseOption("-headers", h, ["-i", audioUrl] + rest, globals, [], video, []);
        assert [] + hdr == hdr; }
      ParseArgs(["-i", audioUrl] + rest, globals, hdr, video, []);
      { ParseInput(audioUrl, rest, globals, hdr, video, []); }
      ParseArgs(rest, globals, [], video + [FileSpec(hdr, audioUrl)], []);
      { assert video + [FileSpec(hdr, audioUrl)] == [FileSpec(hdr, videoUrl), FileSpec(hdr, audioUrl)]; }
      ParseArgs(rest, globals, [], [FileSpec([Opt("-headers", h)], videoUrl), FileSpec([Opt("-headers", h)], audioUrl)], []);
    }
  }

  /**
    The command line reads back as the intended remux, provided the session
    directory does not itself look like an option (it is an absolute path in
    the handler).
   */
  lemma MuxerArgvParses(videoUrl: string, audioUrl: string, cookieHeader: string, sessDir: string)
    requires sessDir == [] || sessDir[0] != '-'
    ensures ParseCommandLine(MuxerArgv(videoUrl, audioUrl, cookieHeader, sessDir))
         == Some(IntendedInvocation(videoUrl, audioUrl, cookieHeader, sessDir))
  {
    var h := CookieHeaderLine(cookieHeader);
    var seg, out := SessionPath(sessDir, "seg_%03d.ts"), SessionPath(sessDir, "index.m3u8");
    var globals := [Opt("-hide_banner", ""), Opt("-loglevel", "error")];
    var ins := [FileSpec([Opt("-headers", h)], videoUrl), FileSpec([Opt("-headers", h)], audioUrl)];
    var outArgs := Render(OutputOptions(seg)) + [out];
    var inArgs := ["-headers", h, "-i", videoUrl, "-headers", h, "-i", audioUrl] + outArgs;
    var argv := MuxerArgv(videoUrl, audioUrl, cookieHeader, sessDir);
    calc {
      ParseCommandLine(argv);
      ParseArgs(argv[1..], [], [], [], []);
      { RenderOutputOptions(seg);
        assert argv[1..] == ["-hide_banner", "-loglevel", "error"] + inArgs; }
      ParseArgs(["-hide_banner", "-loglevel", "error"] + inArgs, [], [], [], []);
      { ParseGlobalPart(inArgs); }
      ParseArgs(inArgs, globals, [], [], []);
      { ParseInputPart(h, videoUrl, audioUrl, outArgs, globals); }
      ParseArgs(outArgs, globals, [], ins, []);
      { assert out[0] != '-';
        ParseOutputPart(seg, out, globals, ins); }
      Some(IntendedInvocation(videoUrl, audioUrl, cookieHeader, sessDir));
    }
  }

  /**
    The positions in the vector: `-i video` before `-i audio`, each right after
    the same `-headers` pair, both codecs copied into `-f hls`, and the
    playlist path last, right after the segment-file pattern.
   */
  lemma MuxerArgvLayout(videoUrl: string, audioUrl: string, cookieHeader: string, sessDir: string)
    ensures var argv := MuxerArgv(videoUrl, audioUrl, cookieHeader, sessDir);
      var n := |argv|;
      && argv[4..8] == ["-headers", CookieHeaderLine(cookieHeader), "-i", videoUrl]
      && argv[8..12] == ["-headers", CookieHeaderLine(cookieHeader), "-i", audioUrl]
      && argv[12..18] == ["-c:v", "copy", "-c:a", "copy", "-f", "hls"]
      && argv[n - 1] == SessionPath(sessDir, "index.m3u8")
      && argv[n - 3..n - 1] == ["-hls_segment_filename", SessionPath(sessDir, "seg_%03d.ts")]
  {
    var argv := MuxerArgv(videoUrl, audioUrl, cookieHeader, sessDir);
    assert |argv| == 27;
    assert argv[24..26] == ["-hls_segment_filename", SessionPath(sessDir, "seg_%03d.ts")];
  }
}
