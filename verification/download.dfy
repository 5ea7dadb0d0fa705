/** The fetch tool invocation of the download handler: the output template,
    the format selector built from the requested quality, and the argument
    vector for an audio (mp3) or a video (mp4) download. */
module Download {
  import opened Results
  import opened Argv

  /** The directory downloads are written to. */
  const DownloadFolder: string := "/tmp"

  /** The output template handed to `-o`: the video title and the
      extension chosen by the tool, inside the download folder. */
  const OutputPath: string := DownloadFolder + "/%(title)s.%(ext)s"

  /** The selector for an unrestricted request: best video with best
      audio, or else the best single file. */
  const BestSelector: string := "bv*+ba/b"

  /** The pieces of the height-capped selector around the two copies of
      the requested height. */
  const CapOpen: string := "bv*[height<="
  const CapMiddle: string := "]+ba/b[height<="
  const CapClose: string := "]"

  // ---------------------------------------------------------------------
  // The format selector

  /** The selector for a quality request: `"best"` lifts the cap, any other
      text is used verbatim as the height cap of both alternatives. */
  function FormatSelector(quality: string): string {
    if quality == "best" then BestSelector
    else CapOpen + quality + CapMiddle + quality + CapClose
  }

  /** The height cap a selector asks for, read back from its text: `None`
      for a selector that is not of the capped form. */
  function SelectorCap(sel: string): (cap: Option<string>)
    ensures cap.Some? ==> FormatSelector(cap.value) == sel || cap.value == "best"
  {
    if |sel| >= |CapOpen| + |CapMiddle| + |CapClose| && sel[..|CapOpen|] == CapOpen && sel[|sel| - 1..] == CapClose then
      var m := sel[|CapOpen|..|sel| - 1];
      if (|m| - |CapMiddle|) % 2 == 0 then
        var n := (|m| - |CapMiddle|) / 2;
        if m == m[..n] + CapMiddle + m[..n] then
          assert sel == sel[..|CapOpen|] + m + sel[|sel| - 1..];
          Some(m[..n])
        else None
      else None
    else None
  }

  /** The selector records the request: the cap read back from it is the
      requested quality, and exactly `"best"` yields the uncapped
      `bv*+ba/b`, which has no cap. */
  lemma SelectorRoundTrip(quality: string)
    ensures SelectorCap(FormatSelector(quality)) == if quality == "best" then None else Some(quality)
    ensures FormatSelector(quality) == "bv*+ba/b" <==> quality == "best"
  {
    SelectorBest(quality);
    if quality != "best" {
      SelectorCapOf(quality);
    }
  }

  lemma SelectorCapOf(quality: string)
    requires quality != "best"
    ensures SelectorCap(FormatSelector(quality)) == Some(quality)
  {
    var sel := FormatSelector(quality);
    var m := quality + CapMiddle + quality;
    assert sel == CapOpen + m + CapClose;
    Framed(CapOpen, m, CapClose);
    Framed(quality, CapMiddle, quality);
    CapRead(sel, m, quality);
  }

  lemma SelectorBest(quality: string)
    ensures FormatSelector(quality) == "bv*+ba/b" <==> quality == "best"
  {
  }

  lemma CapRead(sel: string, m: string, quality: string)
    requires |sel| == |CapOpen| + |m| + |CapClose|
    requires sel[..|CapOpen|] == CapOpen && sel[|sel| - 1..] == CapClose
    requires sel[|CapOpen|..|sel| - 1] == m
    requires m == quality + CapMiddle + quality && m[..|quality|] == quality
    ensures SelectorCap(sel) == Some(quality)
  {
  }

  /** The three parts of `a + m + b` are recovered by slicing. */
  lemma Framed<T>(a: seq<T>, m: seq<T>, b: seq<T>)
    ensures var s := a + m + b;
      && s[..|a|] == a && s[|a|..|a| + |m|] == m && s[|a| + |m|..] == b
  {
  }

  /** Different quality requests give different selectors. */
  lemma SelectorInjective(q1: string, q2: string)
    requires FormatSelector(q1) == FormatSelector(q2)
    ensures q1 == q2
  {
    SelectorRoundTrip(q1);
    SelectorRoundTrip(q2);
  }

  /** Every selector starts with `bv*`, so it is never mistaken for a flag. */
  lemma SelectorPrefix(quality: string)
    ensures |FormatSelector(quality)| >= 3 && FormatSelector(quality)[..3] == "bv*"
  {
    var sel := FormatSelector(quality);
    if quality != "best" {
      assert sel == CapOpen + (quality + CapMiddle + quality + CapClose);
      assert sel[..3] == CapOpen[..3];
    }
  }

  // ---------------------------------------------------------------------
  // The argument vector

  /** The fetch tool invocation for a download request. Any `format` other
      than `"mp3"` takes the video branch: the allowed values are declared
      for the API schema only and are not enforced. */
  function DownloadCommand(format: string, quality: string, url: string): seq<string> {
    if format == "mp3" then
      [ "yt-dlp",
        "--extractor-args", "youtube:player_client=android",
        "--no-check-certificates",
        "-x",
        "--audio-format", "mp3",
        "--audio-quality", "0",
        "-o", OutputPath,
        url ]
    else
      [ "yt-dlp",
        "--extractor-args", "youtube:player_client=android",
        "--no-check-certificates",
        "--format", FormatSelector(quality),
        "--merge-output-format", "mp4",
        "-o", OutputPath,
        url ]
  }

  /** Both branches run the fetch tool with the Android player client,
      without certificate checks, writing to the output template, on the
      url given last. */
  lemma DownloadCommandCommon(format: string, quality: string, url: string)
    ensures var cmd := DownloadCommand(format, quality, url);
      && |cmd| >= 2 && cmd[0] == "yt-dlp" && cmd[|cmd| - 1] == url
      && FlagValue(cmd, "--extractor-args") == Some("youtube:player_client=android")
      && FlagValue(cmd, "-o") == Some(OutputPath)
      && HasOption(cmd, "--no-check-certificates")
  {
    DownloadClient(format, quality, url);
    DownloadOutput(format, quality, url);
    assert DownloadCommand(format, quality, url)[3] == "--no-check-certificates";
  }

  /** Both branches ask for the Android player client. */
  lemma DownloadClient(format: string, quality: string, url: string)
    ensures FlagValue(DownloadCommand(format, quality, url), "--extractor-args") == Some("youtube:player_client=android")
  {
    FlagValueAt(DownloadCommand(format, quality, url), "--extractor-args", 1);
  }

  /** Both branches write to the output template. */
  lemma DownloadOutput(format: string, quality: string, url: string)
    ensures FlagValue(DownloadCommand(format, quality, url), "-o") == Some(OutputPath)
  {
    var cmd := DownloadCommand(format, quality, url);
    if format == "mp3" {
      FlagValueAt(cmd, "-o", 9);
    } else {
      SelectorPrefix(quality);
      assert cmd[5] != "-o" by { assert cmd[5][..3] == "bv*"; }
      FlagValueAt(cmd, "-o", 8);
    }
  }

  /** The audio branch extracts the best mp3 audio, passes no format
      selector and does not depend on the requested quality. */
  lemma Mp3Command(quality: string, url: string)
    ensures var cmd := DownloadCommand("mp3", quality, url);
      && HasOption(cmd, "-x")
      && FlagValue(cmd, "--audio-format") == Some("mp3")
      && FlagValue(cmd, "--audio-quality") == Some("0")
      && !HasOption(cmd, "--format")
      && forall other :: DownloadCommand("mp3", other, url) == cmd
  {
    var cmd := DownloadCommand("mp3", quality, url);
    assert cmd[4] == "-x";
    FlagValueAt(cmd, "--audio-format", 5);
    FlagValueAt(cmd, "--audio-quality", 7);
  }

  /** The video branch passes the selector for the requested quality,
      merges into mp4 and does not ask for audio extraction. */
  lemma Mp4Command(format: string, quality: string, url: string)
    requires format != "mp3"
    ensures var cmd := DownloadCommand(format, quality, url);
      && FlagValue(cmd, "--format") == Some(FormatSelector(quality))
      && FlagValue(cmd, "--merge-output-format") == Some("mp4")
      && !HasOption(cmd, "-x")
  {
    Mp4Selector(format, quality, url);
    Mp4Merge(format, quality, url);
    Mp4NoExtract(format, quality, url);
  }

  lemma Mp4Selector(format: string, quality: string, url: string)
    requires format != "mp3"
    ensures FlagValue(DownloadCommand(format, quality, url), "--format") == Some(FormatSelector(quality))
  {
    FlagValueAt(DownloadCommand(format, quality, url), "--format", 4);
  }

  lemma Mp4Merge(format: string, quality: string, url: string)
    requires format != "mp3"
    ensures FlagValue(DownloadCommand(format, quality, url), "--merge-output-format") == Some("mp4")
  {
    var cmd := DownloadCommand(format, quality, url);
    SelectorPrefix(quality);
    assert cmd[5][..3] == "bv*";
    FlagValueAt(cmd, "--merge-output-format", 6);
  }

  lemma Mp4NoExtract(format: string, quality: string, url: string)
    requires format != "mp3"
    ensures !HasOption(DownloadCommand(format, quality, url), "-x")
  {
    var cmd := DownloadCommand(format, quality, url);
    SelectorPrefix(quality);
    assert cmd[5][..3] == "bv*";
  }

  // ---------------------------------------------------------------------
  // Reading a command back

  /** What a download asks for: audio, or video under an optional height
      cap, of a url. */
  datatype Request = AudioRequest(url: string) | VideoRequest(cap: Option<string>, url: string)

  /** The request the query parameters describe. */
  function Requested(format: string, quality: string, url: string): Request {
    if format == "mp3" then AudioRequest(url)
    else VideoRequest(if quality == "best" then None else Some(quality), url)
  }

  /** The request an argument vector carries, read from its options and
      its last argument; `None` when it is not a download invocation. */
  function ReadCommand(cmd: seq<string>): Option<Request> {
    if |cmd| < 2 || cmd[0] != "yt-dlp" then None
    else if HasOption(cmd, "-x") && FlagValue(cmd, "--audio-format") == Some("mp3") then
      Some(AudioRequest(cmd[|cmd| - 1]))
    else
      match FlagValue(cmd, "--format")
      case Some(sel) => Some(VideoRequest(SelectorCap(sel), cmd[|cmd| - 1]))
      case None => None
  }

  /** The command carries exactly the request it was built for. */
  lemma ReadDownloadCommand(format: string, quality: string, url: string)
    ensures ReadCommand(DownloadCommand(format, quality, url)) == Some(Requested(format, quality, url))
  {
    DownloadCommandCommon(format, quality, url);
    if format == "mp3" {
      Mp3Command(quality, url);
    } else {
      Mp4Command(format, quality, url);
      SelectorRoundTrip(quality);
    }
  }
}
