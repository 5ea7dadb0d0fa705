/** What the download handler makes of the media prober's report on the
    downloaded file: whether it holds a video and an audio stream, and the
    height of the first video stream. */
module Probe {
  import opened Results
  import opened Text
  import opened Argv
  import opened Download

  // ---------------------------------------------------------------------
  // Locating the downloaded file

  /** `path.split("/")[-1]`: the text after the last `/`. */
  function BaseName(path: string): (name: string)
    ensures '/' !in name
    ensures |name| <= |path| && path[|path| - |name|..] == name
    ensures |name| == |path| || path[|path| - |name| - 1] == '/'
  {
    var pieces := SplitOn(path, '/');
    JoinSplitOn(path, '/');
    JoinLast(pieces, '/');
    pieces[|pieces| - 1]
  }

  /** The last piece ends the joined text, right after a separator unless
      it is the only piece. */
  lemma {:induction false} JoinLast(pieces: seq<string>, c: char)
    requires |pieces| >= 1
    ensures var j, last := Join(pieces, c), pieces[|pieces| - 1];
      && |last| <= |j| && j[|j| - |last|..] == last
      && (|pieces| > 1 ==> |last| < |j| && j[|j| - |last| - 1] == c)
  {
    if |pieces| > 1 {
      JoinLast(pieces[1..], c);
      var rest := Join(pieces[1..], c);
      var last := pieces[|pieces| - 1];
      assert pieces[1..][|pieces[1..]| - 1] == last;
      var j := pieces[0] + [c] + rest;
      assert j[|j| - |last|..] == rest[|rest| - |last|..];
      if |pieces| == 2 {
        assert rest == last;
        assert j[|j| - |last| - 1] == c;
      } else {
        assert j[|j| - |last| - 1] == rest[|rest| - |last| - 1];
      }
    }
  }

  /** `os.path.join(folder, name)` for two components. A plain file name
      joined onto any folder is read back by `BaseName`. */
  function PathJoin(folder: string, name: string): (path: string)
    ensures |name| > 0 && name[0] == '/' ==> path == name
    ensures '/' !in name ==> BaseName(path) == name
  {
    if |name| > 0 && name[0] == '/' then name
    else if |folder| == 0 then
      BaseNameAlone(name);
      folder + name
    else if folder[|folder| - 1] == '/' then
      assert folder + name == folder[..|folder| - 1] + ['/'] + name;
      BaseNameAfterSlash(folder[..|folder| - 1], name);
      folder + name
    else
      BaseNameAfterSlash(folder, name);
      folder + "/" + name
  }

  lemma BaseNameAlone(name: string)
    ensures '/' !in name ==> BaseName([] + name) == name
  {
    if '/' !in name {
      assert [] + name == name;
      SplitOnAbsent(name, '/');
    }
  }

  lemma BaseNameAfterSlash(a: string, name: string)
    ensures '/' !in name ==> BaseName(a + ['/'] + name) == name
  {
    if '/' !in name {
      SplitOnLast(a, '/', name);
    }
  }

  /** The file name taken from a path in the download folder leads back to
      that path. */
  lemma BaseNameJoin(name: string)
    requires '/' !in name
    ensures BaseName(DownloadFolder + "/" + name) == name
    ensures PathJoin(DownloadFolder, BaseName(DownloadFolder + "/" + name)) == DownloadFolder + "/" + name
  {
    var a := DownloadFolder;
    assert a == [] + ['/'] + "tmp";
    SplitOnFirst([], '/', "tmp" + "/" + name);
    assert a + "/" + name == [] + ['/'] + ("tmp" + ['/'] + name);
    assert '/' !in "tmp";
    SplitOnFirst("tmp", '/', name);
    SplitOnAbsent(name, '/');
    assert SplitOn(a + "/" + name, '/') == ["", "tmp", name];
  }

  /** The prober invocation: the type, width and height of every stream
      of the file, as comma-separated values without a section prefix. */
  function ProbeCommand(path: string): seq<string> {
    [ "ffprobe", "-v", "error",
      "-show_entries", "stream=codec_type,width,height",
      "-of", "csv=p=0",
      path ]
  }

  lemma ProbeCommandShape(path: string)
    ensures var cmd := ProbeCommand(path);
      && cmd[0] == "ffprobe" && cmd[|cmd| - 1] == path
      && FlagValue(cmd, "-v") == Some("error")
      && FlagValue(cmd, "-show_entries") == Some("stream=codec_type,width,height")
      && FlagValue(cmd, "-of") == Some("csv=p=0")
  {
    var cmd := ProbeCommand(path);
    assert FirstOption(cmd, "-v", 1);
    assert FirstOption(cmd, "-show_entries", 3);
    assert FirstOption(cmd, "-of", 5);
  }

  // ---------------------------------------------------------------------
  // Interpreting the report

  /** Python's `any(word in s for s in lines)`. */
  function AnyContains(lines: seq<string>, word: string): (b: bool)
    ensures b <==> exists i | 0 <= i < |lines| :: Contains(lines[i], word)
  {
    if |lines| == 0 then false
    else
      assert forall i | 1 <= i < |lines| :: lines[i] == lines[1..][i - 1];
      Contains(lines[0], word) || AnyContains(lines[1..], word)
  }

  function HasVideo(streams: seq<string>): bool {
    AnyContains(streams, "video")
  }

  function HasAudio(streams: seq<string>): bool {
    AnyContains(streams, "audio")
  }

  /** A line that mentions `video` and has at least three comma fields:
      the only kind of line the height is read from. */
  predicate VideoStream(line: string) {
    Contains(line, "video") && |SplitOn(line, ',')| >= 3
  }

  /** The third comma field of a video line: the stream height. */
  function StreamHeight(line: string): string
    requires VideoStream(line)
  {
    SplitOn(line, ',')[2]
  }

  /** `streams[i]` is the first video line. */
  predicate FirstVideoStream(streams: seq<string>, i: int) {
    0 <= i < |streams| && VideoStream(streams[i]) && forall j | 0 <= j < i :: !VideoStream(streams[j])
  }

  /** The delivered quality: the height of the first video line followed
      by `p`, or `"unknown"` when there is no video line. Lines that
      mention `video` with fewer than three fields are passed over. */
  function ActualQuality(streams: seq<string>): (q: string)
    ensures q == "unknown" <==> forall i | 0 <= i < |streams| :: !VideoStream(streams[i])
    ensures q != "unknown" ==> exists i :: FirstVideoStream(streams, i) && q == StreamHeight(streams[i]) + "p"
  {
    if |streams| == 0 then "unknown"
    else
      assert forall i | 1 <= i < |streams| :: streams[i] == streams[1..][i - 1];
      if Contains(streams[0], "video") then
        var parts := SplitOn(streams[0], ',');
        if |parts| >= 3 then
          var q := parts[2] + "p";
          assert q[|q| - 1] == 'p';
          assert FirstVideoStream(streams, 0);
          q
        else
          ActualQualityShift(streams, ActualQuality(streams[1..]));
          ActualQuality(streams[1..])
      else
        ActualQualityShift(streams, ActualQuality(streams[1..]));
        ActualQuality(streams[1..])
  }

  lemma ActualQualityShift(streams: seq<string>, q: string)
    requires |streams| > 0 && !VideoStream(streams[0])
    requires q != "unknown" ==> exists i :: FirstVideoStream(streams[1..], i) && q == StreamHeight(streams[1..][i]) + "p"
    ensures q != "unknown" ==> exists i :: FirstVideoStream(streams, i) && q == StreamHeight(streams[i]) + "p"
  {
    if q != "unknown" {
      var i :| FirstVideoStream(streams[1..], i) && q == StreamHeight(streams[1..][i]) + "p";
      assert forall j | 1 <= j < |streams| :: streams[j] == streams[1..][j - 1];
      assert FirstVideoStream(streams, i + 1);
    }
  }

  /** A known quality comes from a video line, so the file has video. */
  lemma QualityImpliesVideo(streams: seq<string>)
    ensures ActualQuality(streams) != "unknown" ==> HasVideo(streams)
  {
    if ActualQuality(streams) != "unknown" {
      var i :| FirstVideoStream(streams, i) && ActualQuality(streams) == StreamHeight(streams[i]) + "p";
      assert Contains(streams[i], "video");
    }
  }

  /** An empty report is the single empty line: no video, no audio, and
      an unknown quality. */
  lemma EmptyReport(stdout: string)
    requires AllSpace(stdout)
    ensures Lines(stdout) == [""]
    ensures !HasVideo(Lines(stdout)) && !HasAudio(Lines(stdout))
    ensures ActualQuality(Lines(stdout)) == "unknown"
  {
    StripAllSpace(stdout);
    assert SplitOn("", '\n') == [""];
    assert !Contains("", "video") && !Contains("", "audio");
  }

  lemma StripAllSpace(s: string)
    requires AllSpace(s)
    ensures Strip(s) == ""
  {
    var i, j :| CutBySpace(s, i, j) && Strip(s) == s[i..j];
  }

  /** `"video,W,H"` reports the quality `"Hp"`. */
  lemma VideoLineQuality(width: string, height: string)
    requires ',' !in width && ',' !in height
    ensures ActualQuality(["video," + width + "," + height]) == height + "p"
  {
    var line := "video," + width + "," + height;
    assert line == "video" + [','] + (width + [','] + height);
    SplitOnFirst("video", ',', width + [','] + height);
    SplitOnFirst(width, ',', height);
    SplitOnAbsent(height, ',');
    assert SplitOn(line, ',') == ["video", width, height];
    assert OccursAt(line, "video", 0);
  }

  /** A `video` line with fewer than three fields is skipped, not fatal. */
  lemma ShortVideoLineSkipped(line: string, rest: seq<string>)
    requires |SplitOn(line, ',')| < 3
    ensures ActualQuality([line] + rest) == ActualQuality(rest)
  {
    assert ([line] + rest)[1..] == rest;
  }

  // ---------------------------------------------------------------------
  // The debug section of the success response

  datatype ProbeDebug = ProbeDebug(
    hasVideo: bool, hasAudio: bool,
    requestedQuality: string, actualQuality: string,
    streams: seq<string>)

  /** The debug fields reported for a finished download. */
  function Debug(probeStdout: string, quality: string): (d: ProbeDebug)
    ensures d.requestedQuality == quality
    ensures d.streams == Lines(probeStdout)
    ensures d.actualQuality == ActualQuality(d.streams)
    ensures d.hasVideo <==> exists i | 0 <= i < |d.streams| :: Contains(d.streams[i], "video")
    ensures d.hasAudio <==> exists i | 0 <= i < |d.streams| :: Contains(d.streams[i], "audio")
    ensures d.actualQuality != "unknown" ==> d.hasVideo
  {
    var streams := Lines(probeStdout);
    QualityImpliesVideo(streams);
    ProbeDebug(HasVideo(streams), HasAudio(streams), quality, ActualQuality(streams), streams)
  }
}
