/** The format lister: the text processing that turns the fetch tool's
    `-F` listing into a de-duplicated, quality-sorted list of format
    descriptors (`get_available_formats` in main.py). */
module Listing {
  import opened Results
  import opened Text
  import opened Ranking
  import opened Argv

  /** One row of the listing: `{format_id, quality, description}`. */
  datatype FormatDescriptor = FormatDescriptor(formatId: string, quality: string, description: string)

  /** The fetch tool invocation in listing mode. */
  function ListingCommand(url: string): (cmd: seq<string>)
    ensures |cmd| == 9 && cmd[0] == "yt-dlp" && cmd[|cmd| - 1] == url
    ensures HasOption(cmd, "-F") && HasOption(cmd, "--no-warnings") && HasOption(cmd, "--no-check-certificates")
    ensures FlagValue(cmd, "--extractor-args") == Some("youtube:player_client=android,web")
    ensures cmd[3..5] == ["--extractor-args", "youtube:skip=translated_subs"]
  {
    var cmd := [
      "yt-dlp",
      "--extractor-args", "youtube:player_client=android,web",
      "--extractor-args", "youtube:skip=translated_subs",
      "--no-check-certificates",
      "-F",
      "--no-warnings",
      url
    ];
    assert cmd[6] == "-F" && cmd[7] == "--no-warnings" && cmd[5] == "--no-check-certificates";
    assert FirstOption(cmd, "--extractor-args", 1);
    cmd
  }

  // ---------------------------------------------------------------------
  // One line of the listing

  /** A token that carries a quality signal: one containing `x` (a
      WIDTHxHEIGHT token) or one ending in `p` (an `NNNp` token). */
  predicate IsQualityToken(t: string) {
    'x' in t || EndsWith(t, 'p')
  }

  /** `part.split('x')[1] + "p"`: the text between the first and the
      second `x` of the token, as a height label. */
  function HeightLabel(t: string): string
    requires 'x' in t
  {
    SplitOn(t, 'x')[1] + "p"
  }

  /** The label a quality token yields: its height when it contains `x`,
      otherwise the token itself. */
  function TokenQuality(t: string): (q: string)
    requires IsQualityToken(t)
    ensures EndsWith(q, 'p')
    ensures 'x' !in t ==> q == t
  {
    if 'x' in t then HeightLabel(t) else t
  }

  /** For `WIDTHxHEIGHT` tokens, and any continuation after a second `x`,
      the label is the height followed by `p`. */
  lemma HeightLabelOf(w: string, h: string, rest: string)
    requires 'x' !in w && 'x' !in h
    requires rest == [] || rest[0] == 'x'
    ensures HeightLabel(w + "x" + h + rest) == h + "p"
  {
    SplitOnFirst(w, 'x', h + rest);
    assert w + "x" + h + rest == w + ['x'] + (h + rest);
    if rest == [] {
      SplitOnAbsent(h, 'x');
      assert h + rest == h;
    } else {
      SplitOnFirst(h, 'x', rest[1..]);
      assert h + rest == h + ['x'] + rest[1..];
    }
  }

  /** The quality scan: the label of the first quality token, or `None`
      when no token carries a quality signal. */
  function FindQuality(parts: seq<string>): (q: Option<string>)
    ensures q.None? <==> forall i | 0 <= i < |parts| :: !IsQualityToken(parts[i])
    ensures q.Some? ==> exists k :: FirstQualityToken(parts, k) && q.value == TokenQuality(parts[k])
  {
    if |parts| == 0 then None
    else if 'x' in parts[0] then
      assert FirstQualityToken(parts, 0);
      Some(HeightLabel(parts[0]))
    else if EndsWith(parts[0], 'p') then
      assert FirstQualityToken(parts, 0);
      Some(parts[0])
    else
      var q := FindQuality(parts[1..]);
      assert forall i | 1 <= i < |parts| :: parts[i] == parts[1..][i - 1];
      assert q.Some? ==> exists k :: FirstQualityToken(parts, k) && q.value == TokenQuality(parts[k]) by {
        if q.Some? {
          var k :| FirstQualityToken(parts[1..], k) && q.value == TokenQuality(parts[1..][k]);
          assert FirstQualityToken(parts, k + 1);
        }
      }
      q
  }

  /** `parts[k]` is the first token that carries a quality signal. */
  predicate FirstQualityToken(parts: seq<string>, k: int) {
    0 <= k < |parts| && IsQualityToken(parts[k]) && forall i | 0 <= i < k :: !IsQualityToken(parts[i])
  }

  /** What every emitted descriptor satisfies: an all-digit format id and a
      quality label ending in `p`. */
  predicate WellFormed(f: FormatDescriptor) {
    IsDigits(f.formatId) && EndsWith(f.quality, 'p')
  }

  /** Any line mentioning `mp4` contains `p`, so the source's further test
      `'x' in line or 'p' in line` never rejects a line. */
  lemma Mp4MentionsP(line: string)
    ensures Contains(line, "mp4") ==> 'p' in line
  {
    if Contains(line, "mp4") {
      var i :| OccursAt(line, "mp4", i);
      assert line[i..i + 3][1] == 'p';
      assert line[i + 1] == 'p';
    }
  }

  /** The descriptor a listing line yields, if any. */
  function ParseLine(line: string): (r: Option<FormatDescriptor>)
    ensures r.Some? <==>
      && Contains(line, "mp4")
      && |Tokens(line)| >= 2
      && IsDigits(Tokens(line)[0])
      && exists i | 0 <= i < |Tokens(line)| :: IsQualityToken(Tokens(line)[i])
    ensures r.Some? ==>
      && WellFormed(r.value)
      && r.value.formatId == Tokens(line)[0]
      && r.value.quality == FindQuality(Tokens(line)).value
      && r.value.description == Strip(line)
  {
    Mp4MentionsP(line);
    if Contains(line, "mp4") && ('x' in line || 'p' in line) then
      var parts := Tokens(line);
      if |parts| >= 2 then
        var quality := FindQuality(parts);
        if quality.Some? && quality.value != "" && IsDigits(parts[0]) then
          Some(FormatDescriptor(parts[0], quality.value, Strip(line)))
        else None
      else None
    else None
  }

  /** The descriptors of the lines that yield one, in line order. */
  function ParseLines(lines: seq<string>): (r: seq<FormatDescriptor>)
    ensures |r| <= |lines|
  {
    FilterMap(ParseLine, lines)
  }

  /** Every collected descriptor is well formed and is the descriptor of
      one of the lines. */
  lemma ParseLinesFrom(lines: seq<string>)
    ensures forall k | 0 <= k < |ParseLines(lines)| ::
      && WellFormed(ParseLines(lines)[k])
      && exists i | 0 <= i < |lines| :: ParseLine(lines[i]) == Some(ParseLines(lines)[k])
  {
    FilterMapFrom(ParseLine, lines);
    var r := ParseLines(lines);
    forall k | 0 <= k < |r| ensures WellFormed(r[k]) {
      var i :| 0 <= i < |lines| && ParseLine(lines[i]) == Some(r[k]);
    }
  }

  /** Every line that yields a descriptor contributes it. */
  lemma ParseLinesHas(lines: seq<string>, i: int)
    requires 0 <= i < |lines| && ParseLine(lines[i]).Some?
    ensures ParseLine(lines[i]).value in ParseLines(lines)
  {
    FilterMapHas(ParseLine, lines, i);
  }

  /** Parsing is line by line: the descriptors of two blocks of lines are
      those of the first block followed by those of the second. */
  lemma ParseLinesConcat(a: seq<string>, b: seq<string>)
    ensures ParseLines(a + b) == ParseLines(a) + ParseLines(b)
  {
    FilterMapConcat(ParseLine, a, b);
  }

  // ---------------------------------------------------------------------
  // De-duplication by quality label

  predicate HasLabel(fs: seq<FormatDescriptor>, q: string) {
    exists i | 0 <= i < |fs| :: fs[i].quality == q
  }

  predicate DistinctLabels(fs: seq<FormatDescriptor>) {
    forall i, j | 0 <= i < j < |fs| :: fs[i].quality != fs[j].quality
  }

  /** The position of the first descriptor labelled `q`. */
  function FirstIndex(fs: seq<FormatDescriptor>, q: string): (k: nat)
    requires HasLabel(fs, q)
    ensures k < |fs| && fs[k].quality == q
    ensures forall i | 0 <= i < k :: fs[i].quality != q
  {
    if fs[0].quality == q then 0
    else
      assert HasLabel(fs[1..], q) by {
        var i :| 0 <= i < |fs| && fs[i].quality == q;
        assert fs[1..][i - 1] == fs[i];
      }
      1 + FirstIndex(fs[1..], q)
  }

  /** The loop filling `unique_formats`: descriptors are visited in order
      and one is kept only if its label has not been kept yet. */
  function Dedup(fs: seq<FormatDescriptor>): (r: seq<FormatDescriptor>)
    ensures DistinctLabels(r)
    ensures forall q :: HasLabel(r, q) <==> HasLabel(fs, q)
    ensures forall k | 0 <= k < |r| :: r[k] in fs
  {
    if |fs| == 0 then []
    else
      var p := fs[..|fs| - 1];
      var f := fs[|fs| - 1];
      var kept := Dedup(p);
      assert fs == p + [f];
      assert forall q :: HasLabel(fs, q) <==> HasLabel(p, q) || f.quality == q by {
        forall q ensures HasLabel(fs, q) ==> HasLabel(p, q) || f.quality == q {
          if HasLabel(fs, q) {
            var i :| 0 <= i < |fs| && fs[i].quality == q;
            if i < |p| { assert p[i] == fs[i]; }
          }
        }
        forall q | HasLabel(p, q) ensures HasLabel(fs, q) {
          var i :| 0 <= i < |p| && p[i].quality == q;
          assert fs[i] == p[i];
        }
      }
      if HasLabel(kept, f.quality) then kept
      else
        var r := kept + [f];
        assert forall q :: HasLabel(r, q) <==> HasLabel(kept, q) || f.quality == q by {
          forall q ensures HasLabel(r, q) ==> HasLabel(kept, q) || f.quality == q {
            if HasLabel(r, q) {
              var i :| 0 <= i < |r| && r[i].quality == q;
              if i < |kept| { assert kept[i] == r[i]; }
            }
          }
          forall q | HasLabel(kept, q) ensures HasLabel(r, q) {
            var i :| 0 <= i < |kept| && kept[i].quality == q;
            assert r[i] == kept[i];
          }
          assert r[|kept|] == f;
        }
        r
  }

  /** Each survivor of de-duplication is the earliest descriptor carrying
      its label. */
  lemma {:induction false} DedupKeepsFirst(fs: seq<FormatDescriptor>)
    ensures forall k | 0 <= k < |Dedup(fs)| :: HasLabel(fs, Dedup(fs)[k].quality)
    ensures forall k | 0 <= k < |Dedup(fs)| :: Dedup(fs)[k] == fs[FirstIndex(fs, Dedup(fs)[k].quality)]
  {
    var r := Dedup(fs);
    forall k | 0 <= k < |r| ensures HasLabel(fs, r[k].quality) {
      assert HasLabel(r, r[k].quality);
    }
    if |fs| > 0 {
      var p := fs[..|fs| - 1];
      var f := fs[|fs| - 1];
      DedupKeepsFirst(p);
      FirstIndexPrefix(fs);
      forall k | 0 <= k < |r| ensures r[k] == fs[FirstIndex(fs, r[k].quality)] {
        assert HasLabel(r, r[k].quality);
        if k < |Dedup(p)| {
          assert r[k] == Dedup(p)[k];
          assert HasLabel(p, r[k].quality);
        } else {
          assert r[k] == f;
          assert !HasLabel(p, f.quality);
        }
      }
    }
  }

  /** Extending the descriptors at the end does not move the first
      occurrence of a label already present. */
  lemma FirstIndexPrefix(fs: seq<FormatDescriptor>)
    requires |fs| > 0
    ensures forall q | HasLabel(fs[..|fs| - 1], q) ::
      HasLabel(fs, q) && FirstIndex(fs, q) == FirstIndex(fs[..|fs| - 1], q)
    ensures forall q | HasLabel(fs, q) && !HasLabel(fs[..|fs| - 1], q) :: FirstIndex(fs, q) == |fs| - 1
  {
    var p := fs[..|fs| - 1];
    assert forall m | 0 <= m < |p| :: p[m] == fs[m];
    forall q | HasLabel(p, q) ensures HasLabel(fs, q) && FirstIndex(fs, q) == FirstIndex(p, q) {
      var i := FirstIndex(p, q);
      assert fs[i].quality == q;
      var j := FirstIndex(fs, q);
      assert j <= i;
    }
    forall q | HasLabel(fs, q) && !HasLabel(p, q) ensures FirstIndex(fs, q) == |fs| - 1 {
      var j := FirstIndex(fs, q);
      assert !(j < |p|);
    }
  }

  /** Survivors keep the order in which their labels first appear. */
  lemma {:induction false} DedupKeepsOrder(fs: seq<FormatDescriptor>)
    ensures forall k | 0 <= k < |Dedup(fs)| :: HasLabel(fs, Dedup(fs)[k].quality)
    ensures forall i, j | 0 <= i < j < |Dedup(fs)| ::
      FirstIndex(fs, Dedup(fs)[i].quality) < FirstIndex(fs, Dedup(fs)[j].quality)
  {
    var r := Dedup(fs);
    DedupKeepsFirst(fs);
    if |fs| > 0 {
      var p := fs[..|fs| - 1];
      var f := fs[|fs| - 1];
      var kept := Dedup(p);
      DedupKeepsOrder(p);
      FirstIndexPrefix(fs);
      forall i, j | 0 <= i < j < |r| ensures FirstIndex(fs, r[i].quality) < FirstIndex(fs, r[j].quality) {
        assert HasLabel(kept, kept[i].quality);
        assert r[i] == kept[i];
        if j < |kept| {
          assert r[j] == kept[j];
          assert HasLabel(kept, kept[j].quality);
        } else {
          assert r[j] == f && !HasLabel(p, f.quality);
        }
      }
    }
  }

  // ---------------------------------------------------------------------
  // Sort keys and the whole listing

  /** `quality.replace('p', '')`: the text `int()` is applied to. */
  function KeyText(quality: string): string {
    RemoveAll(quality, 'p')
  }

  /** `int(quality.replace('p', ''))`, or `None` where it raises. */
  function QualityValue(quality: string): Option<int> {
    ParseInt(KeyText(quality))
  }

  /** Every label of `fs` converts to an integer. */
  predicate AllLabelsParse(fs: seq<FormatDescriptor>) {
    forall i | 0 <= i < |fs| :: QualityValue(fs[i].quality).Some?
  }

  /** An entry whose key is the numeric value of its descriptor's label. */
  predicate WellKeyed(e: Keyed<FormatDescriptor>) {
    QualityValue(e.item.quality) == Some(e.key)
  }

  /** The descriptors of `fs` at `i` and after parse; `fs[i]` is the first
      whose label's numeric part does not. */
  predicate FirstUnparsable(fs: seq<FormatDescriptor>, i: int) {
    && 0 <= i < |fs|
    && QualityValue(fs[i].quality).None?
    && forall j | 0 <= j < i :: QualityValue(fs[j].quality).Some?
  }

  /** The keys `sorted` computes, in order: every descriptor paired with
      the value of its label, or the text of the first label whose
      conversion raises. */
  function Rank(fs: seq<FormatDescriptor>): (r: Result<seq<Keyed<FormatDescriptor>>, string>)
    ensures r.Success? <==> AllLabelsParse(fs)
    ensures r.Success? ==> |r.value| == |fs|
    ensures r.Success? ==> forall k | 0 <= k < |fs| :: r.value[k].item == fs[k] && WellKeyed(r.value[k])
    ensures r.Failure? ==> exists i :: FirstUnparsable(fs, i) && r.error == KeyText(fs[i].quality)
  {
    if |fs| == 0 then Success([])
    else
      var v := QualityValue(fs[0].quality);
      if v.None? then
        assert FirstUnparsable(fs, 0);
        Failure(KeyText(fs[0].quality))
      else
        var rest := Rank(fs[1..]);
        RankStep(fs, v.value, rest);
        if rest.Failure? then Failure(rest.error)
        else Success([Keyed(v.value, fs[0])] + rest.value)
  }

  lemma RankStep(fs: seq<FormatDescriptor>, v: int, rest: Result<seq<Keyed<FormatDescriptor>>, string>)
    requires |fs| > 0 && QualityValue(fs[0].quality) == Some(v)
    requires rest.Success? <==> AllLabelsParse(fs[1..])
    requires rest.Success? ==> |rest.value| == |fs[1..]|
    requires rest.Success? ==> forall k | 0 <= k < |fs[1..]| :: rest.value[k].item == fs[1..][k] && WellKeyed(rest.value[k])
    requires rest.Failure? ==> exists i :: FirstUnparsable(fs[1..], i) && rest.error == KeyText(fs[1..][i].quality)
    ensures rest.Success? <==> AllLabelsParse(fs)
    ensures rest.Success? ==> forall k | 0 <= k < |fs| ::
      ([Keyed(v, fs[0])] + rest.value)[k].item == fs[k] && WellKeyed(([Keyed(v, fs[0])] + rest.value)[k])
    ensures rest.Failure? ==> exists i :: FirstUnparsable(fs, i) && rest.error == KeyText(fs[i].quality)
  {
    TailParses(fs);
    if rest.Failure? {
      var i :| FirstUnparsable(fs[1..], i) && rest.error == KeyText(fs[1..][i].quality);
      UnparsableShift(fs, i);
    } else {
      RankStepEntries(fs, v, rest.value);
    }
  }

  lemma TailParses(fs: seq<FormatDescriptor>)
    requires |fs| > 0 && QualityValue(fs[0].quality).Some?
    ensures AllLabelsParse(fs[1..]) <==> AllLabelsParse(fs)
  {
    AllAfterFirst((f: FormatDescriptor) => QualityValue(f.quality).Some?, fs);
  }

  lemma UnparsableShift(fs: seq<FormatDescriptor>, i: int)
    requires |fs| > 0 && QualityValue(fs[0].quality).Some?
    requires FirstUnparsable(fs[1..], i)
    ensures FirstUnparsable(fs, i + 1) && fs[i + 1] == fs[1..][i]
  {
    assert forall j | 1 <= j < |fs| :: fs[j] == fs[1..][j - 1];
  }

  lemma RankStepEntries(fs: seq<FormatDescriptor>, v: int, rest: seq<Keyed<FormatDescriptor>>)
    requires |fs| > 0 && QualityValue(fs[0].quality) == Some(v)
    requires |rest| == |fs[1..]|
    requires forall k | 0 <= k < |fs[1..]| :: rest[k].item == fs[1..][k] && WellKeyed(rest[k])
    ensures forall k | 0 <= k < |fs| ::
      ([Keyed(v, fs[0])] + rest)[k].item == fs[k] && WellKeyed(([Keyed(v, fs[0])] + rest)[k])
  {
    var r := [Keyed(v, fs[0])] + rest;
    forall k | 0 <= k < |fs| ensures r[k].item == fs[k] && WellKeyed(r[k]) {
      if k > 0 { assert r[k] == rest[k - 1] && fs[k] == fs[1..][k - 1]; }
    }
  }

  /** `sorted(values, key=..., reverse=True)` together with the keys it
      computes: the descriptors in non-increasing label value, or the text
      of the first label that `int()` rejects. */
  function SortByQuality(u: seq<FormatDescriptor>): (r: Result<seq<FormatDescriptor>, string>)
    ensures r.Success? <==> AllLabelsParse(u)
    ensures r.Failure? ==> exists i :: FirstUnparsable(u, i) && r.error == KeyText(u[i].quality)
  {
    match Rank(u)
    case Failure(t) => Failure(t)
    case Success(ks) => Success(Items(SortDesc(ks)))
  }

  /** `unique_formats.values()`: the parsed descriptors of the fetch
      tool's output, de-duplicated by label. */
  function UniqueFormats(stdout: string): seq<FormatDescriptor> {
    Dedup(ParseLines(Lines(stdout)))
  }

  /** The format listing for the fetch tool's output: the sorted list on
      success, or the text whose conversion to an integer raised. */
  function ListFormats(stdout: string): Result<seq<FormatDescriptor>, string> {
    SortByQuality(UniqueFormats(stdout))
  }
}
