# yt-dlp download backend: the text processing, modelled in Dafny

The backend (`main.py`) is a small web service wrapped around two external
tools. It runs the fetch tool (`yt-dlp`) to list or download the formats of
a video, and it runs the media prober (`ffprobe`) on the downloaded file.
Apart from the web plumbing, its logic is text processing. This project
models that logic as pure functions and proves what the handlers promise:

- **The format listing** (`get_available_formats`). The tool's `-F` output
  is a string input. Its lines are kept when they mention `mp4`, have a
  numeric first token and carry a quality token. A quality token is one
  that contains `x` (`WIDTHxHEIGHT`) or ends in `p`. Each kept line becomes
  a descriptor `{format_id, quality, description}`. Descriptors are then
  de-duplicated by label, first occurrence winning. Finally they are sorted
  by the integer value of the label with every `p` removed: a stable sort
  with `reverse=True`. If one of those values does not parse, the result is
  an error carrying the text that `int()` rejected.
  Modules: `Listing`, `ListingLaws`, `ListingCases`, `ListingRows`.
- **The download command** (`download_video`, lines 108-136). For `mp3` it
  is the audio-extraction invocation. For any other format it is the video
  invocation, with the format selector `bv*+ba/b` or
  `bv*[height<=Q]+ba/b[height<=Q]`. Module `Download`. Its partner
  `ReadCommand` reads the request back out of an argument vector.
- **The probe report** (`download_video`, lines 157-193). The prober's
  output is a string input. The model computes `has_video`, `has_audio`,
  the actual quality (the third comma field of the first video line with at
  least three fields, plus `p`) and the debug section of the response.
  Module `Probe`.

Supporting modules:

- `Text` models the Python `str` operations used, over ASCII: `strip()`,
  `split(sep)`, `split()`, `in`, `endswith`, `isdigit()`, `replace(c, '')`
  and base-10 `int()`.
- `Ranking` is `sorted(..., reverse=True)` on integer keys. It is proved
  sorted, a permutation, stable, and unique with those properties.
- `Argv` holds observations on argument vectors: the value after a flag,
  and whether an option is present.
- `Results` holds `Option`, `Result` and a generic filter-map.

Behaviours of the code worth noting:

- The sort orders labels by non-increasing value. Distinct labels can
  share a value, e.g. `1080p` and `1_080p`, because `int()` accepts
  underscores between digits; such labels keep their listing order.
- For a token containing `x`, the label is the text between the first and
  the second `x`, followed by `p`.
- The height is read from the first `video` line that has at least three
  comma fields. A shorter `video` line is skipped.
- The `format` parameter's allowed values are schema metadata only.
  Every value other than `"mp3"` takes the video branch.
- The test `'x' in line or 'p' in line` never rejects a line that passed
  the `mp4` test (`Listing.Mp4MentionsP`).

## Model

| member | source | states |
|---|---|---|
| `Listing.ListingCommand` | main.py:31-39 | The listing invocation runs `yt-dlp` with `-F`, `--no-warnings`, `--no-check-certificates`, the android/web player clients as the first `--extractor-args` and the translated-subtitle skip as the second, and ends with the url. |
| `Text.Strip` | main.py:48 | `strip()` removes a whitespace prefix and a whitespace suffix, and the result neither starts nor ends in whitespace. |
| `Text.StripTrimmed` | main.py:71 | Text that neither starts nor ends in whitespace is its own `strip()`. |
| `Text.SplitOn` | main.py:48 | `split(c)` yields at least one piece, no piece contains `c`, and there is a single piece exactly when `c` does not occur. |
| `Text.JoinSplitOn` | main.py:48 | Joining the pieces of `split(c)` with `c` gives back the string. |
| `Text.SplitOnJoin` | main.py:168 | Splitting a join of separator-free pieces gives back the pieces. |
| `Text.SplitOnFirst` | main.py:60 | The first piece of a split is the text before the first separator; the remaining pieces split what follows it. |
| `Text.SplitOnLast` | main.py:157 | After a separator, the last piece of a split is all the text following the last separator. |
| `Text.SplitOnAbsent` | main.py:176 | A string without the separator splits into itself alone. |
| `Text.Lines` | main.py:48 | `s.strip().split('\n')`: at least one line, none containing a newline, and joined with newlines they give the stripped output. |
| `Text.WordLength` | main.py:53 | The first word of a string is whitespace-free and ends at a whitespace character or at the end. |
| `Text.Tokens` | main.py:53 | `split()` yields non-empty, whitespace-free tokens, and none exactly when the text is all whitespace. |
| `Text.TokensSplitAtSpace` | main.py:53 | A whitespace character separates the tokens before it from the tokens after it. |
| `Text.TokensUnwords` | main.py:53 | `' '.join(words).split()` gives back non-empty, whitespace-free words. |
| `Text.TokensOfWord` | main.py:53 | A non-empty whitespace-free string is a single token. |
| `Text.Contains` | main.py:52 | `sub in s` holds exactly when `sub` occurs at some position of `s`. |
| `Text.RemoveAll` | main.py:82 | `replace(c, '')` leaves no `c` and keeps every other character with its multiplicity. |
| `Text.RemoveAllAbsent` | main.py:82 | Removing a character that does not occur changes nothing. |
| `Text.RemoveAllConcat` | main.py:82 | `replace(c, '')` works piece by piece over a concatenation, so the kept characters stay in order. |
| `Text.ParseInt` | main.py:82 | `int()` succeeds exactly on an optionally signed numeral between whitespace, provided the text holds none of the four information separators, which `int()` does not skip. |
| `Text.ParseIntPadded` | main.py:82 | A signed numeral padded with tab, line feed, vertical tab, form feed, carriage return or space converts to the numeral's own value. |
| `Text.ParseSigned` | main.py:82 | `int()` on unpadded text succeeds exactly on an optionally signed numeral. |
| `Text.ParseNumeral` | main.py:82 | An unsigned numeral (digits, single underscores between digits) is accepted exactly when well formed. |
| `Text.ShowNat` | main.py:82 | The reference decimal rendering used for the round trip through `int()` is a non-empty digit string. |
| `Text.ParseShowNat` | main.py:82 | The decimal rendering of a natural number parses back to it. |
| `Text.ParseShowInt` | main.py:82 | `int(str(n)) == n` for every integer. |
| `Listing.TokenQuality` | main.py:58-65 | The label taken from a quality token ends in `p`, and a token without `x` is its own label. |
| `Listing.HeightLabelOf` | main.py:59-61 | A `WIDTHxHEIGHT` token, with anything after a second `x`, gives the label `HEIGHTp`. |
| `Listing.FindQuality` | main.py:57-65 | The scan finds no label exactly when no token contains `x` or ends in `p`; otherwise the label is that of the first such token. |
| `Listing.Mp4MentionsP` | main.py:52 | A line mentioning `mp4` contains `p`, so the second half of the line test is redundant. |
| `Listing.ParseLine` | main.py:52-72 | A line yields a descriptor exactly when it mentions `mp4`, has at least two tokens, an all-digit first token and some quality token. The descriptor's id is that first token, its label is the first quality token's label, its description is the stripped line, and it is well formed. |
| `Listing.ParseLinesFrom` | main.py:51-72 | Every collected descriptor is well formed and is the descriptor of one of the lines. |
| `Listing.ParseLinesHas` | main.py:51-72 | Every line that yields a descriptor contributes it. |
| `Listing.ParseLinesConcat` | main.py:51-72 | Lines are parsed one at a time: the descriptors of two blocks are those of the first followed by those of the second. |
| `Results.FilterMapFrom` | main.py:51-72 | In a loop that appends what each element yields, every appended value is the value of one of the elements. |
| `Results.FilterMapHas` | main.py:51-72 | In such a loop, every element that yields a value has it appended. |
| `Results.FilterMapConcat` | main.py:51-72 | Such a loop over two blocks appends the values of the first block, then those of the second. |
| `Listing.FirstIndex` | main.py:74-78 | The first position of a label holds it, and no earlier position does. |
| `Listing.Dedup` | main.py:74-78 | After de-duplication the labels are pairwise distinct, exactly the input's labels are present, and every survivor comes from the input. |
| `Listing.DedupKeepsFirst` | main.py:74-78 | Each survivor is the earliest descriptor carrying its label. |
| `Listing.FirstIndexPrefix` | main.py:74-78 | Appending descriptors does not move the first occurrence of a label already present. |
| `Listing.DedupKeepsOrder` | main.py:74-78 | Survivors appear in the order in which their labels first occur. |
| `Listing.Rank` | main.py:80-84 | The keys are computed in input order. They exist exactly when every label converts, and each is the value of its descriptor's label. Otherwise the error is the text of the first label that does not convert. |
| `Listing.SortByQuality` | main.py:80-84 | The sort succeeds exactly when every label converts; on failure it names the first label text `int()` rejects. |
| `Ranking.Insert` | main.py:80-84 | Inserting behind the equal keys keeps the list sorted, adds exactly the one entry, and appends it to the entries with its key. |
| `Ranking.SortDesc` | main.py:80-84 | `sorted(reverse=True)` returns a permutation in non-increasing key order and keeps the relative order of equal keys. |
| `Ranking.SortedStableUnique` | main.py:80-84 | Two sorted lists with the same entries per key are equal. |
| `Ranking.SortDescCharacterized` | main.py:80-84 | Any sorted, stable rearrangement of the input is the sort's result. |
| `Ranking.Items` | main.py:81 | Dropping the keys keeps the items in order. |
| `ListingLaws.ItemsWithKey` | main.py:82 | Over correctly keyed entries, selecting one key and dropping keys commute. |
| `ListingLaws.DistinctLabelsPermutation` | main.py:74-84 | A rearrangement of descriptors with distinct labels has distinct labels. |
| `ListingLaws.SortedEntries` | main.py:80-84 | The sorted entries rearrange the ranked descriptors and each keeps the value of its own label. |
| `ListingLaws.SortByQualityOrdered` | main.py:80-89 | On success the result is a permutation of the de-duplicated descriptors. Every label has a value, values never increase, and descriptors with equal values keep their relative order. |
| `ListingLaws.SortByQualityUnique` | main.py:80-89 | The result is the only arrangement with those properties. |
| `ListingLaws.ListFormatsRows` | main.py:48-89 | Every listed descriptor has distinct labels from the others, is well formed, and is the descriptor of some output line, whose stripped text is its description. |
| `ListingLaws.ListFormatsSpec` | main.py:48-94 | The listing fails exactly when a kept label has no integer value, naming the first such text; on success it is the kept descriptors sorted stably by non-increasing value. |
| `ListingCases.LabelValue` | main.py:82 | The label `NNNp` has value `NNN`. |
| `ListingCases.BareLabelRejected` | main.py:60-61 | A token whose only `x` is its last character (e.g. `1920x`) gives the label `p`, which `int()` rejects. |
| `ListingCases.ParseLineOf` | main.py:52-72 | A line that mentions `mp4` with a numeric first token and a quality label yields the descriptor of that id, that label and the stripped line. |
| `ListingCases.RowTokens` | main.py:53 | `"<id> mp4 <w>x<h>"` splits into its three columns. |
| `ListingCases.ResolutionQuality` | main.py:58-62 | The columns of such a row give the label `<h>p`. |
| `ListingCases.ParseRow` | main.py:52-72 | For all numeric ids and widths and every height, `"<id> mp4 <w>x<h>"` yields id `<id>`, quality `<h>p` and the row as description. |
| `ListingRows.TwoHeightsRanked` | main.py:51-84 | A shorter row printed before a taller one is listed after it; both are kept. |
| `ListingRows.TwoHeightsKept` | main.py:51-84 | Two rows already printed taller first are both listed in the order printed. |
| `ListingRows.SameHeightKeepsFirst` | main.py:74-78 | Of two rows with the same height, only the first is kept. |
| `ListingRows.TwoValuesRanked` | main.py:74-84 | Two descriptors whose label values increase are kept and swapped. |
| `ListingRows.TwoValuesKept` | main.py:74-84 | Two descriptors whose label values decrease are kept in their order. |
| `ListingRows.DistinctLabelsKept` | main.py:74-78 | Two descriptors with different labels are both kept, in order. |
| `ListingRows.SameLabelKeepsFirst` | main.py:74-78 | Of two descriptors with the same label, only the first is kept. |
| `ListingRows.TwoLinesParsed` | main.py:51-72 | Two parsable lines give their two descriptors in order. |
| `Download.SelectorCap` | main.py:123-126 | A cap read from a selector rebuilds that selector, unless it is `best`. |
| `Download.SelectorRoundTrip` | main.py:123-126 | The cap read back from a selector is the requested quality; `best` gives no cap, and exactly `best` yields the uncapped selector `bv*+ba/b`. |
| `Download.SelectorInjective` | main.py:123-126 | Different quality requests give different selectors. |
| `Download.SelectorPrefix` | main.py:123-126 | Every selector starts with `bv*`, so it never reads as a flag. |
| `Download.DownloadCommandCommon` | main.py:108-136 | Both branches run `yt-dlp` with the android player client and without certificate checks, write to `/tmp/%(title)s.%(ext)s`, and end with the url. |
| `Download.DownloadClient` | main.py:113 | Both branches pass `youtube:player_client=android` as the extractor arguments. |
| `Download.DownloadOutput` | main.py:108-136 | Both branches pass `-o /tmp/%(title)s.%(ext)s`; the selector in the video branch is never mistaken for that flag. |
| `Download.Mp3Command` | main.py:110-120 | The audio command asks for extraction to mp3 at audio quality 0, passes no `--format`, and does not depend on the quality. |
| `Download.Mp4Command` | main.py:121-136 | The video command passes the selector for the quality and `--merge-output-format mp4`, and asks for no extraction. |
| `Download.Mp4Selector` | main.py:123-132 | The video command's `--format` value is the selector for the requested quality. |
| `Download.Mp4Merge` | main.py:133 | The video command's `--merge-output-format` value is `mp4`. |
| `Download.Mp4NoExtract` | main.py:128-136 | The video command does not pass `-x`. |
| `Download.ReadDownloadCommand` | main.py:108-136 | The command carries exactly the request it was built for: audio, or video with the quality cap (none for `best`), of the url. |
| `Probe.BaseName` | main.py:157 | `split("/")[-1]` is the text after the last `/` (the whole path when there is none): it contains no `/`, ends the path, and is preceded by `/` unless it is the whole path. |
| `Probe.JoinLast` | main.py:157 | The last piece of a join ends the joined text, right after a separator unless it is the only piece. |
| `Probe.PathJoin` | main.py:157-159 | `os.path.join(folder, name)` of a file name without `/`, whatever the folder, has that name as its base name; an absolute name replaces the folder. |
| `Probe.BaseNameJoin` | main.py:157-159 | A file name taken from a path in the download folder and joined back onto the folder gives that path. |
| `Probe.ProbeCommandShape` | main.py:160-165 | The prober reports errors only, as `codec_type,width,height` rows in csv without a prefix, on the given path. |
| `Probe.AnyContains` | main.py:170-171 | `any(word in s for s in lines)` holds exactly when some line contains the word. |
| `Probe.ActualQuality` | main.py:173-180 | The quality is `unknown` exactly when no line mentions `video` with at least three comma fields. Otherwise it is the third field of the first such line, followed by `p`. |
| `Probe.QualityImpliesVideo` | main.py:170-180 | A known quality implies that the file has video. |
| `Probe.EmptyReport` | main.py:168-180 | Output that is all whitespace is the single empty line: no video, no audio, quality `unknown`. |
| `Probe.StripAllSpace` | main.py:168 | An all-whitespace text strips to the empty string. |
| `Probe.VideoLineQuality` | main.py:174-179 | The line `video,W,H` reports the quality `Hp`. |
| `Probe.ShortVideoLineSkipped` | main.py:174-180 | A line with fewer than three comma fields is passed over. |
| `Probe.Debug` | main.py:168-193 | The debug section echoes the requested quality, lists the report's lines (the stripped output split at newlines), and carries the actual quality of those lines. It flags video and audio exactly when some line mentions them, and a known quality implies video. |

## Left out

- The web layer: the FastAPI app, CORS, the routes, `FileResponse`, `get_file` and the liveness handler. It is framework plumbing.
- Running the tools: `subprocess.run`, its 30 s and 300 s timeouts, and the error responses (`Request timeout`, `Download timeout`, `Download failed...`, `No file downloaded`). The tools' standard output is a parameter of the model instead.
- Listing errors: the model yields the text `int()` rejected, not the message `str(e)`. That message embeds Python's `repr` of the text.
- The filesystem: creating the download folder, purging it, `glob`, and choosing the newest file by creation time. The chosen path is an input of `Probe.BaseName`. The race between concurrent downloads sharing the folder is a concurrency matter.
- The `print` logging of the tools' output.
- Unicode: whitespace, `isdigit()` and `int()` are modelled over ASCII only. Unicode digits and whitespace classes are not modelled, nor is `int()`'s 4300-digit limit.
- `Listing.ParseLines`: its own contract only bounds the length. `Listing.ParseLinesFrom`, `Listing.ParseLinesHas` and `Listing.ParseLinesConcat` state what it collects.
- `Listing.ListFormats`, `Listing.UniqueFormats`, `Listing.HeightLabel`, `Listing.KeyText`, `Listing.QualityValue`, `Download.FormatSelector`, `Download.DownloadCommand`, `Probe.ProbeCommand`, `Probe.StreamHeight`, `Probe.HasVideo` and `Probe.HasAudio` have no contract of their own. Other members state their properties: `ListingLaws.ListFormatsSpec` and `ListingLaws.ListFormatsRows`; `Listing.HeightLabelOf`; `ListingCases.LabelValue` and `ListingCases.BareLabelRejected`; `Download.SelectorRoundTrip` and the command lemmas; `Probe.ProbeCommandShape`, `Probe.VideoLineQuality` and `Probe.AnyContains`.
