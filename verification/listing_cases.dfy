/** The listing on the rows the fetch tool prints for video formats,
    `<id> mp4 <width>x<height> ...`, stated for all ids, widths and
    heights. */
module ListingCases {
  import opened Results
  import opened Text
  import opened Listing

  /** A row of the listing with a numeric id and a WIDTHxHEIGHT column. */
  function Row(id: string, width: string, height: nat): string {
    id + " mp4 " + width + "x" + ShowNat(height)
  }

  /** The descriptor such a row should yield. */
  function RowFormat(id: string, width: string, height: nat): FormatDescriptor {
    FormatDescriptor(id, ShowNat(height) + "p", Row(id, width, height))
  }

  lemma DigitsNoSpace(s: string)
    requires forall i | 0 <= i < |s| :: IsDigit(s[i])
    ensures NoSpace(s) && 'x' !in s && 'p' !in s && '\n' !in s
  {
  }

  lemma Tokens3(a: string, b: string, c: string)
    requires |a| > 0 && NoSpace(a) && |b| > 0 && NoSpace(b) && |c| > 0 && NoSpace(c)
    ensures Tokens(a + [' '] + b + [' '] + c) == [a, b, c]
  {
    assert a + [' '] + b + [' '] + c == a + [' '] + (b + [' '] + c);
    TokensSplitAtSpace(a, ' ', b + [' '] + c);
    TokensSplitAtSpace(b, ' ', c);
    TokensOfWord(a);
    TokensOfWord(b);
    TokensOfWord(c);
  }

  /** `NNNp` labels have the value `NNN`. */
  lemma LabelValue(n: nat)
    ensures QualityValue(ShowNat(n) + "p") == Some(n)
  {
    LabelKeyText(n);
    ParseShowInt(n);
  }

  /** Dropping the `p` of `NNNp` leaves the numeral. */
  lemma LabelKeyText(n: nat)
    ensures KeyText(ShowNat(n) + "p") == ShowInt(n)
  {
    var d := ShowNat(n);
    RemoveAllConcat(d, "p", 'p');
    assert 'p' !in d;
    RemoveAllAbsent(d, 'p');
    assert RemoveAll("p", 'p') == "";
  }

  /** A line whose tokens start with a numeric id, that mentions `mp4`
      and has a quality token yields the descriptor of its id, its first
      quality label and the stripped line. */
  lemma ParseLineOf(line: string, q: string)
    requires Contains(line, "mp4")
    requires |Tokens(line)| >= 2 && IsDigits(Tokens(line)[0])
    requires FindQuality(Tokens(line)) == Some(q)
    ensures ParseLine(line) == Some(FormatDescriptor(Tokens(line)[0], q, Strip(line)))
  {
    var parts := Tokens(line);
    var k :| FirstQualityToken(parts, k) && q == TokenQuality(parts[k]);
    assert IsQualityToken(parts[k]);
  }

  lemma RowTokens(id: string, width: string, height: nat)
    requires IsDigits(id) && IsDigits(width)
    ensures Tokens(Row(id, width, height)) == [id, "mp4", width + "x" + ShowNat(height)]
  {
    var res := width + "x" + ShowNat(height);
    DigitsNoSpace(id);
    DigitsNoSpace(width);
    DigitsNoSpace(ShowNat(height));
    assert NoSpace(res);
    assert Row(id, width, height) == id + [' '] + "mp4" + [' '] + res;
    Tokens3(id, "mp4", res);
  }

  lemma RowMentionsMp4(id: string, width: string, height: nat)
    ensures Contains(Row(id, width, height), "mp4")
  {
    assert OccursAt(Row(id, width, height), "mp4", |id| + 1);
  }

  lemma RowStripped(id: string, width: string, height: nat)
    requires IsDigits(id)
    ensures Strip(Row(id, width, height)) == Row(id, width, height)
  {
    var s := Row(id, width, height);
    var h := ShowNat(height);
    assert s[0] == id[0];
    assert s[|s| - 1] == h[|h| - 1];
    StripTrimmed(s);
  }

  lemma ResolutionQuality(id: string, width: string, height: nat)
    requires IsDigits(id) && IsDigits(width)
    ensures FindQuality([id, "mp4", width + "x" + ShowNat(height)]) == Some(ShowNat(height) + "p")
  {
    var h := ShowNat(height);
    var res := width + "x" + h;
    DigitsNoSpace(id);
    DigitsNoSpace(width);
    DigitsNoSpace(h);
    HeightLabelOf(width, h, "");
    assert res + "" == res;
    assert 'x' in res;
    var parts := [id, "mp4", res];
    assert !IsQualityToken(parts[0]) && !IsQualityToken(parts[1]);
    assert FindQuality(parts) == FindQuality(parts[1..]);
    assert parts[1..] == ["mp4", res];
    assert FindQuality(["mp4", res]) == FindQuality([res]);
    assert ["mp4", res][1..] == [res];
  }

  /** A resolution token cut short after its `x` (`"1920x"`) yields the
      label `"p"`, whose numeric part is empty and which `int()` rejects. */
  lemma BareLabelRejected(w: string)
    requires 'x' !in w
    ensures HeightLabel(w + "x") == "p"
    ensures QualityValue("p").None?
  {
    HeightLabelOf(w, "", "");
    assert w + "x" + "" + "" == w + "x";
    assert RemoveAll("p", 'p') == "";
    assert Strip("") == "";
  }

  /** `"137 mp4 1920x1080"` yields id `"137"`, quality `"1080p"` and the
      row itself as description, for every numeric id, width and height. */
  lemma ParseRow(id: string, width: string, height: nat)
    requires IsDigits(id) && IsDigits(width)
    ensures ParseLine(Row(id, width, height)) == Some(RowFormat(id, width, height))
  {
    RowTokens(id, width, height);
    RowMentionsMp4(id, width, height);
    ResolutionQuality(id, width, height);
    ParseLineOf(Row(id, width, height), ShowNat(height) + "p");
    RowStripped(id, width, height);
  }
}

module ListingRows {
  import opened Results
  import opened Text
  import opened Listing
  import opened ListingLaws
  import opened ListingCases

  /** Two rows of different heights, the shorter printed first, are both
      listed, taller first. */
  lemma TwoHeightsRanked(id1: string, w1: string, h1: nat, id2: string, w2: string, h2: nat)
    requires IsDigits(id1) && IsDigits(w1) && IsDigits(id2) && IsDigits(w2)
    requires h1 < h2
    ensures var u := Dedup(ParseLines([Row(id1, w1, h1), Row(id2, w2, h2)]));
      SortByQuality(u) == Success([RowFormat(id2, w2, h2), RowFormat(id1, w1, h1)])
  {
    TwoRowsParsed(id1, w1, h1, id2, w2, h2);
    LabelValue(h1);
    LabelValue(h2);
    TwoValuesRanked(RowFormat(id1, w1, h1), RowFormat(id2, w2, h2), h1, h2);
  }

  /** Two rows already printed taller first are both listed, in the order
      printed, as `137 mp4 1920x1080` followed by `136 mp4 1280x720` is. */
  lemma TwoHeightsKept(id1: string, w1: string, h1: nat, id2: string, w2: string, h2: nat)
    requires IsDigits(id1) && IsDigits(w1) && IsDigits(id2) && IsDigits(w2)
    requires h1 > h2
    ensures var u := Dedup(ParseLines([Row(id1, w1, h1), Row(id2, w2, h2)]));
      SortByQuality(u) == Success([RowFormat(id1, w1, h1), RowFormat(id2, w2, h2)])
  {
    TwoRowsParsed(id1, w1, h1, id2, w2, h2);
    LabelValue(h1);
    LabelValue(h2);
    TwoValuesKept(RowFormat(id1, w1, h1), RowFormat(id2, w2, h2), h1, h2);
  }

  /** Two descriptors whose labels have values `v1 > v2` are kept in
      their order. */
  lemma TwoValuesKept(f1: FormatDescriptor, f2: FormatDescriptor, v1: int, v2: int)
    requires QualityValue(f1.quality) == Some(v1) && QualityValue(f2.quality) == Some(v2)
    requires v1 > v2
    ensures SortByQuality(Dedup([f1, f2])) == Success([f1, f2])
  {
    DistinctLabelsKept(f1, f2);
    PairParses(f1, f2);
    var r := [f1, f2];
    forall i, j | 0 <= i < j < |r| ensures QualityValue(r[i].quality).value >= QualityValue(r[j].quality).value {
      assert i == 0 && j == 1;
    }
    SortByQualityUnique(r, r);
  }

  /** Of two rows with the same height only the first is listed. */
  lemma SameHeightKeepsFirst(id1: string, w1: string, id2: string, w2: string, h: nat)
    requires IsDigits(id1) && IsDigits(w1) && IsDigits(id2) && IsDigits(w2)
    ensures Dedup(ParseLines([Row(id1, w1, h), Row(id2, w2, h)])) == [RowFormat(id1, w1, h)]
  {
    TwoRowsParsed(id1, w1, h, id2, w2, h);
    SameLabelKeepsFirst(RowFormat(id1, w1, h), RowFormat(id2, w2, h));
  }

  /** Two descriptors whose labels have values `v1 < v2` are kept and
      swapped. */
  lemma TwoValuesRanked(f1: FormatDescriptor, f2: FormatDescriptor, v1: int, v2: int)
    requires QualityValue(f1.quality) == Some(v1) && QualityValue(f2.quality) == Some(v2)
    requires v1 < v2
    ensures SortByQuality(Dedup([f1, f2])) == Success([f2, f1])
  {
    DistinctLabelsKept(f1, f2);
    SwappedRanked(f1, f2, v1, v2);
  }

  lemma SwappedRanked(f1: FormatDescriptor, f2: FormatDescriptor, v1: int, v2: int)
    requires QualityValue(f1.quality) == Some(v1) && QualityValue(f2.quality) == Some(v2)
    requires v1 < v2
    ensures SortByQuality([f1, f2]) == Success([f2, f1])
  {
    SwappedSorted(f1, f2, v1, v2);
    SwapKeepsValues(f1, f2, v1, v2);
    SortByQualityUnique([f1, f2], [f2, f1]);
  }

  lemma SwappedSorted(f1: FormatDescriptor, f2: FormatDescriptor, v1: int, v2: int)
    requires QualityValue(f1.quality) == Some(v1) && QualityValue(f2.quality) == Some(v2)
    requires v1 < v2
    ensures AllLabelsParse([f1, f2]) && AllLabelsParse([f2, f1])
    ensures SortedByValue([f2, f1])
  {
    PairParses(f1, f2);
    PairParses(f2, f1);
    var r := [f2, f1];
    forall i, j | 0 <= i < j < |r| ensures QualityValue(r[i].quality).value >= QualityValue(r[j].quality).value {
      assert i == 0 && j == 1;
    }
  }

  lemma PairParses(a: FormatDescriptor, b: FormatDescriptor)
    requires QualityValue(a.quality).Some? && QualityValue(b.quality).Some?
    ensures AllLabelsParse([a, b])
  {
    var r := [a, b];
    forall i | 0 <= i < |r| ensures QualityValue(r[i].quality).Some? {
      if i == 0 { assert r[i] == a; } else { assert r[i] == b; }
    }
  }

  /** Of two descriptors with different labels both are kept. */
  lemma DistinctLabelsKept(f1: FormatDescriptor, f2: FormatDescriptor)
    requires f1.quality != f2.quality
    ensures Dedup([f1, f2]) == [f1, f2]
  {
    assert Dedup([f1]) == [f1] by { assert [f1][..0] == []; }
    assert [f1, f2][..1] == [f1];
    assert !HasLabel([f1], f2.quality);
  }

  lemma SwapKeepsValues(f1: FormatDescriptor, f2: FormatDescriptor, v1: int, v2: int)
    requires QualityValue(f1.quality) == Some(v1) && QualityValue(f2.quality) == Some(v2)
    requires v1 != v2
    ensures forall k :: WithValue([f2, f1], k) == WithValue([f1, f2], k)
  {
    forall k ensures WithValue([f2, f1], k) == WithValue([f1, f2], k) {
      WithValuePair(f1, f2, k);
      WithValuePair(f2, f1, k);
    }
  }

  lemma WithValuePair(a: FormatDescriptor, b: FormatDescriptor, k: int)
    ensures WithValue([a, b], k) ==
      (if QualityValue(a.quality) == Some(k) then [a] else []) +
      (if QualityValue(b.quality) == Some(k) then [b] else [])
  {
    assert [b][1..] == [];
    assert WithValue([b], k) == (if QualityValue(b.quality) == Some(k) then [b] else []) + WithValue([], k);
    assert [a, b][1..] == [b];
  }

  /** Of two descriptors with the same label only the first is kept. */
  lemma SameLabelKeepsFirst(f1: FormatDescriptor, f2: FormatDescriptor)
    requires f1.quality == f2.quality
    ensures Dedup([f1, f2]) == [f1]
  {
    assert Dedup([f1]) == [f1] by { assert [f1][..0] == []; }
    assert [f1, f2][..1] == [f1];
    assert HasLabel([f1], f2.quality) by { assert [f1][0].quality == f2.quality; }
  }

  lemma TwoRowsParsed(id1: string, w1: string, h1: nat, id2: string, w2: string, h2: nat)
    requires IsDigits(id1) && IsDigits(w1) && IsDigits(id2) && IsDigits(w2)
    ensures ParseLines([Row(id1, w1, h1), Row(id2, w2, h2)]) == [RowFormat(id1, w1, h1), RowFormat(id2, w2, h2)]
  {
    ParseRow(id1, w1, h1);
    ParseRow(id2, w2, h2);
    TwoLinesParsed(Row(id1, w1, h1), Row(id2, w2, h2), RowFormat(id1, w1, h1), RowFormat(id2, w2, h2));
  }

  lemma TwoLinesParsed(l1: string, l2: string, f1: FormatDescriptor, f2: FormatDescriptor)
    requires ParseLine(l1) == Some(f1) && ParseLine(l2) == Some(f2)
    ensures ParseLines([l1, l2]) == [f1, f2]
  {
    ParseLinesConcat([l1], [l2]);
    assert [l1] + [l2] == [l1, l2];
    assert [l1][1..] == [] && [l2][1..] == [];
  }
}
