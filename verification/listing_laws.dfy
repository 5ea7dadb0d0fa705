/** What the format listing promises: the facts relating the returned list
    to the fetch tool's output, proved about the definitions in `Listing`. */
module ListingLaws {
  import opened Results
  import opened Text
  import opened Ranking
  import opened Listing

  /** The descriptors whose label has numeric value `k`, in order. */
  function WithValue(fs: seq<FormatDescriptor>, k: int): seq<FormatDescriptor> {
    if |fs| == 0 then []
    else (if QualityValue(fs[0].quality) == Some(k) then [fs[0]] else []) + WithValue(fs[1..], k)
  }

  /** Label values never increase along the list. */
  predicate SortedByValue(fs: seq<FormatDescriptor>)
    requires AllLabelsParse(fs)
  {
    forall i, j | 0 <= i < j < |fs| :: QualityValue(fs[i].quality).value >= QualityValue(fs[j].quality).value
  }

  // ---------------------------------------------------------------------
  // From keyed entries to descriptors

  lemma ItemsConcat<T>(a: seq<Keyed<T>>, b: seq<Keyed<T>>)
    ensures Items(a + b) == Items(a) + Items(b)
  {
    assert |Items(a + b)| == |a| + |b|;
  }

  /** Over well-keyed entries, selecting a key commutes with dropping keys. */
  lemma {:induction false} ItemsWithKey(s: seq<Keyed<FormatDescriptor>>, k: int)
    requires forall i | 0 <= i < |s| :: WellKeyed(s[i])
    ensures Items(WithKey(s, k)) == WithValue(Items(s), k)
  {
    if |s| > 0 {
      ItemsWithKey(s[1..], k);
      var head := if s[0].key == k then [s[0]] else [];
      ItemsConcat(head, WithKey(s[1..], k));
      assert Items(s)[1..] == Items(s[1..]);
    }
  }

  /** Well-keyed entries are determined by their items. */
  lemma {:induction false} WellKeyedItemsInjective(a: seq<Keyed<FormatDescriptor>>, b: seq<Keyed<FormatDescriptor>>)
    requires forall i | 0 <= i < |a| :: WellKeyed(a[i])
    requires forall i | 0 <= i < |b| :: WellKeyed(b[i])
    requires Items(a) == Items(b)
    ensures a == b
  {
    assert |a| == |b|;
    forall i | 0 <= i < |a| ensures a[i] == b[i] {
      assert a[i].item == Items(a)[i] == b[i].item;
    }
  }

  lemma MultisetMembers<T>(a: seq<T>, b: seq<T>)
    requires multiset(a) == multiset(b)
    ensures forall i | 0 <= i < |a| :: a[i] in b
  {
    forall i | 0 <= i < |a| ensures a[i] in b {
      assert a[i] in multiset(a);
    }
  }

  // ---------------------------------------------------------------------
  // Labels stay distinct under rearrangement

  lemma {:induction false} DistinctLabelsAtMostOnce(b: seq<FormatDescriptor>, x: FormatDescriptor)
    requires DistinctLabels(b)
    ensures multiset(b)[x] <= 1
  {
    if |b| > 0 {
      assert b == [b[0]] + b[1..];
      DistinctLabelsAtMostOnce(b[1..], x);
      if b[0] == x {
        assert x !in b[1..] by {
          forall m | 0 <= m < |b[1..]| ensures b[1..][m] != x {
            assert b[1..][m] == b[m + 1];
          }
        }
      }
    }
  }

  lemma TwiceCounted<T>(a: seq<T>, i: int, j: int)
    requires 0 <= i < j < |a| && a[i] == a[j]
    ensures multiset(a)[a[i]] >= 2
  {
    assert a == a[..i] + [a[i]] + a[i + 1..j] + [a[j]] + a[j + 1..];
  }

  /** A rearrangement of descriptors with distinct labels has distinct labels. */
  lemma DistinctLabelsPermutation(a: seq<FormatDescriptor>, b: seq<FormatDescriptor>)
    requires multiset(a) == multiset(b) && DistinctLabels(b)
    ensures DistinctLabels(a)
  {
    forall i, j | 0 <= i < j < |a| ensures a[i].quality != a[j].quality {
      if a[i] == a[j] {
        TwiceCounted(a, i, j);
        DistinctLabelsAtMostOnce(b, a[i]);
      } else {
        assert a[i] in multiset(b) && a[j] in multiset(b);
        var m :| 0 <= m < |b| && b[m] == a[i];
        var n :| 0 <= n < |b| && b[n] == a[j];
        assert m != n;
        if m < n { assert b[m].quality != b[n].quality; } else { assert b[n].quality != b[m].quality; }
      }
    }
  }

  // ---------------------------------------------------------------------
  // The sort with its keys

  /** The entries the sort returns are the ranked entries rearranged,
      each still carrying the value of its label. */
  lemma SortedEntries(u: seq<FormatDescriptor>)
    requires Rank(u).Success?
    ensures var ks := Rank(u).value;
      && Items(ks) == u
      && multiset(Items(SortDesc(ks))) == multiset(u)
      && forall i | 0 <= i < |SortDesc(ks)| :: WellKeyed(SortDesc(ks)[i])
  {
    var ks := Rank(u).value;
    var sorted := SortDesc(ks);
    assert Items(ks) == u;
    MultisetMembers(sorted, ks);
  }

  /** On success the result is a rearrangement of the de-duplicated
      descriptors, every label has a numeric value, values never increase,
      and descriptors sharing a value keep their relative order. */
  lemma SortByQualityOrdered(u: seq<FormatDescriptor>)
    requires SortByQuality(u).Success?
    ensures var r := SortByQuality(u).value;
      && multiset(r) == multiset(u)
      && AllLabelsParse(r)
      && SortedByValue(r)
      && forall k :: WithValue(r, k) == WithValue(u, k)
  {
    var ks := Rank(u).value;
    var sorted := SortDesc(ks);
    var r := SortByQuality(u).value;
    assert r == Items(sorted);
    SortedEntries(u);
    forall i | 0 <= i < |r| ensures QualityValue(r[i].quality) == Some(sorted[i].key) {
      assert r[i] == sorted[i].item;
      assert WellKeyed(sorted[i]);
    }
    assert SortedByValue(r) by {
      forall i, j | 0 <= i < j < |r|
        ensures QualityValue(r[i].quality).value >= QualityValue(r[j].quality).value
      {
        assert sorted[i].key >= sorted[j].key;
      }
    }
    forall k ensures WithValue(r, k) == WithValue(u, k) {
      ItemsWithKey(sorted, k);
      ItemsWithKey(ks, k);
      assert WithKey(sorted, k) == WithKey(ks, k);
    }
  }

  /** The result is the only arrangement with those properties: any list of
      the same descriptors, ordered by non-increasing value and keeping the
      relative order of equal values, is what `SortByQuality` returns. */
  lemma SortByQualityUnique(u: seq<FormatDescriptor>, r': seq<FormatDescriptor>)
    requires AllLabelsParse(u)
    requires AllLabelsParse(r')
    requires SortedByValue(r')
    requires forall k :: WithValue(r', k) == WithValue(u, k)
    ensures SortByQuality(u) == Success(r')
  {
    var ks := Rank(u).value;
    var ks' := Rank(r').value;
    assert Items(ks) == u && Items(ks') == r';
    assert SortedDesc(ks') by {
      forall i, j | 0 <= i < j < |ks'| ensures ks'[i].key >= ks'[j].key {
        assert WellKeyed(ks'[i]) && WellKeyed(ks'[j]);
      }
    }
    forall k ensures WithKey(ks', k) == WithKey(ks, k) {
      ItemsWithKey(ks', k);
      ItemsWithKey(ks, k);
      WithKeyWellKeyed(ks', k);
      WithKeyWellKeyed(ks, k);
      WellKeyedItemsInjective(WithKey(ks', k), WithKey(ks, k));
    }
    SortDescCharacterized(ks, ks');
  }

  lemma {:induction false} WithKeyWellKeyed(s: seq<Keyed<FormatDescriptor>>, k: int)
    requires forall i | 0 <= i < |s| :: WellKeyed(s[i])
    ensures forall i | 0 <= i < |WithKey(s, k)| :: WellKeyed(WithKey(s, k)[i])
  {
    var w := WithKey(s, k);
    forall i | 0 <= i < |w| ensures WellKeyed(w[i]) {
      assert w[i] in w;
      WithKeyMember(s, k, w[i]);
    }
  }

  // ---------------------------------------------------------------------
  // The whole listing

  /** Every returned descriptor is the descriptor of some line of the
      output: its id is all digits, its label ends in `p`, and its
      description is that line stripped. Labels are pairwise distinct. */
  lemma ListFormatsRows(stdout: string)
    requires ListFormats(stdout).Success?
    ensures var r := ListFormats(stdout).value;
      && DistinctLabels(r)
      && forall k | 0 <= k < |r| ::
           && WellFormed(r[k])
           && exists i | 0 <= i < |Lines(stdout)| ::
                ParseLine(Lines(stdout)[i]) == Some(r[k]) && r[k].description == Strip(Lines(stdout)[i])
  {
    var lines := Lines(stdout);
    var parsed := ParseLines(lines);
    ParseLinesFrom(lines);
    var u := UniqueFormats(stdout);
    var r := ListFormats(stdout).value;
    SortByQualityOrdered(u);
    DistinctLabelsPermutation(r, u);
    MultisetMembers(r, u);
    forall k | 0 <= k < |r|
      ensures WellFormed(r[k])
      ensures exists i | 0 <= i < |lines| :: ParseLine(lines[i]) == Some(r[k]) && r[k].description == Strip(lines[i])
    {
      assert r[k] in u;
      var m :| 0 <= m < |u| && u[m] == r[k];
      assert u[m] in parsed;
      var n :| 0 <= n < |parsed| && parsed[n] == r[k];
      var i :| 0 <= i < |lines| && ParseLine(lines[i]) == Some(parsed[n]);
    }
  }

  /** The listing holds exactly the first descriptor for each label, sorted
      by value with ties kept in output order; it fails exactly when some
      kept label has a non-numeric value, naming the first such text. */
  lemma ListFormatsSpec(stdout: string)
    ensures var u := UniqueFormats(stdout);
      && (ListFormats(stdout).Failure? <==> exists i | 0 <= i < |u| :: QualityValue(u[i].quality).None?)
      && (ListFormats(stdout).Failure? ==>
            exists i :: FirstUnparsable(u, i) && ListFormats(stdout).error == KeyText(u[i].quality))
      && (ListFormats(stdout).Success? ==>
            var r := ListFormats(stdout).value;
            && multiset(r) == multiset(u)
            && AllLabelsParse(r)
            && SortedByValue(r)
            && forall k :: WithValue(r, k) == WithValue(u, k))
  {
    if ListFormats(stdout).Success? {
      SortByQualityOrdered(UniqueFormats(stdout));
    }
  }
}
