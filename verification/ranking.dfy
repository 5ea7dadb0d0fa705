/** Python's `sorted(items, key=..., reverse=True)` on integer keys: a
    stable sort into non-increasing key order. Each item travels with the
    key computed for it. */
module Ranking {

  datatype Keyed<T> = Keyed(key: int, item: T)

  /** Keys never increase from left to right. */
  predicate SortedDesc<T>(s: seq<Keyed<T>>) {
    forall i, j | 0 <= i < j < |s| :: s[i].key >= s[j].key
  }

  /** The entries of `s` whose key is `k`, in their order in `s`. */
  function WithKey<T>(s: seq<Keyed<T>>, k: int): seq<Keyed<T>> {
    if |s| == 0 then []
    else (if s[0].key == k then [s[0]] else []) + WithKey(s[1..], k)
  }

  /** Sorting is stable when, for every key, the entries carrying that key
      appear in the output in the same relative order as in the input. */
  ghost predicate Stable<T>(s: seq<Keyed<T>>, r: seq<Keyed<T>>) {
    forall k :: WithKey(r, k) == WithKey(s, k)
  }

  lemma {:induction false} WithKeyAppend<T>(s: seq<Keyed<T>>, x: Keyed<T>, k: int)
    ensures WithKey(s + [x], k) == WithKey(s, k) + (if x.key == k then [x] else [])
  {
    if |s| > 0 {
      WithKeyAppend(s[1..], x, k);
      assert (s + [x])[1..] == s[1..] + [x];
    }
  }

  lemma {:induction false} WithKeyAbove<T>(s: seq<Keyed<T>>, k: int)
    requires forall i | 0 <= i < |s| :: s[i].key < k
    ensures WithKey(s, k) == []
  {
    if |s| > 0 {
      WithKeyAbove(s[1..], k);
    }
  }

  lemma {:induction false} WithKeyMember<T>(s: seq<Keyed<T>>, k: int, x: Keyed<T>)
    requires x in WithKey(s, k)
    ensures x in s && x.key == k
  {
    if |s| > 0 && !(s[0].key == k && x == s[0]) {
      WithKeyMember(s[1..], k, x);
    }
  }

  lemma WithKeyCons<T>(x: Keyed<T>, s: seq<Keyed<T>>, k: int)
    ensures WithKey([x] + s, k) == (if x.key == k then [x] else []) + WithKey(s, k)
  {
    assert ([x] + s)[1..] == s;
  }

  lemma WithKeyHead<T>(s: seq<Keyed<T>>)
    ensures |s| > 0 ==> WithKey(s, s[0].key) == [s[0]] + WithKey(s[1..], s[0].key)
  {
  }

  /** Inserts `x` after every entry whose key is at least `x.key`, so that
      `x` follows the equal-keyed entries already present. */
  function Insert<T>(x: Keyed<T>, s: seq<Keyed<T>>): (r: seq<Keyed<T>>)
    requires SortedDesc(s)
    ensures SortedDesc(r)
    ensures multiset(r) == multiset(s) + multiset{x}
    ensures multiset(Items(r)) == multiset(Items(s)) + multiset{x.item}
    ensures forall k :: WithKey(r, k) == WithKey(s, k) + (if x.key == k then [x] else [])
  {
    if |s| == 0 then [x]
    else if s[0].key >= x.key then
      var t := Insert(x, s[1..]);
      InsertBehindSorted(x, s, t);
      InsertBehind(x, s, t);
      InsertBehindCounts(x, s, t);
      InsertBehindItems(x, s, t);
      [s[0]] + t
    else
      InsertFront(x, s);
      InsertFrontItems(x, s);
      [x] + s
  }

  lemma InsertBehind<T>(x: Keyed<T>, s: seq<Keyed<T>>, t: seq<Keyed<T>>)
    requires |s| > 0
    requires forall k :: WithKey(t, k) == WithKey(s[1..], k) + (if x.key == k then [x] else [])
    ensures forall k :: WithKey([s[0]] + t, k) == WithKey(s, k) + (if x.key == k then [x] else [])
  {
    forall k ensures WithKey([s[0]] + t, k) == WithKey(s, k) + (if x.key == k then [x] else []) {
      WithKeyCons(s[0], t, k);
      WithKeyCons(s[0], s[1..], k);
    }
  }

  lemma InsertBehindCounts<T>(x: Keyed<T>, s: seq<Keyed<T>>, t: seq<Keyed<T>>)
    requires |s| > 0
    requires multiset(t) == multiset(s[1..]) + multiset{x}
    ensures multiset([s[0]] + t) == multiset(s) + multiset{x}
  {
    assert s == [s[0]] + s[1..];
  }

  lemma InsertBehindItems<T>(x: Keyed<T>, s: seq<Keyed<T>>, t: seq<Keyed<T>>)
    requires |s| > 0
    requires multiset(Items(t)) == multiset(Items(s[1..])) + multiset{x.item}
    ensures multiset(Items([s[0]] + t)) == multiset(Items(s)) + multiset{x.item}
  {
    assert ([s[0]] + t)[1..] == t;
    var a, b := Items([s[0]] + t), Items(s);
    assert a == [s[0].item] + Items(t);
    assert b == [s[0].item] + Items(s[1..]);
    assert multiset(a) == multiset{s[0].item} + multiset(Items(t));
    assert multiset(b) == multiset{s[0].item} + multiset(Items(s[1..]));
  }

  lemma InsertBehindSorted<T>(x: Keyed<T>, s: seq<Keyed<T>>, t: seq<Keyed<T>>)
    requires |s| > 0 && SortedDesc(s) && s[0].key >= x.key
    requires SortedDesc(t)
    requires multiset(t) == multiset(s[1..]) + multiset{x}
    ensures SortedDesc([s[0]] + t)
  {
    var r := [s[0]] + t;
    forall j | 0 <= j < |t| ensures s[0].key >= t[j].key {
      assert t[j] in multiset(t);
      if t[j] != x {
        assert t[j] in multiset(s[1..]);
        var m :| 0 <= m < |s[1..]| && s[1..][m] == t[j];
        assert s[m + 1] == t[j];
      }
    }
    forall i, j | 0 <= i < j < |r| ensures r[i].key >= r[j].key {
      assert r[j] == t[j - 1];
      if i > 0 {
        assert r[i] == t[i - 1];
      }
    }
  }

  lemma InsertFront<T>(x: Keyed<T>, s: seq<Keyed<T>>)
    requires |s| > 0 && SortedDesc(s) && s[0].key < x.key
    ensures SortedDesc([x] + s)
    ensures forall k :: WithKey([x] + s, k) == WithKey(s, k) + (if x.key == k then [x] else [])
  {
    WithKeyAbove(s, x.key);
    forall k ensures WithKey([x] + s, k) == WithKey(s, k) + (if x.key == k then [x] else []) {
      WithKeyCons(x, s, k);
    }
  }

  lemma InsertFrontItems<T>(x: Keyed<T>, s: seq<Keyed<T>>)
    ensures multiset(Items([x] + s)) == multiset(Items(s)) + multiset{x.item}
  {
    assert Items([x] + s) == [x.item] + Items(s);
  }

  /** The stable non-increasing sort of `s`: insertion of each entry, in
      input order, behind the equal-keyed entries inserted before it. */
  function SortDesc<T>(s: seq<Keyed<T>>): (r: seq<Keyed<T>>)
    ensures SortedDesc(r)
    ensures multiset(r) == multiset(s)
    ensures multiset(Items(r)) == multiset(Items(s))
    ensures Stable(s, r)
  {
    if |s| == 0 then []
    else
      var p := s[..|s| - 1];
      assert s == p + [s[|s| - 1]];
      forall k ensures WithKey(s, k) == WithKey(p, k) + (if s[|s| - 1].key == k then [s[|s| - 1]] else []) {
        WithKeyAppend(p, s[|s| - 1], k);
      }
      ItemsAppend(p, s[|s| - 1]);
      Insert(s[|s| - 1], SortDesc(p))
  }

  /** A sorted sequence with the same per-key order as `s` is unique: the
      stable descending sort is determined by its two properties. */
  lemma {:induction false} SortedStableUnique<T>(a: seq<Keyed<T>>, b: seq<Keyed<T>>)
    requires SortedDesc(a) && SortedDesc(b)
    requires forall k :: WithKey(a, k) == WithKey(b, k)
    ensures a == b
    decreases |a| + |b|
  {
    WithKeyHead(a);
    WithKeyHead(b);
    if |a| > 0 && |b| > 0 {
      var ka, kb := a[0].key, b[0].key;
      assert a[0] in WithKey(a, ka);
      WithKeyMember(b, ka, a[0]);
      assert b[0] in WithKey(b, kb);
      WithKeyMember(a, kb, b[0]);
      assert kb >= ka && ka >= kb;
      assert WithKey(a, ka)[0] == a[0];
      assert WithKey(b, kb)[0] == b[0];
      assert a[0] == b[0];
      forall k ensures WithKey(a[1..], k) == WithKey(b[1..], k) {
        var head := if a[0].key == k then [a[0]] else [];
        assert WithKey(a, k) == head + WithKey(a[1..], k);
        assert WithKey(b, k) == head + WithKey(b[1..], k);
        assert WithKey(a[1..], k) == WithKey(a, k)[|head|..];
        assert WithKey(b[1..], k) == WithKey(b, k)[|head|..];
      }
      SortedStableUnique(a[1..], b[1..]);
      assert a == [a[0]] + a[1..];
      assert b == [b[0]] + b[1..];
    }
  }

  /** Any sorted, stable rearrangement of `s` is `SortDesc(s)`. */
  lemma SortDescCharacterized<T>(s: seq<Keyed<T>>, r: seq<Keyed<T>>)
    requires SortedDesc(r) && Stable(s, r)
    ensures r == SortDesc(s)
  {
    SortedStableUnique(r, SortDesc(s));
  }

  lemma {:induction false} ItemsAppend<T>(s: seq<Keyed<T>>, x: Keyed<T>)
    ensures Items(s + [x]) == Items(s) + [x.item]
  {
    assert |Items(s + [x])| == |s| + 1;
  }

  /** The items in order, keys dropped. */
  function Items<T>(s: seq<Keyed<T>>): (r: seq<T>)
    ensures |r| == |s|
    ensures forall i | 0 <= i < |s| :: r[i] == s[i].item
  {
    if |s| == 0 then [] else [s[0].item] + Items(s[1..])
  }
}
