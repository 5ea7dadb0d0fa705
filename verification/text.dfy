/** The Python `str` operations the handlers rely on, restricted to ASCII:
    `strip()`, `split(sep)`, `split()`, the `in` substring test,
    `endswith`, `isdigit()`, `replace(c, '')` and `int()` in base 10. */
module Text {
  import opened Results

  /** The ASCII characters Python's `str.split()` and `str.strip()` treat
      as whitespace: tab, line feed, vertical tab, form feed, carriage
      return, the four information separators and the space. */
  predicate IsSpace(c: char) {
    var n := c as int;
    (9 <= n <= 13) || (28 <= n <= 32)
  }

  predicate IsDigit(c: char) {
    '0' <= c <= '9'
  }

  predicate AllSpace(s: string) {
    forall i | 0 <= i < |s| :: IsSpace(s[i])
  }

  /** `s[lo..hi]` is whitespace. */
  predicate SpaceBetween(s: string, lo: int, hi: int) {
    0 <= lo <= hi <= |s| && forall k | lo <= k < hi :: IsSpace(s[k])
  }

  predicate NoSpace(s: string) {
    forall i | 0 <= i < |s| :: !IsSpace(s[i])
  }

  // ---------------------------------------------------------------------
  // strip()

  /** The first index at or after `i` that does not hold whitespace. */
  function SkipSpace(s: string, i: nat): (k: nat)
    requires i <= |s|
    ensures i <= k <= |s| && SpaceBetween(s, i, k)
    ensures k == |s| || !IsSpace(s[k])
    decreases |s| - i
  {
    if i < |s| && IsSpace(s[i]) then SkipSpace(s, i + 1) else i
  }

  /** The last index, going back from `j` but not below `lo`, before
      which no whitespace is left. */
  function BackSpace(s: string, lo: nat, j: nat): (k: nat)
    requires lo <= j <= |s|
    ensures lo <= k <= j && SpaceBetween(s, k, j)
    ensures k == lo || !IsSpace(s[k - 1])
  {
    if j > lo && IsSpace(s[j - 1]) then BackSpace(s, lo, j - 1) else j
  }

  /** `s[i..j]` is what remains of `s` once a whitespace prefix `s[..i]`
      and a whitespace suffix `s[j..]` are cut away. */
  predicate CutBySpace(s: string, i: int, j: int) {
    SpaceBetween(s, 0, i) && i <= j && SpaceBetween(s, j, |s|)
  }

  /** Python's `s.strip()`: the slice of `s` left after removing leading
      and trailing whitespace, which neither starts nor ends in whitespace. */
  function Strip(s: string): (r: string)
    ensures exists i, j :: CutBySpace(s, i, j) && r == s[i..j]
    ensures r == [] || (!IsSpace(r[0]) && !IsSpace(r[|r| - 1]))
  {
    var i := SkipSpace(s, 0);
    var j := BackSpace(s, i, |s|);
    assert CutBySpace(s, i, j);
    s[i..j]
  }

  /** Text that neither starts nor ends in whitespace is left unchanged. */
  lemma StripTrimmed(s: string)
    requires s == [] || (!IsSpace(s[0]) && !IsSpace(s[|s| - 1]))
    ensures Strip(s) == s
  {
    assert SkipSpace(s, 0) == 0;
    assert BackSpace(s, 0, |s|) == |s|;
    assert s[0..|s|] == s;
  }

  // ---------------------------------------------------------------------
  // split(sep) for a one-character separator

  /** Python's `s.split(sep)` with the one-character separator `c`: the
      pieces between occurrences of `c`, empty ones included. */
  function SplitOn(s: string, c: char): (r: seq<string>)
    ensures |r| >= 1
    ensures forall k | 0 <= k < |r| :: c !in r[k]
    ensures |r| == 1 <==> c !in s
  {
    if |s| == 0 then [""]
    else
      var rest := SplitOn(s[1..], c);
      assert c in s <==> s[0] == c || c in s[1..] by {
        assert s == [s[0]] + s[1..];
      }
      if s[0] == c then [""] + rest
      else [[s[0]] + rest[0]] + rest[1..]
  }

  /** Python's `sep.join(pieces)` for a one-character separator. */
  function Join(pieces: seq<string>, c: char): string
    requires |pieces| >= 1
  {
    if |pieces| == 1 then pieces[0]
    else pieces[0] + [c] + Join(pieces[1..], c)
  }

  /** Joining the pieces of a split with the same separator gives back
      the original string. */
  lemma {:induction false} JoinSplitOn(s: string, c: char)
    ensures Join(SplitOn(s, c), c) == s
  {
    if |s| > 0 {
      var rest := SplitOn(s[1..], c);
      JoinSplitOn(s[1..], c);
      if s[0] != c {
        if |rest| == 1 {
          assert Join(SplitOn(s, c), c) == [s[0]] + rest[0];
        } else {
          assert rest == [rest[0]] + rest[1..];
          assert Join(rest, c) == rest[0] + [c] + Join(rest[1..], c);
          assert Join(SplitOn(s, c), c) == [s[0]] + rest[0] + [c] + Join(rest[1..], c);
        }
      }
      assert s == [s[0]] + s[1..];
    }
  }

  /** A separator-free string splits into itself alone. */
  lemma {:induction false} SplitOnAbsent(s: string, c: char)
    requires c !in s
    ensures SplitOn(s, c) == [s]
  {
    if |s| > 0 {
      SplitOnAbsent(s[1..], c);
      assert s == [s[0]] + s[1..];
    }
  }

  /** The first piece is everything before the first separator; the rest
      is the split of what follows it. */
  lemma {:induction false} SplitOnFirst(a: string, c: char, b: string)
    requires c !in a
    ensures SplitOn(a + [c] + b, c) == [a] + SplitOn(b, c)
  {
    if |a| == 0 {
      assert a + [c] + b == [c] + b;
      assert ([c] + b)[1..] == b;
    } else {
      var x := a + [c] + b;
      assert c !in a[1..] && a[0] != c;
      SplitOnFirst(a[1..], c, b);
      assert x[1..] == a[1..] + [c] + b && x[0] == a[0];
      var rest := SplitOn(x[1..], c);
      assert rest == [a[1..]] + SplitOn(b, c);
      assert SplitOn(x, c) == [[a[0]] + rest[0]] + rest[1..];
      assert [a[0]] + a[1..] == a;
    }
  }

  /** The last piece is everything after the last separator. */
  lemma {:induction false} SplitOnLast(a: string, c: char, b: string)
    requires c !in b
    ensures |SplitOn(a + [c] + b, c)| >= 2
    ensures SplitOn(a + [c] + b, c)[|SplitOn(a + [c] + b, c)| - 1] == b
  {
    var x := a + [c] + b;
    if |a| == 0 {
      SplitOnFirst(a, c, b);
      SplitOnAbsent(b, c);
      assert SplitOn(x, c) == [a, b];
    } else {
      SplitOnLast(a[1..], c, b);
      assert x[1..] == a[1..] + [c] + b;
      var rest := SplitOn(x[1..], c);
      assert SplitOn(x, c)[|SplitOn(x, c)| - 1] == rest[|rest| - 1];
    }
  }

  /** Splitting a join of separator-free pieces recovers the pieces. */
  lemma {:induction false} SplitOnJoin(pieces: seq<string>, c: char)
    requires |pieces| >= 1
    requires forall k | 0 <= k < |pieces| :: c !in pieces[k]
    ensures SplitOn(Join(pieces, c), c) == pieces
  {
    if |pieces| == 1 {
      SplitOnAbsent(pieces[0], c);
    } else {
      SplitOnJoin(pieces[1..], c);
      SplitOnFirst(pieces[0], c, Join(pieces[1..], c));
      assert pieces == [pieces[0]] + pieces[1..];
    }
  }

  /** `s.strip().split('\n')`: the lines of a tool's standard output. */
  function Lines(s: string): (r: seq<string>)
    ensures |r| >= 1
    ensures forall k | 0 <= k < |r| :: '\n' !in r[k]
    ensures Join(r, '\n') == Strip(s)
  {
    JoinSplitOn(Strip(s), '\n');
    SplitOn(Strip(s), '\n')
  }

  // ---------------------------------------------------------------------
  // split() with no argument

  /** Length of the longest whitespace-free prefix of `s`. */
  function WordLength(s: string): (n: nat)
    ensures n <= |s|
    ensures NoSpace(s[..n])
    ensures n < |s| ==> IsSpace(s[n])
  {
    if |s| == 0 || IsSpace(s[0]) then 0
    else
      var n := 1 + WordLength(s[1..]);
      assert s[..n] == [s[0]] + s[1..][..n - 1];
      n
  }

  /** Python's `s.split()`: the maximal runs of non-whitespace characters,
      in order; none is empty and none contains whitespace, and there are
      none exactly when the text is all whitespace. */
  function Tokens(s: string): (r: seq<string>)
    ensures forall k | 0 <= k < |r| :: |r[k]| > 0 && NoSpace(r[k])
    ensures |r| == 0 <==> AllSpace(s)
    decreases |s|
  {
    if |s| == 0 then []
    else if IsSpace(s[0]) then
      assert AllSpace(s) <==> AllSpace(s[1..]) by {
        assert forall k | 1 <= k < |s| :: s[k] == s[1..][k - 1];
      }
      Tokens(s[1..])
    else
      var n := WordLength(s);
      [s[..n]] + Tokens(s[n..])
  }

  /** A whitespace character separates the tokens on its left from those
      on its right. */
  lemma {:induction false} TokensSplitAtSpace(a: string, c: char, b: string)
    requires IsSpace(c)
    ensures Tokens(a + [c] + b) == Tokens(a) + Tokens(b)
    decreases |a|
  {
    var s := a + [c] + b;
    if |a| == 0 {
      assert s == [c] + b;
      assert s[1..] == b;
    } else if IsSpace(a[0]) {
      TokensSplitAtSpace(a[1..], c, b);
      assert s[1..] == a[1..] + [c] + b;
    } else {
      var n := WordLength(a);
      WordLengthPrefix(a, [c] + b);
      assert s == a + ([c] + b);
      assert s[..n] == a[..n];
      assert s[n..] == a[n..] + [c] + b;
      TokensSplitAtSpace(a[n..], c, b);
    }
  }

  /** A word followed by a whitespace character ends there. */
  lemma {:induction false} WordLengthPrefix(a: string, t: string)
    requires |t| > 0 && IsSpace(t[0])
    ensures WordLength(a + t) == WordLength(a)
  {
    if |a| > 0 && !IsSpace(a[0]) {
      WordLengthPrefix(a[1..], t);
      assert (a + t)[1..] == a[1..] + t;
    } else if |a| == 0 {
      assert a + t == t;
    }
  }

  /** A non-empty whitespace-free string is a single token. */
  lemma {:induction false} TokensOfWord(w: string)
    requires |w| > 0 && NoSpace(w)
    ensures Tokens(w) == [w]
  {
    WordLengthOfWord(w);
    assert !IsSpace(w[0]);
    assert w[..|w|] == w;
    assert w[|w|..] == [];
    assert Tokens(w) == [w[..|w|]] + Tokens(w[|w|..]);
  }

  lemma {:induction false} WordLengthOfWord(w: string)
    requires NoSpace(w)
    ensures WordLength(w) == |w|
  {
    if |w| > 0 {
      WordLengthOfWord(w[1..]);
    }
  }

  /** Words joined by single spaces: `' '.join(words)`. */
  function Unwords(words: seq<string>): string
    requires |words| >= 1
  {
    Join(words, ' ')
  }

  /** `' '.join(words).split() == words` for non-empty whitespace-free words. */
  lemma {:induction false} TokensUnwords(words: seq<string>)
    requires |words| >= 1
    requires forall k | 0 <= k < |words| :: |words[k]| > 0 && NoSpace(words[k])
    ensures Tokens(Unwords(words)) == words
  {
    if |words| == 1 {
      TokensOfWord(words[0]);
    } else {
      TokensUnwords(words[1..]);
      TokensSplitAtSpace(words[0], ' ', Unwords(words[1..]));
      TokensOfWord(words[0]);
      assert words == [words[0]] + words[1..];
    }
  }

  // ---------------------------------------------------------------------
  // `sub in s`, endswith, isdigit, replace

  predicate OccursAt(s: string, sub: string, i: int) {
    0 <= i && i + |sub| <= |s| && s[i..i + |sub|] == sub
  }

  /** Python's `sub in s`. */
  function Contains(s: string, sub: string): (b: bool)
    ensures b <==> exists i :: OccursAt(s, sub, i)
    decreases |s|
  {
    if |sub| > |s| then
      false
    else if s[..|sub|] == sub then
      assert OccursAt(s, sub, 0);
      true
    else
      OccursShift(s, sub);
      Contains(s[1..], sub)
  }

  /** Past the first position, an occurrence in `s` is an occurrence in
      `s[1..]` one place to the left. */
  lemma OccursShift(s: string, sub: string)
    requires |sub| <= |s| && s[..|sub|] != sub
    ensures (exists i :: OccursAt(s, sub, i)) <==> (exists i :: OccursAt(s[1..], sub, i))
  {
    if i :| OccursAt(s, sub, i) {
      assert i != 0;
      assert s[1..][i - 1..i - 1 + |sub|] == s[i..i + |sub|];
      assert OccursAt(s[1..], sub, i - 1);
    }
    if i :| OccursAt(s[1..], sub, i) {
      assert s[1..][i..i + |sub|] == s[i + 1..i + 1 + |sub|];
      assert OccursAt(s, sub, i + 1);
    }
  }

  /** Python's `s.endswith(c)` for a one-character suffix. */
  predicate EndsWith(s: string, c: char) {
    |s| > 0 && s[|s| - 1] == c
  }

  /** Python's `s.isdigit()` over ASCII: non-empty and all decimal digits. */
  predicate IsDigits(s: string) {
    |s| > 0 && forall i | 0 <= i < |s| :: IsDigit(s[i])
  }

  /** Python's `s.replace(c, '')`: `s` with every `c` removed, all other
      characters kept in order. */
  function RemoveAll(s: string, c: char): (r: string)
    ensures c !in r
    ensures |r| <= |s|
    ensures multiset(r) == multiset(s)[c := 0]
  {
    if |s| == 0 then ""
    else
      assert s == [s[0]] + s[1..];
      if s[0] == c then RemoveAll(s[1..], c)
      else [s[0]] + RemoveAll(s[1..], c)
  }

  /** Removing a character that does not occur changes nothing. */
  lemma {:induction false} RemoveAllAbsent(s: string, c: char)
    requires c !in s
    ensures RemoveAll(s, c) == s
  {
    if |s| > 0 {
      assert c !in s[1..] && s[0] != c;
      RemoveAllAbsent(s[1..], c);
      assert RemoveAll(s, c) == [s[0]] + RemoveAll(s[1..], c);
      assert s == [s[0]] + s[1..];
    }
  }

  /** Removal works piece by piece, so the survivors keep their order. */
  lemma {:induction false} RemoveAllConcat(a: string, b: string, c: char)
    ensures RemoveAll(a + b, c) == RemoveAll(a, c) + RemoveAll(b, c)
  {
    if |a| > 0 {
      assert (a + b)[1..] == a[1..] + b;
      RemoveAllConcat(a[1..], b, c);
    } else {
      assert a + b == b;
    }
  }

  // ---------------------------------------------------------------------
  // int() in base 10

  function DigitValue(c: char): (d: nat)
    requires IsDigit(c)
    ensures d < 10
  {
    c as int - '0' as int
  }

  function DigitChar(d: nat): (c: char)
    requires d < 10
    ensures IsDigit(c) && DigitValue(c) == d
  {
    ('0' as int + d) as char
  }

  /** The number a string of decimal digits denotes. */
  function DigitsValue(s: string): nat
    requires forall i | 0 <= i < |s| :: IsDigit(s[i])
  {
    if |s| == 0 then 0
    else DigitsValue(s[..|s| - 1]) * 10 + DigitValue(s[|s| - 1])
  }

  /** Python's base-10 literal body: digits, with single underscores allowed
      between two digits. */
  predicate IsNumeral(s: string) {
    && |s| > 0
    && IsDigit(s[0])
    && IsDigit(s[|s| - 1])
    && (forall i | 0 <= i < |s| :: IsDigit(s[i]) || s[i] == '_')
    && (forall i | 0 <= i < |s| - 1 :: !(s[i] == '_' && s[i + 1] == '_'))
  }

  lemma NumeralDigits(s: string)
    requires IsNumeral(s)
    ensures forall i | 0 <= i < |RemoveAll(s, '_')| :: IsDigit(RemoveAll(s, '_')[i])
  {
    var r := RemoveAll(s, '_');
    forall i | 0 <= i < |r| ensures IsDigit(r[i]) {
      assert r[i] in multiset(r);
      assert r[i] in multiset(s);
      assert r[i] in s;
    }
  }

  /** The four information separators (28 to 31). `strip()` removes them,
      but `int()` skips only the other six whitespace characters, so text
      holding a separator is never a number to it. */
  predicate IsSeparator(c: char) {
    28 <= c as int <= 31
  }

  predicate NoSeparator(s: string) {
    forall i | 0 <= i < |s| :: !IsSeparator(s[i])
  }

  /** Python's `int(s)` for a base-10 string: optional surrounding
      whitespace other than the information separators, an optional sign,
      then a numeral. `None` is the `ValueError` Python raises for
      anything else. */
  function ParseInt(s: string): (r: Option<int>)
    ensures r.Some? <==> IsSignedNumeral(Strip(s)) && NoSeparator(s)
  {
    if NoSeparator(s) then ParseSigned(Strip(s)) else None
  }

  /** The whitespace `int()` skips: tab, line feed, vertical tab, form
      feed, carriage return and space. */
  predicate IntSpace(s: string) {
    AllSpace(s) && NoSeparator(s)
  }

  /** A signed numeral padded with tab, line feed, vertical tab, form feed,
      carriage return or space converts to the numeral's value. */
  lemma {:induction false} ParseIntPadded(a: string, t: string, b: string)
    requires IntSpace(a) && IntSpace(b)
    requires IsSignedNumeral(t)
    ensures ParseInt(a + t + b) == ParseSigned(t)
  {
    assert !IsSpace(t[0]) && !IsSpace(t[|t| - 1]);
    StripPadded(a, t, b);
    assert NoSeparator(t);
    NoSeparatorConcat(a, t);
    NoSeparatorConcat(a + t, b);
  }

  lemma NoSeparatorConcat(x: string, y: string)
    requires NoSeparator(x) && NoSeparator(y)
    ensures NoSeparator(x + y)
  {
  }

  /** Whitespace around text that neither starts nor ends in whitespace is
      exactly what `strip()` removes. */
  lemma {:induction false} StripPadded(a: string, t: string, b: string)
    requires AllSpace(a) && AllSpace(b)
    requires |t| > 0 && !IsSpace(t[0]) && !IsSpace(t[|t| - 1])
    ensures Strip(a + t + b) == t
  {
    var s := a + t + b;
    var r := Strip(s);
    var i, j :| CutBySpace(s, i, j) && r == s[i..j];
    assert s[|a|] == t[0];
    assert s[|a| + |t| - 1] == t[|t| - 1];
    forall k | 0 <= k < |a| ensures IsSpace(s[k]) {
      assert s[k] == a[k];
    }
    forall k | |a| + |t| <= k < |s| ensures IsSpace(s[k]) {
      assert s[k] == b[k - |a| - |t|];
    }
    assert s[|a|..|a| + |t|] == t;
  }

  /** `int()` on text without surrounding whitespace. */
  function ParseSigned(t: string): (r: Option<int>)
    ensures r.Some? <==> IsSignedNumeral(t)
  {
    if |t| > 0 && (t[0] == '+' || t[0] == '-') then
      match ParseNumeral(t[1..])
      case None => None
      case Some(v) => var n: int := v; Some(if t[0] == '-' then -n else n)
    else ParseNumeral(t)
  }

  predicate IsSignedNumeral(t: string) {
    IsNumeral(t) || (|t| > 0 && (t[0] == '+' || t[0] == '-') && IsNumeral(t[1..]))
  }

  function ParseNumeral(s: string): (r: Option<nat>)
    ensures r.Some? <==> IsNumeral(s)
  {
    if IsNumeral(s) then
      NumeralDigits(s);
      Some(DigitsValue(RemoveAll(s, '_')))
    else None
  }

  /** Python's `str(n)` for an integer. */
  function ShowInt(n: int): string {
    if n < 0 then "-" + ShowNat(-n) else ShowNat(n)
  }

  function ShowNat(n: nat): (s: string)
    ensures |s| > 0 && forall i | 0 <= i < |s| :: IsDigit(s[i])
  {
    if n < 10 then [DigitChar(n)]
    else ShowNat(n / 10) + [DigitChar(n % 10)]
  }

  lemma {:induction false} DigitsValueShowNat(n: nat)
    ensures DigitsValue(ShowNat(n)) == n
  {
    if n >= 10 {
      var s := ShowNat(n);
      DigitsValueShowNat(n / 10);
      assert s[..|s| - 1] == ShowNat(n / 10);
    }
  }

  /** The decimal rendering of a natural number is a numeral denoting it. */
  lemma ParseShowNat(n: nat)
    ensures ParseNumeral(ShowNat(n)) == Some(n)
  {
    var d := ShowNat(n);
    assert '_' !in d;
    RemoveAllAbsent(d, '_');
    DigitsValueShowNat(n);
  }

  /** `int(str(n)) == n` for every integer `n`. */
  lemma ParseShowInt(n: int)
    ensures ParseInt(ShowInt(n)) == Some(n)
  {
    var s := ShowInt(n);
    ParseSignedShowInt(n);
    assert !IsSpace(s[0]) && IsDigit(s[|s| - 1]);
    StripTrimmed(s);
    assert NoSeparator(s);
  }

  lemma ParseSignedShowInt(n: int)
    ensures ParseSigned(ShowInt(n)) == Some(n)
  {
    if n < 0 {
      ParseSignedNegative(-n);
    } else {
      ParseSignedNatural(n);
    }
  }

  lemma ParseSignedNegative(m: nat)
    ensures ParseSigned("-" + ShowNat(m)) == Some(-(m as int))
  {
    var d := ShowNat(m);
    var t := "-" + d;
    assert t[0] == '-' && t[1..] == d;
    ParseShowNat(m);
  }

  lemma ParseSignedNatural(m: nat)
    ensures ParseSigned(ShowNat(m)) == Some(m)
  {
    var d := ShowNat(m);
    assert IsDigit(d[0]);
    ParseShowNat(m);
  }
}
