/** Failure-carrying values shared by every module of the model. */
module Results {

  /** A value that may be absent (Python's `None` when it is not). */
  datatype Option<+T> = None | Some(value: T)

  /** The outcome of a computation that either yields a value or fails
      with an error (a raised exception in the modelled program). */
  datatype Result<+T, +E> = Success(value: T) | Failure(error: E)

  /** The present values of `f` over `xs`, in order: a loop that appends
      what each element yields and skips the elements that yield nothing. */
  function FilterMap<A, B>(f: A -> Option<B>, xs: seq<A>): (r: seq<B>)
    ensures |r| <= |xs|
  {
    if |xs| == 0 then [] else Emitted(f, xs[0]) + FilterMap(f, xs[1..])
  }

  /** What one element contributes: its value, or nothing. */
  function Emitted<A, B>(f: A -> Option<B>, x: A): (r: seq<B>)
    ensures |r| <= 1
  {
    match f(x)
    case Some(y) => [y]
    case None => []
  }

  /** Every collected value is the value of one of the elements. */
  lemma {:induction false} FilterMapFrom<A, B>(f: A -> Option<B>, xs: seq<A>)
    ensures forall k | 0 <= k < |FilterMap(f, xs)| ::
      exists i | 0 <= i < |xs| :: f(xs[i]) == Some(FilterMap(f, xs)[k])
  {
    if |xs| > 0 {
      FilterMapFrom(f, xs[1..]);
      var e, rest := Emitted(f, xs[0]), FilterMap(f, xs[1..]);
      var r := FilterMap(f, xs);
      assert r == e + rest;
      forall k | 0 <= k < |r| ensures exists i | 0 <= i < |xs| :: f(xs[i]) == Some(r[k]) {
        if k < |e| {
          assert f(xs[0]) == Some(r[k]);
        } else {
          assert r[k] == rest[k - |e|];
          var i :| 0 <= i < |xs[1..]| && f(xs[1..][i]) == Some(rest[k - |e|]);
          assert xs[i + 1] == xs[1..][i];
        }
      }
    } else {
      assert FilterMap(f, xs) == [];
    }
  }

  /** An element whose value is present contributes it. */
  lemma {:induction false} FilterMapHas<A, B>(f: A -> Option<B>, xs: seq<A>, i: int)
    requires 0 <= i < |xs| && f(xs[i]).Some?
    ensures exists m | 0 <= m < |FilterMap(f, xs)| :: FilterMap(f, xs)[m] == f(xs[i]).value
  {
    var e, rest := Emitted(f, xs[0]), FilterMap(f, xs[1..]);
    var r := FilterMap(f, xs);
    if i == 0 {
      assert r[0] == f(xs[0]).value;
    } else {
      assert xs[i] == xs[1..][i - 1];
      FilterMapHas(f, xs[1..], i - 1);
      var m :| 0 <= m < |rest| && rest[m] == f(xs[i]).value;
      assert r[m + |e|] == rest[m];
    }
  }

  /** Collecting is element by element: the values of two blocks are those
      of the first block followed by those of the second. */
  lemma {:induction false} FilterMapConcat<A, B>(f: A -> Option<B>, a: seq<A>, b: seq<A>)
    ensures FilterMap(f, a + b) == FilterMap(f, a) + FilterMap(f, b)
  {
    if |a| > 0 {
      FilterMapConcat(f, a[1..], b);
      assert a + b == [a[0]] + (a[1..] + b);
      FilterMapCons(f, a[0], a[1..] + b);
      FilterMapCons(f, a[0], a[1..]);
      assert a == [a[0]] + a[1..];
    } else {
      assert a + b == b;
    }
  }

  lemma FilterMapCons<A, B>(f: A -> Option<B>, x: A, xs: seq<A>)
    ensures FilterMap(f, [x] + xs) == Emitted(f, x) + FilterMap(f, xs)
  {
    assert ([x] + xs)[1..] == xs;
  }

  /** A property that holds of the first element holds of all elements
      exactly when it holds of the rest. */
  lemma AllAfterFirst<T>(p: T -> bool, s: seq<T>)
    requires |s| > 0 && p(s[0])
    ensures (forall i | 0 <= i < |s[1..]| :: p(s[1..][i])) <==> (forall i | 0 <= i < |s| :: p(s[i]))
  {
    if forall i | 0 <= i < |s[1..]| :: p(s[1..][i]) {
      forall i | 1 <= i < |s| ensures p(s[i]) {
        assert s[i] == s[1..][i - 1];
      }
    }
  }
}
