/** Python's filter() over a list, with a predicate that always answers and
    with one that may raise. */
module Seqs {
  import opened Wrappers

  /** `a` is `b` with some elements left out, the rest in their order. */
  predicate IsSubsequence<T(==)>(a: seq<T>, b: seq<T>)
    decreases |b|
  {
    if a == [] then true
    else if b == [] then false
    else (a[0] == b[0] && IsSubsequence(a[1..], b[1..])) || IsSubsequence(a, b[1..])
  }

  lemma {:induction false} SubsequenceReflexive<T>(s: seq<T>)
    ensures IsSubsequence(s, s)
  {
    if s != [] {
      SubsequenceReflexive(s[1..]);
    }
  }

  lemma {:induction false} SubsequenceTransitive<T>(a: seq<T>, b: seq<T>, c: seq<T>)
    requires IsSubsequence(a, b) && IsSubsequence(b, c)
    ensures IsSubsequence(a, c)
    decreases |c|
  {
    if a != [] && b != [] && c != [] {
      if IsSubsequence(b, c[1..]) {
        SubsequenceTransitive(a, b, c[1..]);
      } else if IsSubsequence(a, b[1..]) {
        SubsequenceTransitive(a, b[1..], c[1..]);
      } else {
        SubsequenceTransitive(a[1..], b[1..], c[1..]);
      }
    }
  }

  /** Every element of a subsequence occurs in the sequence. */
  lemma {:induction false} SubsequenceMember<T>(a: seq<T>, b: seq<T>, x: T)
    requires IsSubsequence(a, b) && x in a
    ensures x in b
    decreases |b|
  {
    if a[0] == b[0] && IsSubsequence(a[1..], b[1..]) {
      if x != a[0] {
        assert x in a[1..];
        SubsequenceMember(a[1..], b[1..], x);
      }
    } else {
      SubsequenceMember(a, b[1..], x);
    }
  }

  /** [f(x) for x in s] for a conversion f that may raise: f runs on the
      elements in order and the first exception ends the list. */
  function TryMap<T, U, E>(s: seq<T>, f: T -> Result<U, E>): (r: Result<seq<U>, E>)
    ensures r.Ok? <==> forall i :: 0 <= i < |s| ==> f(s[i]).Ok?
    ensures r.Ok? ==> |r.value| == |s| && forall i :: 0 <= i < |s| ==> f(s[i]) == Ok(r.value[i])
    ensures r.Err? ==> exists i :: 0 <= i < |s| && f(s[i]) == Err(r.error) && forall j :: 0 <= j < i ==> f(s[j]).Ok?
  {
    if s == [] then Ok([])
    else match f(s[0])
      case Err(e) => Err(e)
      case Ok(v) =>
        match TryMap(s[1..], f)
        case Err(e) =>
          assert exists i :: 0 <= i < |s| && f(s[i]) == Err(e) && forall j :: 0 <= j < i ==> f(s[j]).Ok? by {
            var k :| 0 <= k < |s| - 1 && f(s[1..][k]) == Err(e) && forall j :: 0 <= j < k ==> f(s[1..][j]).Ok?;
            forall j | 0 <= j < k + 1 ensures f(s[j]).Ok? {
              if j > 0 { assert s[j] == s[1..][j - 1]; }
            }
            assert s[k + 1] == s[1..][k];
          }
          Err(e)
        case Ok(rest) => Ok([v] + rest)
  }

  /** Converting two elements that both convert gives their two values. */
  lemma TryMapPair<T, U, E>(x: T, y: T, f: T -> Result<U, E>, u: U, v: U)
    requires f(x) == Ok(u) && f(y) == Ok(v)
    ensures TryMap([x, y], f) == Ok([u, v])
  {
    assert TryMap([], f) == Ok([]);
    assert [y][0] == y && [y][1..] == [];
    assert TryMap([y], f) == Ok([v] + []);
    assert [v] + [] == [v];
    assert [x, y][0] == x && [x, y][1..] == [y];
    assert TryMap([x, y], f) == Ok([u] + [v]);
    assert [u] + [v] == [u, v];
  }

  /** list(filter(p, s)) for a predicate p that never raises. */
  function Filter<T>(s: seq<T>, p: T -> bool): (r: seq<T>)
    ensures |r| <= |s|
    ensures forall i :: 0 <= i < |r| ==> p(r[i])
  {
    if s == [] then [] else (if p(s[0]) then [s[0]] else []) + Filter(s[1..], p)
  }

  function Both<T>(p: T -> bool, q: T -> bool): T -> bool {
    x => p(x) && q(x)
  }

  /** The predicate a possibly-raising test stands for where it does not raise. */
  function Passes<T, E>(test: T -> Result<bool, E>): T -> bool {
    x => test(x).Ok? && test(x).value
  }

  /** list(filter(test, s)) for a test that may raise: the test runs on the
      elements in order and the first exception ends the filter. */
  function TryFilter<T, E>(s: seq<T>, test: T -> Result<bool, E>): (r: Result<seq<T>, E>)
    ensures r.Ok? <==> forall i :: 0 <= i < |s| ==> test(s[i]).Ok?
    ensures r.Ok? ==> r.value == Filter(s, Passes(test))
  {
    if s == [] then Ok([])
    else match test(s[0])
      case Err(e) => Err(e)
      case Ok(keep) =>
        match TryFilter(s[1..], test)
        case Err(e) => Err(e)
        case Ok(rest) => Ok((if keep then [s[0]] else []) + rest)
  }

  lemma {:induction false} FilterIsSubsequence<T>(s: seq<T>, p: T -> bool)
    ensures IsSubsequence(Filter(s, p), s)
  {
    if s != [] {
      FilterIsSubsequence(s[1..], p);
      var r := Filter(s, p);
      if p(s[0]) {
        assert r[0] == s[0] && r[1..] == Filter(s[1..], p);
      } else {
        assert r == Filter(s[1..], p);
        if r != [] {
          assert IsSubsequence(r, s[1..]);
        }
      }
    }
  }

  /** An element is kept exactly when it occurs in the input and satisfies p. */
  lemma {:induction false} FilterMembership<T>(s: seq<T>, p: T -> bool, x: T)
    ensures x in Filter(s, p) <==> x in s && p(x)
  {
    if s != [] {
      FilterMembership(s[1..], p, x);
      assert s == [s[0]] + s[1..];
    }
  }

  lemma {:induction false} FilterKeepsAll<T>(s: seq<T>, p: T -> bool)
    requires forall i :: 0 <= i < |s| ==> p(s[i])
    ensures Filter(s, p) == s
  {
    if s != [] {
      FilterKeepsAll(s[1..], p);
    }
  }

  lemma FilterCons<T>(x: T, s: seq<T>, p: T -> bool)
    ensures Filter([x] + s, p) == (if p(x) then [x] else []) + Filter(s, p)
  {
    assert ([x] + s)[1..] == s;
  }

  lemma {:induction false} FilterRejectsAll<T>(s: seq<T>, p: T -> bool)
    requires forall i :: 0 <= i < |s| ==> !p(s[i])
    ensures Filter(s, p) == []
  {
    if s != [] {
      FilterRejectsAll(s[1..], p);
    }
  }

  /** Predicates that agree on the elements of s filter s alike. */
  lemma {:induction false} FilterCongruent<T>(s: seq<T>, p: T -> bool, q: T -> bool)
    requires forall i :: 0 <= i < |s| ==> p(s[i]) == q(s[i])
    ensures Filter(s, p) == Filter(s, q)
  {
    if s != [] {
      FilterCongruent(s[1..], p, q);
    }
  }

  lemma FilterIdempotent<T>(s: seq<T>, p: T -> bool)
    ensures Filter(Filter(s, p), p) == Filter(s, p)
  {
    FilterKeepsAll(Filter(s, p), p);
  }

  /** Filtering by p and then by q keeps what filtering once by both keeps. */
  lemma {:induction false} FilterFilter<T>(s: seq<T>, p: T -> bool, q: T -> bool)
    ensures Filter(Filter(s, p), q) == Filter(s, Both(p, q))
  {
    if s != [] {
      FilterFilter(s[1..], p, q);
      FilterAppend((if p(s[0]) then [s[0]] else []), Filter(s[1..], p), q);
    }
  }

  lemma {:induction false} FilterAppend<T>(a: seq<T>, b: seq<T>, p: T -> bool)
    ensures Filter(a + b, p) == Filter(a, p) + Filter(b, p)
  {
    if a != [] {
      FilterAppend(a[1..], b, p);
      assert (a + b)[1..] == a[1..] + b;
    } else {
      assert a + b == b;
    }
  }

  lemma {:induction false} FilterMultiset<T>(s: seq<T>, p: T -> bool)
    ensures multiset(Filter(s, p)) <= multiset(s)
  {
    if s != [] {
      FilterMultiset(s[1..], p);
      assert s == [s[0]] + s[1..];
    }
  }

  /** A test that passes every element keeps the whole sequence. */
  lemma TryFilterKeepsAll<T, E>(s: seq<T>, test: T -> Result<bool, E>)
    requires forall i :: 0 <= i < |s| ==> Passes(test)(s[i])
    ensures TryFilter(s, test) == Ok(s)
  {
    FilterKeepsAll(s, Passes(test));
  }

  /** The exception list(filter(...)) raises is the one of the first element
      the test raises on. */
  lemma {:induction false} TryFilterFirstError<T, E>(s: seq<T>, test: T -> Result<bool, E>, k: nat)
    requires k < |s| && test(s[k]).Err?
    requires forall j :: 0 <= j < k ==> test(s[j]).Ok?
    ensures TryFilter(s, test) == Err(test(s[k]).error)
  {
    if k > 0 {
      TryFilterFirstError(s[1..], test, k - 1);
    }
  }
}
