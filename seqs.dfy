// The array combinators the application leans on (`filter`, `find`, `map`),
// stated once over sequences.

module Seqs {
  import opened Types

  /** `a` is `b` with some elements left out, the rest kept in their order. */
  ghost predicate IsSubsequence<T>(a: seq<T>, b: seq<T>)
    decreases |b|
  {
    if a == [] then true
    else if b == [] then false
    else (a[0] == b[0] && IsSubsequence(a[1..], b[1..])) || IsSubsequence(a, b[1..])
  }

  /** Adding an element to the end of the longer sequence keeps a subsequence. */
  lemma {:induction false} SubsequenceSnocRight<T>(a: seq<T>, b: seq<T>, x: T)
    requires IsSubsequence(a, b)
    ensures IsSubsequence(a, b + [x])
    decreases |b|
  {
    if a != [] && b != [] {
      assert (b + [x])[1..] == b[1..] + [x];
      if a[0] == b[0] && IsSubsequence(a[1..], b[1..]) {
        SubsequenceSnocRight(a[1..], b[1..], x);
      } else {
        SubsequenceSnocRight(a, b[1..], x);
      }
    }
  }

  /** Adding the same element to the end of both keeps a subsequence. */
  lemma {:induction false} SubsequenceSnoc<T>(a: seq<T>, b: seq<T>, x: T)
    requires IsSubsequence(a, b)
    ensures IsSubsequence(a + [x], b + [x])
    decreases |b|
  {
    if a == [] {
      if b == [] {
        assert IsSubsequence([x][1..], [x][1..]);
      } else {
        assert (b + [x])[1..] == b[1..] + [x];
        SubsequenceSnoc(a, b[1..], x);
      }
    } else {
      assert (a + [x])[1..] == a[1..] + [x];
      assert (b + [x])[1..] == b[1..] + [x];
      if a[0] == b[0] && IsSubsequence(a[1..], b[1..]) {
        SubsequenceSnoc(a[1..], b[1..], x);
      } else {
        SubsequenceSnoc(a, b[1..], x);
      }
    }
  }

  /** `Array.from(new Set(s))`: the distinct elements, each where it first occurs. */
  function Dedupe<T(==,!new)>(s: seq<T>): (r: seq<T>)
    ensures forall x :: x in r <==> x in s
    ensures forall i, j :: 0 <= i < j < |r| ==> r[i] != r[j]
    ensures IsSubsequence(r, s)
    ensures forall i, j :: 0 <= i < j < |r| ==> IndexOf(s, r[i]) < IndexOf(s, r[j])
  {
    if s == [] then []
    else
      var init := s[..|s| - 1];
      var last := s[|s| - 1];
      var r := Dedupe(init);
      assert s == init + [last];
      OrderedInit(s, r);
      if last in r then
        SubsequenceSnocRight(r, init, last);
        r
      else
        SubsequenceSnoc(r, init, last);
        assert IndexOf(s, last) == |s| - 1;
        OrderedSnoc(s, r, last);
        r + [last]
  }

  /** The position of the first occurrence of `x` in `s`. */
  function IndexOf<T(==)>(s: seq<T>, x: T): (k: nat)
    requires x in s
    ensures k < |s| && s[k] == x
    ensures forall j :: 0 <= j < k ==> s[j] != x
  {
    if s[0] == x then 0
    else
      assert x in s[1..] by { HeadTail(s); }
      1 + IndexOf(s[1..], x)
  }

  /** Appending elements does not move the first occurrence of an element already there. */
  lemma IndexOfPrefix<T>(a: seq<T>, b: seq<T>, x: T)
    requires x in a
    ensures IndexOf(a + b, x) == IndexOf(a, x)
  {
    var k := IndexOf(a, x);
    assert (a + b)[k] == x;
    var k' := IndexOf(a + b, x);
    assert k' <= k;
    assert (a + b)[k'] == a[k'];
  }

  /** Dropping the last element keeps the first occurrence of every element still there. */
  lemma IndexOfInit<T>(s: seq<T>)
    requires s != []
    ensures forall y :: y in s[..|s| - 1] ==> IndexOf(s, y) == IndexOf(s[..|s| - 1], y)
  {
    var init := s[..|s| - 1];
    assert s == init + [s[|s| - 1]];
    forall y | y in init ensures IndexOf(s, y) == IndexOf(init, y) {
      IndexOfPrefix(init, [s[|s| - 1]], y);
    }
  }

  /** First-occurrence order among elements of all but the last element of `s` is the same in
      `s`, and all of them first occur before the last position. */
  lemma OrderedInit<T>(s: seq<T>, r: seq<T>)
    requires s != [] && forall i :: 0 <= i < |r| ==> r[i] in s[..|s| - 1]
    requires forall i, j :: 0 <= i < j < |r| ==> IndexOf(s[..|s| - 1], r[i]) < IndexOf(s[..|s| - 1], r[j])
    ensures forall i :: 0 <= i < |r| ==> r[i] in s && IndexOf(s, r[i]) < |s| - 1
    ensures forall i, j :: 0 <= i < j < |r| ==> IndexOf(s, r[i]) < IndexOf(s, r[j])
  {
    IndexOfInit(s);
    assert forall i :: 0 <= i < |r| ==> IndexOf(s, r[i]) == IndexOf(s[..|s| - 1], r[i]);
  }

  /** An element first occurring after all of `r` can follow `r` in first-occurrence order. */
  lemma OrderedSnoc<T>(s: seq<T>, r: seq<T>, x: T)
    requires x in s && forall i :: 0 <= i < |r| ==> r[i] in s
    requires forall i, j :: 0 <= i < j < |r| ==> IndexOf(s, r[i]) < IndexOf(s, r[j])
    requires forall i :: 0 <= i < |r| ==> IndexOf(s, r[i]) < IndexOf(s, x)
    ensures forall i, j :: 0 <= i < j < |r + [x]| ==> IndexOf(s, (r + [x])[i]) < IndexOf(s, (r + [x])[j])
  {
    forall i, j | 0 <= i < j < |r + [x]|
      ensures IndexOf(s, (r + [x])[i]) < IndexOf(s, (r + [x])[j])
    {
      assert (r + [x])[i] == r[i];
      if j < |r| {
        assert (r + [x])[j] == r[j];
      }
    }
  }

  /** `Array.prototype.filter`. */
  function Filter<T(==,!new)>(p: T -> bool, s: seq<T>): (r: seq<T>)
    ensures |r| <= |s|
    ensures forall x :: x in r <==> x in s && p(x)
    ensures IsSubsequence(r, s)
  {
    if s == [] then []
    else if p(s[0]) then [s[0]] + Filter(p, s[1..])
    else Filter(p, s[1..])
  }

  /** Filtering keeps every copy of an element that passes and drops every copy of one that
      does not. */
  lemma {:induction false} FilterCount<T(!new)>(p: T -> bool, s: seq<T>)
    ensures forall x :: multiset(Filter(p, s))[x] == if p(x) then multiset(s)[x] else 0
  {
    if s != [] {
      FilterCount(p, s[1..]);
      HeadTail(s);
      if p(s[0]) {
        assert multiset(Filter(p, s)) == multiset{s[0]} + multiset(Filter(p, s[1..]));
      }
    }
  }

  /** Filtering keeps everything exactly when every element passes. */
  lemma {:induction false} FilterAllPass<T(!new)>(p: T -> bool, s: seq<T>)
    ensures Filter(p, s) == s <==> forall i :: 0 <= i < |s| ==> p(s[i])
  {
    if s != [] {
      FilterAllPass(p, s[1..]);
      if !p(s[0]) {
        assert s[0] !in Filter(p, s);
      }
    }
  }

  lemma {:induction false} FilterAppend<T(!new)>(p: T -> bool, a: seq<T>, b: seq<T>)
    ensures Filter(p, a + b) == Filter(p, a) + Filter(p, b)
  {
    if a != [] {
      var ab := a + b;
      assert ab[0] == a[0] && ab[1..] == a[1..] + b;
      FilterAppend(p, a[1..], b);
      if p(a[0]) {
        AppendAssoc([a[0]], Filter(p, a[1..]), Filter(p, b));
      }
    } else {
      assert a + b == b;
    }
  }

  /** Filtering twice with the same test changes nothing more. */
  lemma {:induction false} FilterIdempotent<T(!new)>(p: T -> bool, s: seq<T>)
    ensures Filter(p, Filter(p, s)) == Filter(p, s)
  {
    var r := Filter(p, s);
    FilterAllPass(p, r);
  }

  /** Nothing is left exactly when no element passes. */
  lemma {:induction false} FilterEmpty<T(!new)>(p: T -> bool, s: seq<T>)
    ensures Filter(p, s) == [] <==> forall i :: 0 <= i < |s| ==> !p(s[i])
  {
    if s != [] {
      FilterEmpty(p, s[1..]);
    }
  }

  /** Nothing is dropped exactly when every element passes. */
  lemma {:induction false} FilterLength<T(!new)>(p: T -> bool, s: seq<T>)
    ensures |Filter(p, s)| == |s| <==> forall i :: 0 <= i < |s| ==> p(s[i])
  {
    if s != [] {
      var t := s[1..];
      FilterLength(p, t);
      assert forall i :: 0 <= i < |t| ==> t[i] == s[i + 1];
      if !p(s[0]) {
        assert |Filter(p, s)| == |Filter(p, t)| <= |t|;
      }
    }
  }

  /** The index of the first element that passes `p` (the search behind `find`). */
  function FirstIndex<T>(p: T -> bool, s: seq<T>): (r: Option<nat>)
    ensures r.None? <==> forall i :: 0 <= i < |s| ==> !p(s[i])
    ensures r.Some? ==> r.value < |s| && p(s[r.value])
    ensures r.Some? ==> forall j :: 0 <= j < r.value ==> !p(s[j])
  {
    if s == [] then None
    else if p(s[0]) then Some(0)
    else match FirstIndex(p, s[1..])
      case None => None
      case Some(k) => Some(k + 1)
  }

  /** Two searches agree when their tests agree position by position. */
  lemma {:induction false} FirstIndexSame<T, U>(p: T -> bool, q: U -> bool, a: seq<T>, b: seq<U>)
    requires |a| == |b| && forall i :: 0 <= i < |a| ==> p(a[i]) == q(b[i])
    ensures FirstIndex(p, a) == FirstIndex(q, b)
  {
    if a != [] {
      FirstIndexSame(p, q, a[1..], b[1..]);
    }
  }

  /** `Array.prototype.find`: the first element that passes `p`, if any. */
  function Find<T>(p: T -> bool, s: seq<T>): (r: Option<T>)
    ensures r.None? <==> forall i :: 0 <= i < |s| ==> !p(s[i])
    ensures r.Some? ==> exists i :: 0 <= i < |s| && s[i] == r.value && p(s[i]) &&
                                    forall j :: 0 <= j < i ==> !p(s[j])
  {
    match FirstIndex(p, s)
    case None => None
    case Some(k) => Some(s[k])
  }

  /** `Array.prototype.map`. */
  function Map<T, U>(f: T -> U, s: seq<T>): (r: seq<U>)
    ensures |r| == |s|
    ensures forall i :: 0 <= i < |s| ==> r[i] == f(s[i])
  {
    seq(|s|, i requires 0 <= i < |s| => f(s[i]))
  }

  lemma AppendAssoc<T>(a: seq<T>, b: seq<T>, c: seq<T>)
    ensures a + b + c == a + (b + c)
  {
  }

  /** A sequence is its head followed by its tail. */
  lemma HeadTail<T>(s: seq<T>)
    requires s != []
    ensures s == [s[0]] + s[1..]
    ensures multiset(s) == multiset(s[1..]) + multiset{s[0]}
  {
    assert s == [s[0]] + s[1..];
  }

  /** Mapping a non-empty sequence maps its head and then its tail. */
  lemma MapCons<T, U>(f: T -> U, s: seq<T>)
    requires s != []
    ensures Map(f, s) == [f(s[0])] + Map(f, s[1..])
  {
    assert Map(f, s)[1..] == Map(f, s[1..]);
  }

  /** `Array.prototype.flat` on a sequence of sequences. */
  function Flatten<T(!new)>(ss: seq<seq<T>>): (r: seq<T>)
    ensures forall s, x :: s in ss && x in s ==> x in r
    ensures forall x :: x in r ==> exists s :: s in ss && x in s
  {
    if ss == [] then [] else ss[0] + Flatten(ss[1..])
  }

  /** Flattening keeps the order of the parts: the parts of `a` come before those of `b`. */
  lemma {:induction false} FlattenAppend<T(!new)>(a: seq<seq<T>>, b: seq<seq<T>>)
    ensures Flatten(a + b) == Flatten(a) + Flatten(b)
  {
    if a == [] {
      assert a + b == b;
    } else {
      assert (a + b)[1..] == a[1..] + b;
      FlattenAppend(a[1..], b);
      AppendAssoc(a[0], Flatten(a[1..]), Flatten(b));
    }
  }

  function NonEmpty<T>(s: seq<T>): bool { s != [] }

  /** The flattened sequence starts with the first element of the first non-empty part, and is
      empty exactly when every part is. */
  lemma {:induction false} FlattenFirst<T(!new)>(ss: seq<seq<T>>)
    ensures match FirstIndex(NonEmpty, ss)
      case None => Flatten(ss) == []
      case Some(k) => Flatten(ss) != [] && Flatten(ss)[0] == ss[k][0]
  {
    if ss != [] {
      FlattenFirst(ss[1..]);
    }
  }

  function Min(a: int, b: int): int { if a <= b then a else b }
}
