/** Laws about sequences that several modules share. */
module Seqs {

  /** The kept elements, each changed by `f`, in order. */
  function FilterMap<A, B>(s: seq<A>, keep: A -> bool, f: A -> B): seq<B> {
    if s == [] then []
    else
      var n := |s| - 1;
      var before := FilterMap(s[..n], keep, f);
      if keep(s[n]) then before + [f(s[n])] else before
  }

  lemma {:induction false} FilterMapMembers<A, B>(s: seq<A>, keep: A -> bool, f: A -> B)
    ensures forall a :: a in s && keep(a) ==> f(a) in FilterMap(s, keep, f)
    ensures forall b :: b in FilterMap(s, keep, f) ==> exists a :: a in s && keep(a) && f(a) == b
  {
    if s != [] {
      var n := |s| - 1;
      FilterMapMembers(s[..n], keep, f);
      assert s == s[..n] + [s[n]];
    }
  }

  lemma {:induction false} FilterMapConcat<A, B>(s: seq<A>, t: seq<A>, keep: A -> bool, f: A -> B)
    ensures FilterMap(s + t, keep, f) == FilterMap(s, keep, f) + FilterMap(t, keep, f)
  {
    if t == [] {
      assert s + t == s;
    } else {
      var n := |t| - 1;
      FilterMapConcat(s, t[..n], keep, f);
      assert (s + t)[..|s| + n] == s + t[..n];
    }
  }

  lemma FilterMapFront<A, B>(x: A, rest: seq<A>, keep: A -> bool, f: A -> B)
    requires keep(x)
    ensures FilterMap([x] + rest, keep, f) == [f(x)] + FilterMap(rest, keep, f)
  {
    FilterMapConcat([x], rest, keep, f);
    assert FilterMap([x], keep, f) == [f(x)];
  }

  lemma FilterMapPair<A, B>(a: A, b: A, keep: A -> bool, f: A -> B)
    requires keep(a) && keep(b)
    ensures FilterMap([a, b], keep, f) == [f(a), f(b)]
  {
    FilterMapConcat([a], [b], keep, f);
    assert [a] + [b] == [a, b];
    assert FilterMap([a], keep, f) == [f(a)] && FilterMap([b], keep, f) == [f(b)];
  }

  lemma TakeNext<T>(s: seq<T>, i: nat)
    requires i < |s|
    ensures s[..i + 1] == s[..i] + [s[i]]
    ensures s[..i + 1][..i] == s[..i]
  {
  }

  lemma TakeLast<T>(s: seq<T>)
    requires s != []
    ensures s == s[..|s| - 1] + [s[|s| - 1]]
  {
  }

  lemma TakeAll<T>(s: seq<T>)
    ensures s[..|s|] == s
  {
  }

  lemma ConcatTail<T>(s: seq<T>, t: seq<T>)
    requires s != []
    ensures (s + t)[0] == s[0] && (s + t)[1..] == s[1..] + t
  {
  }

  lemma EmptyConcat<T>(s: seq<T>)
    ensures [] + s == s
  {
  }

  lemma SameElements<T>(s: seq<T>, t: seq<T>)
    requires |s| == |t| && forall i :: 0 <= i < |s| ==> s[i] == t[i]
    ensures s == t
  {
  }

  /** A prefix that goes on past `p` is a prefix of what comes after `p`. */
  lemma PrefixAfter<T>(p: seq<T>, a: seq<T>, b: seq<T>)
    requires p + a <= p + b
    ensures a <= b
  {
    assert p + a == (p + b)[..|p + a|];
    assert a == (p + a)[|p|..] && b == (p + b)[|p|..];
    assert a == b[..|a|];
  }

  lemma ConcatThree<T>(a: seq<T>, b: seq<T>, c: seq<T>)
    ensures a + b + c == a + (b + c)
  {
  }

  predicate Distinct<T(==)>(s: seq<T>) {
    forall i, j :: 0 <= i < j < |s| ==> s[i] != s[j]
  }

  lemma {:induction false} DistinctSize<T>(s: seq<T>)
    requires Distinct(s)
    ensures |set x | x in s| == |s|
  {
    if s != [] {
      var n := |s| - 1;
      DistinctSize(s[..n]);
      assert (set x | x in s) == (set x | x in s[..n]) + {s[n]};
    }
  }

  lemma {:induction false} DistinctOnce<T>(s: seq<T>, x: T)
    requires Distinct(s)
    ensures multiset(s)[x] <= 1
  {
    if s != [] {
      var n := |s| - 1;
      DistinctOnce(s[..n], x);
      assert s == s[..n] + [s[n]];
      assert x == s[n] ==> x !in s[..n];
      assert x in s[..n] <==> x in multiset(s[..n]);
    }
  }

  lemma {:induction false} OnceDistinct<T(!new)>(s: seq<T>)
    requires forall x :: multiset(s)[x] <= 1
    ensures Distinct(s)
  {
    if s != [] {
      var n := |s| - 1;
      assert s == s[..n] + [s[n]];
      forall x
        ensures multiset(s[..n])[x] <= 1
      {
        assert multiset(s)[x] <= 1;
      }
      OnceDistinct(s[..n]);
      assert multiset(s)[s[n]] <= 1;
      assert s[n] in s[..n] <==> s[n] in multiset(s[..n]);
    }
  }

  lemma DistinctPermuted<T(!new)>(s: seq<T>, t: seq<T>)
    requires Distinct(s) && multiset(s) == multiset(t)
    ensures Distinct(t)
  {
    forall x
      ensures multiset(t)[x] <= 1
    {
      DistinctOnce(s, x);
    }
    OnceDistinct(t);
  }

  lemma SameSizeWhenDistinct<T>(s: seq<T>, t: seq<T>)
    requires Distinct(s) && Distinct(t)
    requires forall x :: x in s <==> x in t
    ensures |s| == |t|
  {
    DistinctSize(s);
    DistinctSize(t);
    assert (set x | x in s) == (set x | x in t);
  }

  /** Taking an element to the front permutes the sequence. */
  function ToFront<T>(s: seq<T>, i: nat): seq<T>
    requires i < |s|
  {
    [s[i]] + s[..i] + s[i + 1..]
  }

  lemma ToFrontPermutes<T(!new)>(s: seq<T>, i: nat)
    requires i < |s|
    ensures multiset(ToFront(s, i)) == multiset(s)
    ensures SameMembers(ToFront(s, i), s)
  {
    assert s == s[..i] + [s[i]] + s[i + 1..];
    PermutedMembers(ToFront(s, i), s);
  }

  ghost predicate SameMembers<T(!new)>(s: seq<T>, t: seq<T>) {
    forall x :: x in s <==> x in t
  }

  lemma PermutedMembers<T(!new)>(s: seq<T>, t: seq<T>)
    requires multiset(s) == multiset(t)
    ensures SameMembers(s, t)
  {
    forall x
      ensures x in s <==> x in t
    {
      assert x in s <==> x in multiset(s);
      assert x in t <==> x in multiset(t);
    }
  }

  /** What is kept and stands in front comes out in front. */
  lemma FilterMapToFront<A, B>(s: seq<A>, i: nat, keep: A -> bool, f: A -> B)
    requires i < |s| && keep(s[i])
    ensures FilterMap(ToFront(s, i), keep, f) != [] && FilterMap(ToFront(s, i), keep, f)[0] == f(s[i])
  {
    assert ToFront(s, i) == [s[i]] + (s[..i] + s[i + 1..]);
    FilterMapFront(s[i], s[..i] + s[i + 1..], keep, f);
  }
}
