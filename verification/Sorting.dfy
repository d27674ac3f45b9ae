/** Sorting as Go's sort.Slice and sort.SliceStable do it, seen from outside: an
    ordered permutation, and the only one when no two elements tie. */
module Sorting {
  import opened Seqs

  ghost predicate TotalPreorder<T(!new)>(le: (T, T) -> bool) {
    && (forall x, y :: le(x, y) || le(y, x))
    && (forall x, y, z :: le(x, y) && le(y, z) ==> le(x, z))
  }

  /** No two different elements tie. */
  ghost predicate NoTies<T(!new)>(le: (T, T) -> bool, s: seq<T>) {
    forall x, y :: x in s && y in s && le(x, y) && le(y, x) ==> x == y
  }

  predicate Ordered<T>(le: (T, T) -> bool, s: seq<T>) {
    forall i, j :: 0 <= i < j < |s| ==> le(s[i], s[j])
  }

  /** Puts `x` behind every element it does not precede. */
  function Insert<T>(x: T, s: seq<T>, le: (T, T) -> bool): seq<T> {
    if s == [] then [x]
    else if le(s[|s| - 1], x) then s + [x]
    else Insert(x, s[..|s| - 1], le) + [s[|s| - 1]]
  }

  function Sort<T>(s: seq<T>, le: (T, T) -> bool): seq<T> {
    if s == [] then [] else Insert(s[|s| - 1], Sort(s[..|s| - 1], le), le)
  }

  lemma {:induction false} InsertKeeps<T>(x: T, s: seq<T>, le: (T, T) -> bool)
    ensures multiset(Insert(x, s, le)) == multiset(s) + multiset{x}
  {
    if s != [] {
      assert s == s[..|s| - 1] + [s[|s| - 1]];
      if !le(s[|s| - 1], x) { InsertKeeps(x, s[..|s| - 1], le); }
    }
  }

  lemma {:induction false} SortPermutes<T(!new)>(s: seq<T>, le: (T, T) -> bool)
    ensures multiset(Sort(s, le)) == multiset(s)
    ensures SameMembers(Sort(s, le), s) && |Sort(s, le)| == |s|
  {
    if s != [] {
      assert s == s[..|s| - 1] + [s[|s| - 1]];
      SortPermutes(s[..|s| - 1], le);
      InsertKeeps(s[|s| - 1], Sort(s[..|s| - 1], le), le);
    }
    PermutedMembers(Sort(s, le), s);
    assert |multiset(Sort(s, le))| == |multiset(s)|;
  }

  lemma {:induction false} InsertOrders<T(!new)>(x: T, s: seq<T>, le: (T, T) -> bool)
    requires TotalPreorder(le) && Ordered(le, s)
    ensures Ordered(le, Insert(x, s, le))
  {
    if s != [] {
      var n := |s| - 1;
      if le(s[n], x) {
        forall i | 0 <= i < n
          ensures le(s[i], x)
        {
          assert le(s[i], s[n]);
        }
      } else {
        InsertOrders(x, s[..n], le);
        InsertKeeps(x, s[..n], le);
        var r := Insert(x, s[..n], le);
        forall i | 0 <= i < |r|
          ensures le(r[i], s[n])
        {
          assert r[i] in multiset(r);
          assert r[i] in s[..n] || r[i] == x;
        }
      }
    }
  }

  lemma {:induction false} SortOrders<T(!new)>(s: seq<T>, le: (T, T) -> bool)
    requires TotalPreorder(le)
    ensures Ordered(le, Sort(s, le))
  {
    if s != [] {
      SortOrders(s[..|s| - 1], le);
      InsertOrders(s[|s| - 1], Sort(s[..|s| - 1], le), le);
    }
  }

  /** Two orderings of the same elements are the same when nothing ties. */
  lemma {:induction false} OrderedUnique<T(!new)>(s: seq<T>, t: seq<T>, le: (T, T) -> bool)
    requires multiset(s) == multiset(t) && Ordered(le, s) && Ordered(le, t)
    requires NoTies(le, s) && forall x :: le(x, x)
    ensures s == t
  {
    SameLength(s, t);
    if s != [] {
      SameFirst(s, t, le);
      RestPermuted(s, t);
      RestHasNoTies(s, le);
      OrderedUnique(s[1..], t[1..], le);
      assert s == [s[0]] + s[1..] && t == [t[0]] + t[1..];
    }
  }

  lemma SameLength<T>(s: seq<T>, t: seq<T>)
    requires multiset(s) == multiset(t)
    ensures |s| == |t|
  {
    assert |multiset(s)| == |s| && |multiset(t)| == |t|;
  }

  lemma SameFirst<T(!new)>(s: seq<T>, t: seq<T>, le: (T, T) -> bool)
    requires multiset(s) == multiset(t) && Ordered(le, s) && Ordered(le, t) && s != [] && t != []
    requires NoTies(le, s) && forall x :: le(x, x)
    ensures s[0] == t[0]
  {
    PermutedMembers(s, t);
    FirstIsLeast(s, t[0], le);
    FirstIsLeast(t, s[0], le);
  }

  lemma RestPermuted<T>(s: seq<T>, t: seq<T>)
    requires multiset(s) == multiset(t) && s != [] && t != [] && s[0] == t[0]
    ensures multiset(s[1..]) == multiset(t[1..])
  {
    assert s == [s[0]] + s[1..] && t == [t[0]] + t[1..];
    assert multiset(s[1..]) == multiset(s) - multiset{s[0]};
    assert multiset(t[1..]) == multiset(t) - multiset{t[0]};
  }

  lemma RestHasNoTies<T(!new)>(s: seq<T>, le: (T, T) -> bool)
    requires s != [] && NoTies(le, s)
    ensures NoTies(le, s[1..])
  {
    assert forall x :: x in s[1..] ==> x in s;
  }

  lemma FirstIsLeast<T(!new)>(s: seq<T>, x: T, le: (T, T) -> bool)
    requires Ordered(le, s) && x in s && forall y :: le(y, y)
    ensures le(s[0], x)
  {
  }
}
