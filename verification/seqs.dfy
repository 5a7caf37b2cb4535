/** Sequence vocabulary shared by the parsers and the generators. */
module Seqs {

  predicate NoDuplicates<T(==)>(s: seq<T>) {
    forall i, j :: 0 <= i < j < |s| ==> s[i] != s[j]
  }

  /** Position of the first occurrence of `x` in `s`. */
  function IndexOf<T(==)>(s: seq<T>, x: T): (k: nat)
    requires x in s
    ensures k < |s| && s[k] == x
    ensures forall j :: 0 <= j < k ==> s[j] != x
  {
    if s[0] == x then 0 else 1 + IndexOf(s[1..], x)
  }

  /**
   Reference definition of duplicate removal: the elements of `s` at the
   positions where they occur for the first time, in the order of `s`.
   */
  function FirstOccurrences<T(==)>(s: seq<T>): (r: seq<T>)
    ensures NoDuplicates(r)
    ensures forall i :: 0 <= i < |s| ==> s[i] in r
    ensures forall i :: 0 <= i < |r| ==> r[i] in s
  {
    if |s| == 0 then []
    else
      var p := s[..|s| - 1];
      var x := s[|s| - 1];
      assert s == p + [x];
      FirstOccurrences(p) + (if x in p then [] else [x])
  }

  lemma FirstOccurrencesElements<T>(s: seq<T>)
    ensures forall x :: x in FirstOccurrences(s) <==> x in s
  {
    var r := FirstOccurrences(s);
    forall x ensures x in r <==> x in s {
      if x in s {
        var k :| 0 <= k < |s| && s[k] == x;
      }
      if x in r {
        var k :| 0 <= k < |r| && r[k] == x;
      }
    }
  }

  /** Duplicate removal keeps the elements in the order of their first occurrence. */
  lemma {:induction false} FirstOccurrencesOrder<T>(s: seq<T>)
    ensures forall i, j :: 0 <= i < j < |FirstOccurrences(s)| ==>
      IndexOf(s, FirstOccurrences(s)[i]) < IndexOf(s, FirstOccurrences(s)[j])
  {
    if |s| > 0 {
      var p := s[..|s| - 1];
      var x := s[|s| - 1];
      assert s == p + [x];
      FirstOccurrencesOrder(p);
      var q := FirstOccurrences(p);
      var r := FirstOccurrences(s);
      assert r == q + (if x in p then [] else [x]);
      forall i, j | 0 <= i < j < |r|
        ensures IndexOf(s, r[i]) < IndexOf(s, r[j])
      {
        assert r[i] in p by { assert r[i] == q[i]; }
        PrefixIndexOf(p, x, r[i]);
        PrefixIndexOf(p, x, r[j]);
        if j < |q| {
          assert r[j] == q[j];
        } else {
          assert r[j] == x && x !in p;
          assert IndexOf(p, r[i]) < |p|;
        }
      }
    }
  }

  /** In a list without repeats, an element of the tail sits one place further along the whole list. */
  lemma TailIndexOf<T>(s: seq<T>, x: T)
    requires NoDuplicates(s) && |s| > 0 && x in s[1..]
    ensures IndexOf(s, x) == 1 + IndexOf(s[1..], x)
  {
    var k :| 0 <= k < |s[1..]| && s[1..][k] == x;
    assert s[k + 1] == x;
  }

  lemma {:induction false} PrefixIndexOf<T>(p: seq<T>, x: T, y: T)
    requires y in p + [x]
    ensures y in p ==> IndexOf(p + [x], y) == IndexOf(p, y)
    ensures y !in p ==> IndexOf(p + [x], y) == |p|
  {
    if p != [] && p[0] != y {
      assert (p + [x])[1..] == p[1..] + [x];
      PrefixIndexOf(p[1..], x, y);
    }
  }

  /** Duplicate-free sequences are their own first occurrences. */
  lemma {:induction false} FirstOccurrencesOfDistinct<T>(s: seq<T>)
    requires NoDuplicates(s)
    ensures FirstOccurrences(s) == s
  {
    if |s| > 0 {
      var p := s[..|s| - 1];
      assert s == p + [s[|s| - 1]];
      FirstOccurrencesOfDistinct(p);
    }
  }

  /** An element already seen adds nothing, wherever it recurs. */
  lemma {:induction false} FirstOccurrencesSkip<T>(p: seq<T>, x: T, q: seq<T>)
    requires x in p
    ensures FirstOccurrences(p + [x] + q) == FirstOccurrences(p + q)
    decreases |q|
  {
    if |q| == 0 {
      assert p + [x] + q == p + [x];
      assert p + q == p;
    } else {
      var q' := q[..|q| - 1];
      var y := q[|q| - 1];
      assert p + [x] + q == (p + [x] + q') + [y];
      assert p + q == (p + q') + [y];
      FirstOccurrencesSkip(p, x, q');
      assert (y in p + [x] + q') <==> (y in p + q');
    }
  }

  /**
   The source's de-duplication loop: append each element not yet in the list.
   Step `acc` to what it holds after considering `x`.
   */
  function AddIfAbsent<T(==)>(acc: seq<T>, x: T): (r: seq<T>)
    requires NoDuplicates(acc)
    ensures NoDuplicates(r)
    ensures acc <= r && |r| <= |acc| + 1
    ensures x in r && forall i :: 0 <= i < |r| ==> r[i] in acc || r[i] == x
  {
    if x in acc then acc else acc + [x]
  }

  /** Considering `x` for the running list agrees with the reference definition. */
  lemma AddIfAbsentStep<T>(acc: seq<T>, x: T, q: seq<T>)
    requires NoDuplicates(acc)
    ensures FirstOccurrences(AddIfAbsent(acc, x) + q) == FirstOccurrences(acc + ([x] + q))
  {
    assert acc + [x] + q == acc + ([x] + q);
    if x in acc {
      FirstOccurrencesSkip(acc, x, q);
    } else {
      assert AddIfAbsent(acc, x) + q == acc + [x] + q;
    }
  }

  predicate Sorted(s: seq<int>) {
    forall i, j :: 0 <= i < j < |s| ==> s[i] <= s[j]
  }

  predicate StrictlyIncreasing(s: seq<int>) {
    forall i, j :: 0 <= i < j < |s| ==> s[i] < s[j]
  }

  function Insert(x: int, s: seq<int>): (r: seq<int>)
    requires Sorted(s)
    ensures Sorted(r)
    ensures multiset(r) == multiset(s) + multiset{x}
    ensures StrictlyIncreasing(s) && x !in s ==> StrictlyIncreasing(r)
  {
    if |s| == 0 || x <= s[0] then
      [x] + s
    else
      var t := Insert(x, s[1..]);
      InsertHead(x, s, t);
      [s[0]] + t
  }

  lemma InsertHead(x: int, s: seq<int>, t: seq<int>)
    requires Sorted(s) && |s| > 0 && s[0] < x
    requires Sorted(t) && multiset(t) == multiset(s[1..]) + multiset{x}
    requires StrictlyIncreasing(s) && x !in s ==> StrictlyIncreasing(t)
    ensures Sorted([s[0]] + t)
    ensures multiset([s[0]] + t) == multiset(s) + multiset{x}
    ensures StrictlyIncreasing(s) && x !in s ==> StrictlyIncreasing([s[0]] + t)
  {
    assert s == [s[0]] + s[1..];
    var r := [s[0]] + t;
    forall k | 0 <= k < |t|
      ensures s[0] <= t[k]
      ensures StrictlyIncreasing(s) ==> s[0] < t[k]
    {
      assert t[k] in multiset(t);
      if t[k] != x {
        assert t[k] in multiset(s[1..]);
        var m :| 1 <= m < |s| && s[m] == t[k];
      }
    }
    forall i, j | 0 <= i < j < |r|
      ensures r[i] <= r[j]
      ensures StrictlyIncreasing(s) && x !in s ==> r[i] < r[j]
    {
      if i > 0 {
        assert r[i] == t[i - 1] && r[j] == t[j - 1];
      } else {
        assert r[j] == t[j - 1];
      }
    }
  }

  /** `Collections.sort` on a list of integers: ascending order. */
  function Sort(s: seq<int>): (r: seq<int>)
    ensures Sorted(r)
    ensures multiset(r) == multiset(s)
    ensures NoDuplicates(s) ==> StrictlyIncreasing(r)
  {
    if |s| == 0 then []
    else
      var t := Sort(s[1..]);
      SortStep(s, t);
      Insert(s[0], t)
  }

  /** What sorting the tail tells about inserting the head. */
  lemma SortStep(s: seq<int>, t: seq<int>)
    requires |s| > 0 && multiset(t) == multiset(s[1..])
    ensures multiset(s) == multiset(t) + multiset{s[0]}
    ensures NoDuplicates(s) ==> NoDuplicates(s[1..]) && s[0] !in t
  {
    assert s == [s[0]] + s[1..];
    assert s[0] in t ==> s[0] in multiset(t);
  }

  /** Sorting neither adds nor drops values. */
  lemma SortKeepsElements(s: seq<int>)
    ensures forall d :: d in Sort(s) <==> d in s
  {
    var r := Sort(s);
    forall d ensures d in r <==> d in s {
      assert d in r <==> d in multiset(r);
      assert d in s <==> d in multiset(s);
    }
  }

  /** A list with no elements is empty. */
  lemma EmptyWhenNoElements<T>(s: seq<T>)
    ensures (forall x :: x !in s) ==> s == []
  {
    if |s| > 0 {
      assert s[0] in s;
    }
  }

  /** A strictly increasing list is determined by its elements. */
  lemma {:induction false} StrictlyIncreasingUnique(a: seq<int>, b: seq<int>)
    requires StrictlyIncreasing(a) && StrictlyIncreasing(b)
    requires forall x :: x in a <==> x in b
    ensures a == b
    decreases |a|
  {
    if |a| == 0 {
      EmptyWhenNoElements(b);
    } else {
      assert a[0] in b && b[0] in a;
      assert |b| > 0 && a[0] == b[0];
      forall x ensures x in a[1..] <==> x in b[1..] {
        assert x in a[1..] <==> x in a && x > a[0];
        assert x in b[1..] <==> x in b && x > b[0];
      }
      StrictlyIncreasingUnique(a[1..], b[1..]);
      assert a == [a[0]] + a[1..] && b == [b[0]] + b[1..];
    }
  }

  function Flatten<T>(ss: seq<seq<T>>): seq<T> {
    if |ss| == 0 then [] else ss[0] + Flatten(ss[1..])
  }

  lemma {:induction false} FlattenLength<T>(ss: seq<seq<T>>, n: nat)
    requires forall k :: 0 <= k < |ss| ==> |ss[k]| == n
    ensures |Flatten(ss)| == n * |ss|
  {
    if |ss| > 0 {
      FlattenLength(ss[1..], n);
    }
  }
}
