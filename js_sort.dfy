/**
 * Array.prototype.sort() with no comparator, on arrays of strings. The engine's
 * algorithm is not observable here: the order is total on strings, so exactly one
 * ordering of a given multiset is sorted (SortedUnique), and any correct sort returns
 * it. The model computes it by insertion.
 */
module JsSort {
  import opened JsString

  /** Every earlier element sorts no later than every later one. */
  predicate Sorted(s: seq<string>) {
    forall i, j :: 0 <= i < j < |s| ==> NotAfter(s[i], s[j])
  }

  /** A head that sorts no later than every element of a sorted tail gives a sorted sequence. */
  lemma ConsSorted(h: string, t: seq<string>)
    requires Sorted(t)
    requires forall y :: y in t ==> NotAfter(h, y)
    ensures Sorted([h] + t)
  {
    var r := [h] + t;
    forall i, j | 0 <= i < j < |r| ensures NotAfter(r[i], r[j]) {
      if i == 0 {
        assert r[j] == t[j - 1] && t[j - 1] in t;
      } else {
        assert r[i] == t[i - 1] && r[j] == t[j - 1];
      }
    }
  }

  /** The head of a sorted sequence sorts no later than anything made of its tail and one
      element it does not follow. */
  lemma HeadBeforeInsertion(s: seq<string>, x: string, rest: seq<string>)
    requires Sorted(s) && |s| > 0 && NotAfter(s[0], x)
    requires multiset(rest) == multiset(s[1..]) + multiset{x}
    ensures forall y :: y in rest ==> NotAfter(s[0], y)
  {
    forall y | y in rest ensures NotAfter(s[0], y) {
      assert y in multiset(rest);
      if y != x {
        assert y in multiset(s[1..]);
        var j :| 0 <= j < |s[1..]| && s[1..][j] == y;
        assert s[j + 1] == y;
      }
    }
  }

  /** Inserts x into a sorted sequence, before the first element that x does not follow. */
  function Insert(x: string, s: seq<string>): (r: seq<string>)
    requires Sorted(s)
    ensures Sorted(r)
    ensures multiset(r) == multiset(s) + multiset{x}
  {
    if |s| == 0 then [x]
    else if NotAfter(x, s[0]) then
      assert forall y :: y in s ==> NotAfter(x, y) by {
        forall y | y in s ensures NotAfter(x, y) {
          var j :| 0 <= j < |s| && s[j] == y;
          if j > 0 { NotAfterTransitive(x, s[0], s[j]); }
        }
      }
      ConsSorted(x, s);
      [x] + s
    else
      NotAfterTotal(x, s[0]);
      assert s == [s[0]] + s[1..];
      var rest := Insert(x, s[1..]);
      HeadBeforeInsertion(s, x, rest);
      ConsSorted(s[0], rest);
      [s[0]] + rest
  }

  /** Array.prototype.sort() on strings: a sorted permutation of its input. */
  function Sort(s: seq<string>): (r: seq<string>)
    ensures Sorted(r)
    ensures multiset(r) == multiset(s)
  {
    if |s| == 0 then []
    else
      assert s == s[..|s| - 1] + [s[|s| - 1]];
      Insert(s[|s| - 1], Sort(s[..|s| - 1]))
  }

  /** Removing the head of a sequence removes one occurrence of it from its multiset. */
  lemma MultisetTail(s: seq<string>)
    requires |s| > 0
    ensures multiset(s[1..]) == multiset(s) - multiset{s[0]}
  {
    assert s == [s[0]] + s[1..];
  }

  /** The head of a sorted sequence sorts no later than any of its elements. */
  lemma HeadFirst(s: seq<string>, x: string)
    requires Sorted(s) && x in multiset(s)
    ensures NotAfter(s[0], x)
  {
    var i :| 0 <= i < |s| && s[i] == x;
    if i == 0 { NotAfterReflexive(x); }
  }

  /** Two sorted sequences with the same elements are equal. */
  lemma {:induction false} SortedUnique(a: seq<string>, b: seq<string>)
    requires Sorted(a) && Sorted(b)
    requires multiset(a) == multiset(b)
    ensures a == b
  {
    if |a| == 0 {
      assert |multiset(b)| == 0;
    } else {
      assert |b| > 0 by { assert |multiset(b)| == |multiset(a)| > 0; }
      assert a[0] in multiset(a) && b[0] in multiset(b);
      HeadFirst(a, b[0]);
      HeadFirst(b, a[0]);
      NotAfterAntisymmetric(a[0], b[0]);
      MultisetTail(a);
      MultisetTail(b);
      SortedUnique(a[1..], b[1..]);
      assert a == [a[0]] + a[1..] && b == [b[0]] + b[1..];
    }
  }

  /** Sorting an already sorted sequence changes nothing. */
  lemma SortOfSorted(s: seq<string>)
    requires Sorted(s)
    ensures Sort(s) == s
  {
    SortedUnique(Sort(s), s);
  }

  /** The result of a sort depends only on which elements, with multiplicity, are sorted:
      in particular not on the order a directory listing returns them in. */
  lemma SortOrderIndependent(a: seq<string>, b: seq<string>)
    requires multiset(a) == multiset(b)
    ensures Sort(a) == Sort(b)
  {
    SortedUnique(Sort(a), Sort(b));
  }
}
