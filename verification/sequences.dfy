/** The two array searches the scanner relies on: `Array.prototype.filter`
    and `Array.prototype.find` (the latter returning the index it found). */
module Sequences {
  import opened Wrappers

  /** The elements of `s` satisfying `p`, in their original order. */
  function Filter<T>(s: seq<T>, p: T -> bool): (r: seq<T>)
    ensures |r| <= |s|
    ensures forall k :: 0 <= k < |r| ==> p(r[k])
    ensures forall k :: 0 <= k < |r| ==> r[k] in s
    ensures forall k :: 0 <= k < |s| && p(s[k]) ==> s[k] in r
  {
    if |s| == 0 then []
    else if p(s[0]) then [s[0]] + Filter(s[1..], p)
    else Filter(s[1..], p)
  }

  /** Filtering keeps order and multiplicity: it works element by element,
      keeping one element exactly when it passes, and distributes over
      concatenation. Together these determine `Filter` on every input. */
  lemma {:induction false} FilterConcat<T>(a: seq<T>, b: seq<T>, p: T -> bool)
    ensures Filter(a + b, p) == Filter(a, p) + Filter(b, p)
    ensures forall x :: Filter([x], p) == if p(x) then [x] else []
  {
    forall x ensures Filter([x], p) == if p(x) then [x] else [] {
      assert [x][1..] == [];
    }
    if a == [] {
      assert a + b == b;
    } else {
      assert (a + b)[0] == a[0] && (a + b)[1..] == a[1..] + b;
      FilterConcat(a[1..], b, p);
    }
  }

  /** The index of the first element of `s` satisfying `p`, if any. */
  function FindFirst<T>(s: seq<T>, p: T -> bool): (r: Option<nat>)
    ensures r.Some? ==> r.value < |s| && p(s[r.value])
    ensures r.Some? ==> forall k :: 0 <= k < r.value ==> !p(s[k])
    ensures r.None? <==> forall k :: 0 <= k < |s| ==> !p(s[k])
  {
    if |s| == 0 then None
    else if p(s[0]) then Some(0)
    else match FindFirst(s[1..], p)
      case None => None
      case Some(k) => Some(k + 1)
  }

  /** Taking the head of a filtered sequence is the same as finding the first
      matching element: the filter is non-empty exactly when a match exists,
      and its head is the first match. */
  lemma {:induction false} FilterHeadIsFirstMatch<T>(s: seq<T>, p: T -> bool)
    ensures |Filter(s, p)| > 0 <==> FindFirst(s, p).Some?
    ensures |Filter(s, p)| > 0 ==> Filter(s, p)[0] == s[FindFirst(s, p).value]
  {
    if |s| > 0 && !p(s[0]) {
      FilterHeadIsFirstMatch(s[1..], p);
    }
  }
}
