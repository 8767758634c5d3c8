/** The regular expression `/\d+\.\d+\.\d+/` used to spot a versioned
    sub-directory such as `app-1.2.3`: `test` succeeds when the pattern
    matches anywhere in the name. */
module Version {

  /** JavaScript's `\d`: the ASCII digits only. */
  predicate IsDigit(c: char) {
    '0' <= c <= '9'
  }

  /** A non-empty run of digits: the language of `\d+`. */
  ghost predicate IsDigits(t: string) {
    |t| > 0 && forall k :: 0 <= k < |t| ==> IsDigit(t[k])
  }

  /** `t` is exactly one word of `\d+\.\d+\.\d+`. */
  ghost predicate IsVersionTriple(t: string) {
    exists x: string, y: string, z: string ::
      t == x + "." + y + "." + z && IsDigits(x) && IsDigits(y) && IsDigits(z)
  }

  /** Reference meaning of `/\d+\.\d+\.\d+/.test(s)`: some slice of `s` is a version triple. */
  ghost predicate ContainsVersion(s: string) {
    exists i, j :: 0 <= i <= j <= |s| && IsVersionTriple(s[i..j])
  }

  /** The length of the longest run of digits starting at `i`. */
  function DigitRun(s: string, i: nat): (n: nat)
    requires i <= |s|
    ensures i + n <= |s|
    ensures forall k :: i <= k < i + n ==> IsDigit(s[k])
    ensures i + n == |s| || !IsDigit(s[i + n])
    decreases |s| - i
  {
    if i < |s| && IsDigit(s[i]) then 1 + DigitRun(s, i + 1) else 0
  }

  /** The pattern matches at position `i`. Digits and `.` never overlap, so
      matching each `\d+` greedily is exact. */
  predicate MatchesAt(s: string, i: nat)
    requires i <= |s|
  {
    var a := DigitRun(s, i);
    a > 0 && i + a < |s| && s[i + a] == '.' &&
    var b := DigitRun(s, i + a + 1);
    b > 0 && i + a + 1 + b < |s| && s[i + a + 1 + b] == '.' &&
    DigitRun(s, i + a + b + 2) > 0
  }

  /** Scans the start positions from `i` onwards. */
  predicate MatchesFrom(s: string, i: nat)
    requires i <= |s|
    decreases |s| - i
  {
    MatchesAt(s, i) || (i < |s| && MatchesFrom(s, i + 1))
  }

  /** `/\d+\.\d+\.\d+/.test(s)`: the scan accepts exactly the names that
      contain a version triple. */
  predicate HasVersion(s: string)
    ensures HasVersion(s) <==> ContainsVersion(s)
  {
    ScanIff(s);
    MatchesFrom(s, 0)
  }

  /** Scanning every start position finds a match exactly when some slice is
      a version triple. */
  lemma ScanIff(s: string)
    ensures MatchesFrom(s, 0) <==> ContainsVersion(s)
  {
    if MatchesFrom(s, 0) {
      var i := MatchingStart(s, 0);
      MatchYieldsTriple(s, i);
    }
    if ContainsVersion(s) {
      var i, j :| 0 <= i <= j <= |s| && IsVersionTriple(s[i..j]);
      TripleYieldsMatch(s, i, j);
      MatchesFromEarlier(s, 0, i);
    }
  }

  /** A name without any digit never matches. */
  lemma NoDigitsNoVersion(s: string)
    requires forall k :: 0 <= k < |s| ==> !IsDigit(s[k])
    ensures !HasVersion(s)
  {
    NoMatchFrom(s, 0);
  }

  lemma {:induction false} NoMatchFrom(s: string, i: nat)
    requires i <= |s|
    requires forall k :: 0 <= k < |s| ==> !IsDigit(s[k])
    ensures !MatchesFrom(s, i)
    decreases |s| - i
  {
    assert DigitRun(s, i) == 0;
    if i < |s| {
      NoMatchFrom(s, i + 1);
    }
  }

  /** A successful scan from `i` has a concrete matching start. */
  lemma {:induction false} MatchingStart(s: string, i: nat) returns (k: nat)
    requires i <= |s| && MatchesFrom(s, i)
    ensures i <= k <= |s| && MatchesAt(s, k)
    decreases |s| - i
  {
    if MatchesAt(s, i) {
      k := i;
    } else {
      k := MatchingStart(s, i + 1);
    }
  }

  /** A match at `k` is found by every scan that starts at or before `k`. */
  lemma {:induction false} MatchesFromEarlier(s: string, i: nat, k: nat)
    requires i <= k <= |s| && MatchesAt(s, k)
    ensures MatchesFrom(s, i)
    decreases k - i
  {
    if i < k {
      MatchesFromEarlier(s, i + 1, k);
    }
  }

  /** A run of digits read off `s` as a slice satisfies `IsDigits`. */
  lemma DigitsSlice(s: string, i: nat, n: nat)
    requires 0 < n && i + n <= |s|
    requires forall k :: i <= k < i + n ==> IsDigit(s[k])
    ensures IsDigits(s[i..i + n])
  {
  }

  /** A greedy match at `i` spells out a version triple. */
  lemma MatchYieldsTriple(s: string, i: nat)
    requires i <= |s| && MatchesAt(s, i)
    ensures ContainsVersion(s)
  {
    var a, b, c := MatchPieces(s, i);
    PiecesYieldTriple(s, i, a, b, c);
  }

  /** The three digit runs of a match at `i`, and the dots between them. */
  lemma MatchPieces(s: string, i: nat) returns (a: nat, b: nat, c: nat)
    requires i <= |s| && MatchesAt(s, i)
    ensures 0 < a && 0 < b && 0 < c && i + a + b + 2 + c <= |s|
    ensures s[i + a] == '.' && s[i + a + 1 + b] == '.'
    ensures forall k :: i <= k < i + a ==> IsDigit(s[k])
    ensures forall k :: i + a + 1 <= k < i + a + 1 + b ==> IsDigit(s[k])
    ensures forall k :: i + a + b + 2 <= k < i + a + b + 2 + c ==> IsDigit(s[k])
  {
    a := DigitRun(s, i);
    b := DigitRun(s, i + a + 1);
    c := DigitRun(s, i + a + b + 2);
  }

  /** Three digit runs separated by dots spell out a version triple. */
  lemma PiecesYieldTriple(s: string, i: nat, a: nat, b: nat, c: nat)
    requires 0 < a && 0 < b && 0 < c && i + a + b + 2 + c <= |s|
    requires s[i + a] == '.' && s[i + a + 1 + b] == '.'
    requires forall k :: i <= k < i + a ==> IsDigit(s[k])
    requires forall k :: i + a + 1 <= k < i + a + 1 + b ==> IsDigit(s[k])
    requires forall k :: i + a + b + 2 <= k < i + a + b + 2 + c ==> IsDigit(s[k])
    ensures ContainsVersion(s)
  {
    var j := i + a + b + 2 + c;
    var x, y, z := s[i..i + a], s[i + a + 1..i + a + 1 + b], s[i + a + b + 2..j];
    DigitsSlice(s, i, a);
    DigitsSlice(s, i + a + 1, b);
    DigitsSlice(s, i + a + b + 2, c);
    assert s[i..j] == x + "." + y + "." + z by {
      SliceAroundDots(s, i, i + a, i + a + 1 + b, j);
    }
    TripleOfPieces(x, y, z);
    TripleWitness(s, i, j);
  }

  /** A version triple found as a slice witnesses `ContainsVersion`. */
  lemma TripleWitness(s: string, i: nat, j: nat)
    requires i <= j <= |s| && IsVersionTriple(s[i..j])
    ensures ContainsVersion(s)
  {
  }

  /** Three digit runs joined by dots form a version triple. */
  lemma TripleOfPieces(x: string, y: string, z: string)
    requires IsDigits(x) && IsDigits(y) && IsDigits(z)
    ensures IsVersionTriple(x + "." + y + "." + z)
  {
  }

  /** A slice cut at two interior positions `p < q` is its three pieces with those two letters between. */
  lemma SliceAroundDots(s: string, i: nat, p: nat, q: nat, j: nat)
    requires i <= p < q < j <= |s|
    ensures s[i..j] == s[i..p] + [s[p]] + s[p + 1..q] + [s[q]] + s[q + 1..j]
  {
    assert s[i..j] == s[i..p] + s[p..q] + s[q..j];
    assert s[p..q] == [s[p]] + s[p + 1..q];
    assert s[q..j] == [s[q]] + s[q + 1..j];
  }

  /** A maximal digit run that stops in front of a `.` has exactly the run's length. */
  lemma RunStopsAtDot(s: string, i: nat, n: nat)
    requires i + n < |s| && s[i + n] == '.'
    requires forall k :: i <= k < i + n ==> IsDigit(s[k])
    ensures DigitRun(s, i) == n
    decreases n
  {
    if n > 0 {
      RunStopsAtDot(s, i + 1, n - 1);
    }
  }

  /** A maximal digit run is at least as long as any all-digit stretch it starts. */
  lemma RunCoversDigits(s: string, i: nat, n: nat)
    requires i + n <= |s|
    requires forall k :: i <= k < i + n ==> IsDigit(s[k])
    ensures DigitRun(s, i) >= n
    decreases n
  {
    if n > 0 {
      RunCoversDigits(s, i + 1, n - 1);
    }
  }

  /** The pieces of `x + "." + y + "." + z`, read back by position. */
  lemma TriplePieces(t: string, x: string, y: string, z: string)
    requires t == x + "." + y + "." + z
    ensures |t| == |x| + |y| + |z| + 2
    ensures t[..|x|] == x && t[|x|] == '.'
    ensures t[|x| + 1..|x| + 1 + |y|] == y && t[|x| + 1 + |y|] == '.'
    ensures t[|x| + |y| + 2..] == z
  {
    assert t == x + ("." + y + "." + z);
    assert t[|x| + 1..] == y + "." + z;
  }

  /** A slice of a slice is a slice of the original. */
  lemma SliceOfSlice(s: string, i: nat, j: nat, lo: nat, hi: nat)
    requires i <= j <= |s| && lo <= hi <= j - i
    ensures s[i..j][lo..hi] == s[i + lo..i + hi]
  {
    assert forall k :: 0 <= k < hi - lo ==> s[i..j][lo..hi][k] == s[i + lo + k];
  }

  /** Every position of a slice that is all digits holds a digit of `s`. */
  lemma DigitsInSlice(s: string, lo: nat, hi: nat)
    requires lo <= hi <= |s| && IsDigits(s[lo..hi])
    ensures forall k :: lo <= k < hi ==> IsDigit(s[k])
  {
    forall k | lo <= k < hi
      ensures IsDigit(s[k])
    {
      assert s[k] == s[lo..hi][k - lo];
    }
  }

  /** A version triple in the slice `s[i..j]` makes the greedy matcher succeed at `i`. */
  lemma TripleYieldsMatch(s: string, i: nat, j: nat)
    requires i <= j <= |s| && IsVersionTriple(s[i..j])
    ensures MatchesAt(s, i)
  {
    var x: string, y: string, z: string :| s[i..j] == x + "." + y + "." + z && IsDigits(x) && IsDigits(y) && IsDigits(z);
    PiecesYieldMatch(s, i, j, x, y, z);
  }

  /** The greedy matcher succeeds at `i` when `s[i..j]` is spelled as a version triple. */
  lemma PiecesYieldMatch(s: string, i: nat, j: nat, x: string, y: string, z: string)
    requires i <= j <= |s| && s[i..j] == x + "." + y + "." + z
    requires IsDigits(x) && IsDigits(y) && IsDigits(z)
    ensures MatchesAt(s, i)
  {
    var t := s[i..j];
    TriplePieces(t, x, y, z);
    var a, b, c := |x|, |y|, |z|;
    SliceOfSlice(s, i, j, 0, a);
    SliceOfSlice(s, i, j, a + 1, a + 1 + b);
    SliceOfSlice(s, i, j, a + b + 2, |t|);
    assert s[i + a] == t[a];
    assert s[i + a + 1 + b] == t[a + 1 + b];
    DigitsInSlice(s, i, i + a);
    DigitsInSlice(s, i + a + 1, i + a + 1 + b);
    DigitsInSlice(s, i + a + b + 2, j);
    RunStopsAtDot(s, i, a);
    RunStopsAtDot(s, i + a + 1, b);
    RunCoversDigits(s, i + a + b + 2, c);
    MatchFromRuns(s, i, a, b);
  }

  /** The greedy matcher succeeds once the three runs and both dots are in place. */
  lemma MatchFromRuns(s: string, i: nat, a: nat, b: nat)
    requires i + a + b + 2 < |s|
    requires 0 < a == DigitRun(s, i) && s[i + a] == '.'
    requires 0 < b == DigitRun(s, i + a + 1) && s[i + a + 1 + b] == '.'
    requires DigitRun(s, i + a + b + 2) > 0
    ensures MatchesAt(s, i)
  {
  }
}
