/** The three `path` operations the scanner needs, for Windows paths:
    joining a name under a directory, the parent directory and the base name
    with an optional extension stripped. Node's normalisation (`.`/`..`
    segments, repeated separators, drive roots) is not reproduced. */
module Paths {
  import opened Text

  /** Windows accepts both separators. */
  predicate IsSeparator(c: char) {
    c == '\\' || c == '/'
  }

  /** A single path segment, such as a name returned by a directory listing. */
  predicate IsSegment(name: string) {
    forall k :: 0 <= k < |name| ==> !IsSeparator(name[k])
  }

  /** `path.join(dir, name)`: one separator between the two parts. */
  function Join(dir: string, name: string): (p: string)
    ensures EndsWith(p, name)
    ensures dir == "" ==> p == name
    ensures dir != "" ==> |p| >= |dir| && p[..|dir|] == dir
  {
    if dir == "" then name
    else if IsSeparator(dir[|dir| - 1]) then dir + name
    else dir + "\\" + name
  }

  /** Joining under a directory without a trailing separator inserts one `\\`. */
  lemma JoinInsertsSeparator(dir: string, name: string)
    requires dir != "" && !IsSeparator(dir[|dir| - 1])
    ensures Join(dir, name) == dir + "\\" + name
  {
  }

  /** The position just after the last separator of `p` (0 when there is none). */
  function SegmentStart(p: string): (k: nat)
    ensures k <= |p|
    ensures k > 0 ==> IsSeparator(p[k - 1])
    ensures IsSegment(p[k..])
  {
    if |p| == 0 then 0
    else if IsSeparator(p[|p| - 1]) then |p|
    else
      var k := SegmentStart(p[..|p| - 1]);
      assert p[k..] == p[..|p| - 1][k..] + [p[|p| - 1]];
      k
  }

  /** `path.basename(p)`: the text after the last separator. */
  function BaseName(p: string): (b: string)
    ensures IsSegment(b) && EndsWith(p, b)
  {
    p[SegmentStart(p)..]
  }

  /** `path.join(p, '..')`: the text before the last separator; empty when there is none. */
  function Parent(p: string): (d: string)
    ensures |d| < |p| || p == d == ""
    ensures d == p[..|d|]
  {
    var k := SegmentStart(p);
    if k == 0 then "" else p[..k - 1]
  }

  /** `path.basename(p, ext)`: the base name with an exact (case-sensitive)
      trailing `ext` removed, unless that would leave nothing. */
  function BaseNameWithout(p: string, ext: string): (b: string)
    ensures IsSegment(b)
    ensures EndsWith(BaseName(p), ext) && BaseName(p) != ext ==> b != "" && b + ext == BaseName(p)
    ensures !EndsWith(BaseName(p), ext) || BaseName(p) == ext ==> b == BaseName(p)
  {
    var name := BaseName(p);
    if EndsWith(name, ext) && name != ext then name[..|name| - |ext|] else name
  }

  /** Joining a segment under a directory and taking the base name gives the segment back. */
  lemma BaseNameOfJoin(dir: string, name: string)
    requires IsSegment(name) && name != ""
    ensures BaseName(Join(dir, name)) == name
  {
    var p := Join(dir, name);
    var start := |p| - |name|;
    assert p[start..] == name;
    if dir != "" {
      if IsSeparator(dir[|dir| - 1]) {
        assert p == dir + name;
        assert p[start - 1] == dir[|dir| - 1];
      } else {
        assert p == dir + "\\" + name;
      }
      assert IsSeparator(p[start - 1]);
    }
    SegmentStartAt(p, start);
  }

  /** The last segment of `p` starts at `start` when a separator (or the
      start of `p`) comes just before it and no separator follows. */
  lemma {:induction false} SegmentStartAt(p: string, start: nat)
    requires start <= |p| && IsSegment(p[start..])
    requires start == 0 || IsSeparator(p[start - 1])
    ensures SegmentStart(p) == start
    decreases |p|
  {
    if |p| > start {
      var q := p[..|p| - 1];
      assert p[start..][|p| - 1 - start] == p[|p| - 1];
      assert q[start..] == p[start..][..|p| - 1 - start];
      assert start == 0 || q[start - 1] == p[start - 1];
      SegmentStartAt(q, start);
    }
  }

  /** `<dir>\<a>\<b>` taken apart again: base name `b`, then `a`, then `dir`. */
  lemma NestedJoin(dir: string, a: string, b: string)
    requires IsSegment(a) && a != "" && IsSegment(b) && b != ""
    ensures BaseName(Join(Join(dir, a), b)) == b
    ensures BaseName(Parent(Join(Join(dir, a), b))) == a
    ensures dir != "" && !IsSeparator(dir[|dir| - 1]) ==> Parent(Parent(Join(Join(dir, a), b))) == dir
  {
    var inner := Join(dir, a);
    BaseNameOfJoin(inner, b);
    ParentOfJoin(inner, b);
    BaseNameOfJoin(dir, a);
    if dir != "" && !IsSeparator(dir[|dir| - 1]) {
      ParentOfJoin(dir, a);
    }
  }

  /** Joining a segment under a directory and taking the parent gives the
      directory back, provided it does not end in a separator already. */
  lemma ParentOfJoin(dir: string, name: string)
    requires IsSegment(name) && name != ""
    requires dir != "" && !IsSeparator(dir[|dir| - 1])
    ensures Parent(Join(dir, name)) == dir
  {
    BaseNameOfJoin(dir, name);
    var p := Join(dir, name);
    assert p == dir + "\\" + name;
    assert SegmentStart(p) == |dir| + 1;
  }
}
