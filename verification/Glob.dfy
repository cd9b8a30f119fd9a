/** The `**` path matcher of the Glob tool (internal/tools/glob.go). */
module Glob {
  import opened Text

  // A pattern and a name are sequences of slash-separated segments.  What one
  // ordinary segment matches is path.Match's business; it enters the model as a
  // total function in which a malformed pattern simply fails to match.

  type SegmentMatch = (string, string) -> bool

  const STARS := "**"

  /** `cuts` divides the name among the pattern's segments: pattern segment k
      takes the name segments from cuts[k] up to cuts[k + 1].  A `**` may take
      any number, every other segment takes exactly one, which it matches. */
  ghost predicate Aligned(seg: SegmentMatch, pat: seq<string>, name: seq<string>, cuts: seq<nat>)
  {
    && |cuts| == |pat| + 1
    && cuts[0] == 0
    && cuts[|pat|] == |name|
    && (forall j, k :: 0 <= j <= k <= |pat| ==> cuts[j] <= cuts[k])
    && (forall k :: 0 <= k < |pat| && pat[k] != STARS ==>
          cuts[k + 1] == cuts[k] + 1 && cuts[k] < |name| && seg(pat[k], name[cuts[k]]))
  }

  /** The meaning of a pattern: some division of the name fits it. */
  ghost predicate Matches(seg: SegmentMatch, pat: seq<string>, name: seq<string>)
  {
    exists cuts: seq<nat> :: Aligned(seg, pat, name, cuts)
  }

  lemma EmptyPattern(seg: SegmentMatch, name: seq<string>)
    ensures Matches(seg, [], name) <==> name == []
  {
    if name == [] {
      assert Aligned(seg, [], name, [0]);
    }
  }

  lemma OneSegment(seg: SegmentMatch, p: string, name: seq<string>)
    requires p != STARS
    ensures Matches(seg, [p], name) <==> |name| == 1 && seg(p, name[0])
  {
    if |name| == 1 && seg(p, name[0]) {
      assert Aligned(seg, [p], name, [0, 1]);
    }
  }

  lemma StarsMatchAnything(seg: SegmentMatch, name: seq<string>)
    ensures Matches(seg, [STARS], name)
  {
    assert Aligned(seg, [STARS], name, [0, |name|]);
  }

  lemma AlignedHalves(seg: SegmentMatch, p: seq<string>, q: seq<string>, name: seq<string>, cuts: seq<nat>)
    requires Aligned(seg, p + q, name, cuts)
    ensures cuts[|p|] <= |name|
    ensures Matches(seg, p, name[..cuts[|p|]]) && Matches(seg, q, name[cuts[|p|]..])
  {
    var i := cuts[|p|];
    assert i <= cuts[|p + q|];
    var left := cuts[..|p| + 1];
    forall k | 0 <= k < |p| && p[k] != STARS
      ensures left[k + 1] == left[k] + 1 && left[k] < i && seg(p[k], name[..i][left[k]])
    {
      assert (p + q)[k] == p[k];
      assert cuts[k + 1] <= cuts[|p|];
    }
    assert Aligned(seg, p, name[..i], left);
    var right := seq(|q| + 1, k requires 0 <= k <= |q| => assert cuts[|p|] <= cuts[|p| + k]; (cuts[|p| + k] - i) as nat);
    forall k | 0 <= k < |q| && q[k] != STARS
      ensures right[k + 1] == right[k] + 1 && right[k] < |name| - i && seg(q[k], name[i..][right[k]])
    {
      assert (p + q)[|p| + k] == q[k];
      assert cuts[|p| + k + 1] == cuts[|p| + k] + 1;
    }
    assert Aligned(seg, q, name[i..], right);
  }

  /** The cuts of both halves, one after the other. */
  ghost function JoinedCuts(left: seq<nat>, right: seq<nat>, i: nat): (cuts: seq<nat>)
    requires |left| > 0 && |right| > 0 && left[|left| - 1] == i && right[0] == 0
    ensures |cuts| == |left| + |right| - 1
    ensures forall k :: 0 <= k < |left| ==> cuts[k] == left[k]
    ensures forall k :: 0 <= k < |right| ==> cuts[|left| - 1 + k] == right[k] + i
  {
    left + seq(|right| - 1, k requires 0 <= k < |right| - 1 => right[k + 1] + i)
  }

  lemma JoinedMonotone(left: seq<nat>, right: seq<nat>, i: nat)
    requires |left| > 0 && |right| > 0 && left[|left| - 1] == i && right[0] == 0
    requires forall j, k :: 0 <= j <= k < |left| ==> left[j] <= left[k]
    requires forall j, k :: 0 <= j <= k < |right| ==> right[j] <= right[k]
    ensures var cuts := JoinedCuts(left, right, i);
            forall j, k :: 0 <= j <= k < |cuts| ==> cuts[j] <= cuts[k]
  {
    var cuts, n := JoinedCuts(left, right, i), |left| - 1;
    forall j, k | 0 <= j <= k < |cuts| ensures cuts[j] <= cuts[k] {
      if k <= n {
        assert cuts[j] == left[j] && cuts[k] == left[k];
      } else if j <= n {
        assert cuts[j] == left[j] <= left[n] && cuts[n + (k - n)] == right[k - n] + i;
      } else {
        assert cuts[n + (j - n)] == right[j - n] + i && cuts[n + (k - n)] == right[k - n] + i;
      }
    }
  }

  lemma AlignedWhole(seg: SegmentMatch, p: seq<string>, q: seq<string>, name: seq<string>, i: nat,
                     left: seq<nat>, right: seq<nat>)
    requires i <= |name|
    requires Aligned(seg, p, name[..i], left) && Aligned(seg, q, name[i..], right)
    ensures Matches(seg, p + q, name)
  {
    var cuts := JoinedCuts(left, right, i);
    JoinedMonotone(left, right, i);
    forall k | 0 <= k < |p + q| && (p + q)[k] != STARS
      ensures cuts[k + 1] == cuts[k] + 1 && cuts[k] < |name| && seg((p + q)[k], name[cuts[k]])
    {
      if k < |p| {
        assert p[k] != STARS && cuts[k] == left[k] && cuts[k + 1] == left[k + 1];
      } else {
        var m := k - |p|;
        assert q[m] != STARS;
        assert cuts[|p| + m] == right[m] + i && cuts[|p| + (m + 1)] == right[m + 1] + i;
      }
    }
    assert Aligned(seg, p + q, name, cuts);
  }

  /** Patterns compose: a concatenated pattern matches exactly the names that
      can be cut into a part for each half. */
  lemma ConcatLaw(seg: SegmentMatch, p: seq<string>, q: seq<string>, name: seq<string>)
    ensures Matches(seg, p + q, name)
       <==> exists i :: 0 <= i <= |name| && Matches(seg, p, name[..i]) && Matches(seg, q, name[i..])
  {
    if Matches(seg, p + q, name) {
      var cuts :| Aligned(seg, p + q, name, cuts);
      AlignedHalves(seg, p, q, name, cuts);
    }
    if i :| 0 <= i <= |name| && Matches(seg, p, name[..i]) && Matches(seg, q, name[i..]) {
      var left :| Aligned(seg, p, name[..i], left);
      var right :| Aligned(seg, q, name[i..], right);
      AlignedWhole(seg, p, q, name, i, left, right);
    }
  }

  lemma SegmentFirst(seg: SegmentMatch, pat: seq<string>, name: seq<string>)
    requires |pat| > 0 && pat[0] != STARS
    ensures Matches(seg, pat, name) <==> |name| > 0 && seg(pat[0], name[0]) && Matches(seg, pat[1..], name[1..])
  {
    assert pat == [pat[0]] + pat[1..];
    ConcatLaw(seg, [pat[0]], pat[1..], name);
    forall i | 0 <= i <= |name|
      ensures Matches(seg, [pat[0]], name[..i]) <==> i == 1 && seg(pat[0], name[0])
    {
      OneSegment(seg, pat[0], name[..i]);
    }
  }

  lemma StarsFirst(seg: SegmentMatch, pat: seq<string>, name: seq<string>)
    requires |pat| > 0 && pat[0] == STARS
    ensures Matches(seg, pat, name) <==> exists i :: 0 <= i <= |name| && Matches(seg, pat[1..], name[i..])
  {
    assert pat == [STARS] + pat[1..];
    ConcatLaw(seg, [STARS], pat[1..], name);
    forall i | 0 <= i <= |name| ensures Matches(seg, [STARS], name[..i]) {
      StarsMatchAnything(seg, name[..i]);
    }
  }

  /** `**` in a row is the same as one: the collapsing loop changes nothing. */
  lemma ConsecutiveStarsFirst(seg: SegmentMatch, pat: seq<string>, name: seq<string>)
    requires |pat| > 1 && pat[0] == STARS && pat[1] == STARS
    ensures Matches(seg, pat, name) <==> Matches(seg, pat[1..], name)
  {
    StarsFirst(seg, pat, name);
    forall i | 0 <= i <= |name|
      ensures Matches(seg, pat[1..], name[i..])
         <==> exists j :: 0 <= j <= |name[i..]| && Matches(seg, pat[2..], name[i..][j..])
    {
      assert pat[1..][1..] == pat[2..];
      StarsFirst(seg, pat[1..], name[i..]);
    }
    assert name[0..] == name;
    if i :| 0 <= i <= |name| && Matches(seg, pat[1..], name[i..]) {
      var j :| 0 <= j <= |name[i..]| && Matches(seg, pat[2..], name[i..][j..]);
      assert name[i..][j..] == name[i + j..] == name[0..][i + j..];
      assert Matches(seg, pat[1..], name[0..]);
    }
  }

  lemma ConsecutiveStars(seg: SegmentMatch, p: seq<string>, q: seq<string>, name: seq<string>)
    ensures Matches(seg, p + [STARS, STARS] + q, name) <==> Matches(seg, p + [STARS] + q, name)
  {
    assert p + [STARS, STARS] + q == p + ([STARS, STARS] + q);
    assert p + [STARS] + q == p + ([STARS] + q);
    ConcatLaw(seg, p, [STARS, STARS] + q, name);
    ConcatLaw(seg, p, [STARS] + q, name);
    forall i | 0 <= i <= |name|
      ensures Matches(seg, [STARS, STARS] + q, name[i..]) <==> Matches(seg, [STARS] + q, name[i..])
    {
      assert ([STARS, STARS] + q)[1..] == [STARS] + q;
      ConsecutiveStarsFirst(seg, [STARS, STARS] + q, name[i..]);
    }
  }

  /** `**` may stand for nothing: P/`**`/Q matches whatever P/Q matches. */
  lemma StarsMayBeEmpty(seg: SegmentMatch, p: seq<string>, q: seq<string>, name: seq<string>)
    requires Matches(seg, p + q, name)
    ensures Matches(seg, p + [STARS] + q, name)
  {
    ConcatLaw(seg, p, q, name);
    var i :| 0 <= i <= |name| && Matches(seg, p, name[..i]) && Matches(seg, q, name[i..]);
    assert ([STARS] + q)[1..] == q && name[i..][0..] == name[i..];
    StarsFirst(seg, [STARS] + q, name[i..]);
    ConcatLaw(seg, p, [STARS] + q, name);
    assert p + [STARS] + q == p + ([STARS] + q);
  }

  /** The documented use, `**`/X: some file at any depth, zero included, whose
      last segment matches X. */
  lemma AnyDepth(seg: SegmentMatch, p: string, name: seq<string>)
    requires p != STARS
    ensures Matches(seg, [STARS, p], name) <==> |name| > 0 && seg(p, name[|name| - 1])
  {
    assert [STARS, p][1..] == [p];
    StarsFirst(seg, [STARS, p], name);
    forall i | 0 <= i <= |name|
      ensures Matches(seg, [p], name[i..]) <==> |name| - i == 1 && seg(p, name[i])
    {
      OneSegment(seg, p, name[i..]);
    }
    if |name| > 0 && seg(p, name[|name| - 1]) {
      assert Matches(seg, [p], name[|name| - 1..]);
    }
  }

  /** matchDoubleStar: the recursion on suffixes inside the loop over segments
      decides exactly the declarative meaning, and the two terminate together. */
  method MatchDoubleStar(seg: SegmentMatch, pattern: seq<string>, fullName: seq<string>) returns (ok: bool)
    ensures ok <==> Matches(seg, pattern, fullName)
    decreases |pattern|
  {
    var pat, name := pattern, fullName;
    while |pat| > 0
      invariant |pat| <= |pattern|
      invariant Matches(seg, pat, name) <==> Matches(seg, pattern, fullName)
      decreases |pat|
    {
      if pat[0] == STARS {
        ghost var starred := pat;
        while |pat| > 0 && pat[0] == STARS
          invariant |pat| < |starred| || pat == starred
          invariant pat == starred || (Matches(seg, [STARS] + pat, name) <==> Matches(seg, starred, name))
          decreases |pat|
        {
          if pat != starred {
            assert ([STARS] + pat)[1..] == pat;
            ConsecutiveStarsFirst(seg, [STARS] + pat, name);
          }
          assert pat == [STARS] + pat[1..];
          pat := pat[1..];
        }
        assert ([STARS] + pat)[1..] == pat;
        if |pat| == 0 {
          assert [STARS] + pat == [STARS];
          StarsMatchAnything(seg, name);
          return true;
        }
        StarsFirst(seg, [STARS] + pat, name);
        for i := 0 to |name| + 1
          invariant forall j :: 0 <= j < i && j <= |name| ==> !Matches(seg, pat, name[j..])
        {
          var found := MatchDoubleStar(seg, pat, name[i..]);
          if found {
            return true;
          }
        }
        return false;
      }
      SegmentFirst(seg, pat, name);
      if |name| == 0 {
        return false;
      }
      if !seg(pat[0], name[0]) {
        return false;
      }
      pat, name := pat[1..], name[1..];
    }
    EmptyPattern(seg, name);
    return |name| == 0;
  }

  /** matchGlob: without `**` the whole pattern goes to path.Match, against the
      full path when the pattern has a slash and against the base name when it
      has none; otherwise both sides are split at the slashes. */
  method MatchGlob(pathMatch: SegmentMatch, pattern: string, name: string) returns (ok: bool)
    ensures !Contains(pattern, STARS) && '/' in pattern ==> ok == pathMatch(pattern, name)
    ensures !Contains(pattern, STARS) && '/' !in pattern ==> ok == pathMatch(pattern, Base(name))
    ensures Contains(pattern, STARS) ==> ok == Matches(pathMatch, Split(pattern, '/'), Split(name, '/'))
  {
    if !Contains(pattern, STARS) {
      if '/' in pattern {
        return pathMatch(pattern, name);
      }
      return pathMatch(pattern, Base(name));
    }
    ok := MatchDoubleStar(pathMatch, Split(pattern, '/'), Split(name, '/'));
  }
}
