/** Matching a command path against a glob, whatever a single segment matches. */
module PathGlob {
  import opened Text

  /** Whether one pattern segment matches one path segment (`path.Match`). */
  type SegmentMatch = (string, string) -> bool

  const ANY_RUN := "**"

  /** The recursion of `matchCommandPath`. */
  predicate Match(one: SegmentMatch, pattern: seq<string>, path: seq<string>, p: nat, v: nat)
    requires p <= |pattern| && v <= |path|
    decreases |pattern| - p + |path| - v
  {
    if p == |pattern| then v == |path|
    else if pattern[p] == ANY_RUN then
      Match(one, pattern, path, p + 1, v) || (v < |path| && Match(one, pattern, path, p, v + 1))
    else v < |path| && one(pattern[p], path[v]) && Match(one, pattern, path, p + 1, v + 1)
  }

  /** `strings.Trim` of slashes, then a split at slashes. */
  function Segments(path: string): seq<string> { Split(TrimRight(TrimLeft(path, '/'), '/'), '/') }

  predicate MatchCommandPath(one: SegmentMatch, pattern: string, path: string) {
    Match(one, Segments(pattern), Segments(path), 0, 0)
  }

  /** Pattern segment `i` takes the path segments from `cuts[i]` to `cuts[i + 1]`: any run
      for `**`, exactly one that matches for any other. */
  predicate Takes(one: SegmentMatch, pattern: seq<string>, path: seq<string>, cuts: seq<nat>, i: nat)
    requires i < |pattern| && |cuts| == |pattern| + 1
  {
    && cuts[i] <= cuts[i + 1] <= |path|
    && (pattern[i] != ANY_RUN ==> cuts[i + 1] == cuts[i] + 1 && one(pattern[i], path[cuts[i]]))
  }

  /** The cuts hand out the whole path, from segment `v` and pattern segment `p` on. */
  predicate Assigns(one: SegmentMatch, pattern: seq<string>, path: seq<string>, cuts: seq<nat>, p: nat, v: nat)
    requires p <= |pattern|
  {
    && |cuts| == |pattern| + 1 && cuts[p] == v && cuts[|pattern|] == |path|
    && forall i :: p <= i < |pattern| ==> Takes(one, pattern, path, cuts, i)
  }

  lemma {:induction false} MatchGivesCuts(one: SegmentMatch, pattern: seq<string>, path: seq<string>, p: nat, v: nat)
    returns (cuts: seq<nat>)
    requires p <= |pattern| && v <= |path| && Match(one, pattern, path, p, v)
    ensures Assigns(one, pattern, path, cuts, p, v)
    decreases |pattern| - p + |path| - v
  {
    if p == |pattern| {
      cuts := seq(|pattern| + 1, _ => v);
    } else if pattern[p] == ANY_RUN && !Match(one, pattern, path, p + 1, v) {
      var later := MatchGivesCuts(one, pattern, path, p, v + 1);
      cuts := later[p := v];
      forall i | p <= i < |pattern| ensures Takes(one, pattern, path, cuts, i) {
        assert Takes(one, pattern, path, later, i);
      }
    } else {
      var next := if pattern[p] == ANY_RUN then v else v + 1;
      var later := MatchGivesCuts(one, pattern, path, p + 1, next);
      cuts := later[p := v];
      forall i | p <= i < |pattern| ensures Takes(one, pattern, path, cuts, i) {
        if i > p { assert Takes(one, pattern, path, later, i); }
      }
    }
  }

  lemma {:induction false} CutsGiveMatch(one: SegmentMatch, pattern: seq<string>, path: seq<string>, cuts: seq<nat>,
                                         p: nat, v: nat)
    requires p <= |pattern| && v <= |path| && Assigns(one, pattern, path, cuts, p, v)
    ensures Match(one, pattern, path, p, v)
    decreases |pattern| - p + |path| - v
  {
    if p < |pattern| {
      assert Takes(one, pattern, path, cuts, p);
      if pattern[p] == ANY_RUN && cuts[p + 1] > v {
        var shorter := cuts[p := v + 1];
        forall i | p <= i < |pattern| ensures Takes(one, pattern, path, shorter, i) {
          assert Takes(one, pattern, path, cuts, i);
        }
        CutsGiveMatch(one, pattern, path, shorter, p, v + 1);
      } else {
        CutsGiveMatch(one, pattern, path, cuts, p + 1, cuts[p + 1]);
      }
    }
  }

  /** A glob matches iff every `**` can be given a run of segments, possibly empty, so that
      every other pattern segment matches exactly one. */
  lemma MatchIffAssigned(one: SegmentMatch, pattern: seq<string>, path: seq<string>)
    ensures Match(one, pattern, path, 0, 0) <==> exists cuts :: Assigns(one, pattern, path, cuts, 0, 0)
  {
    if Match(one, pattern, path, 0, 0) {
      var cuts := MatchGivesCuts(one, pattern, path, 0, 0);
    }
    if cuts :| Assigns(one, pattern, path, cuts, 0, 0) {
      CutsGiveMatch(one, pattern, path, cuts, 0, 0);
    }
  }

  // ---------------------------------------------------------------- path texts

  predicate Slashes(s: string) { forall i :: 0 <= i < |s| ==> s[i] == '/' }

  /** Segments as they come out of a path: without slashes, the outer ones not empty. */
  predicate Parts(segments: seq<string>) {
    && segments != [] && segments[0] != "" && segments[|segments| - 1] != ""
    && forall i :: 0 <= i < |segments| ==> '/' !in segments[i]
  }

  lemma {:induction false} TrimsLeft(slashes: string, s: string)
    requires Slashes(slashes) && s != "" && s[0] != '/'
    ensures TrimLeft(slashes + s, '/') == s
  {
    var text := slashes + s;
    if slashes == "" {
      assert text == s;
    } else {
      assert text[1..] == slashes[1..] + s;
      TrimsLeft(slashes[1..], s);
    }
  }

  lemma {:induction false} TrimsRight(s: string, slashes: string)
    requires Slashes(slashes) && s != "" && s[|s| - 1] != '/'
    ensures TrimRight(s + slashes, '/') == s
  {
    var text := s + slashes;
    if slashes == "" {
      assert text == s;
    } else {
      assert text[..|text| - 1] == s + slashes[..|slashes| - 1];
      TrimsRight(s, slashes[..|slashes| - 1]);
    }
  }

  lemma {:induction false} JoinedEnds(segments: seq<string>)
    requires Parts(segments)
    ensures var s := Joined(segments, '/'); s != "" && s[0] != '/' && s[|s| - 1] != '/'
  {
    var last := segments[|segments| - 1];
    assert segments[0][0] in segments[0] && last[|last| - 1] in last;
    JoinedLast(segments);
  }

  lemma {:induction false} JoinedLast(segments: seq<string>)
    requires segments != [] && segments[|segments| - 1] != ""
    ensures var s, last := Joined(segments, '/'), segments[|segments| - 1];
            s != "" && s[|s| - 1] == last[|last| - 1]
    decreases |segments|
  {
    if |segments| > 1 { JoinedLast(segments[1..]); }
  }

  /** Slashes around a path do not count. */
  lemma SegmentsOfPath(before: string, segments: seq<string>, after: string)
    requires Slashes(before) && Parts(segments) && Slashes(after)
    ensures Segments(before + Joined(segments, '/') + after) == segments
  {
    hide Joined, Split, TrimLeft, TrimRight;
    var s := Joined(segments, '/');
    JoinedEnds(segments);
    assert before + s + after == before + (s + after);
    assert (s + after)[0] == s[0];
    TrimsLeft(before, s + after);
    TrimsRight(s, after);
    SplitOfJoined(segments, '/');
  }

  /** A written glob matches a written path, with any slashes around either, iff every `**`
      can be given a run of segments so that every other pattern segment matches one. */
  lemma PathMatches(one: SegmentMatch, pattern: seq<string>, path: seq<string>, a: string, b: string, c: string,
                    d: string)
    requires Parts(pattern) && Parts(path) && Slashes(a) && Slashes(b) && Slashes(c) && Slashes(d)
    ensures MatchCommandPath(one, a + Joined(pattern, '/') + b, c + Joined(path, '/') + d) <==>
            exists cuts :: Assigns(one, pattern, path, cuts, 0, 0)
  {
    hide Match, Segments, Assigns, Parts, Joined;
    SegmentsOfPath(a, pattern, b);
    SegmentsOfPath(c, path, d);
    MatchIffAssigned(one, pattern, path);
  }
}
