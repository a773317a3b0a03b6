/** Which paths match a route pattern, said without following them (src/stdlib/stdlib_net.c,
    route_match_with_params). */
module RouteMatches {
  import opened CText
  import opened Options
  import opened Routes

  /** The values have no slashes, and wherever `front` has a parameter the path is not yet used up:
      a value is empty only when something comes after it. */
  predicate Feeds(front: string, values: seq<string>, left: string)
    requires |values| == |Names(front)|
    decreases |front|
  {
    if front == "" then true
    else if front[0] == ':' then
      assert |AfterSegment(front[1..])| <= |front[1..]|;
      && '/' !in values[0] && Substitute(front, values) + left != ""
      && Feeds(AfterSegment(front[1..]), values[1..], left)
    else Feeds(front[1..], values, left)
  }

  lemma {:induction false} ParameterParts(front: string, rest: string, values: seq<string>, left: string)
    requires front != "" && front[0] == ':' && |values| == |Names(front)| && '/' !in values[0]
    requires AtEnd(rest) && AtEnd(left)
    ensures var (name, more) := (Segment(front[1..]), AfterSegment(front[1..]));
      var path := Substitute(front, values) + left;
      && Segment((front + rest)[1..]) == name && AfterSegment((front + rest)[1..]) == more + rest
      && Segment(path) == values[0] && AfterSegment(path) == Substitute(more, values[1..]) + left
  {
    hide Segment, AfterSegment;
    var (name, more) := (Segment(front[1..]), AfterSegment(front[1..]));
    var tail := Substitute(more, values[1..]);
    assert Substitute(front, values) == values[0] + tail;
    SubstituteEnds(more, values[1..]);
    hide Substitute, Names;
    assert (front + rest)[1..] == name + (more + rest);
    SegmentThen(name, more + rest);
    assert Substitute(front, values) + left == values[0] + (tail + left);
    SegmentThen(values[0], tail + left);
  }

  /** Following `front` and what comes after it along the path made from `front`. */
  lemma {:induction false} FedFollows(front: string, rest: string, values: seq<string>, left: string)
    requires |values| == |Names(front)| && Feeds(front, values, left)
    requires AtEnd(rest) && AtEnd(left) && (rest == "" || left == "")
    ensures Follow(front + rest, Substitute(front, values) + left)
         == Some(Walked(Zip(Names(front), values), rest, left))
    decreases |front|
  {
    hide Segment, AfterSegment, Zip, AtEnd;
    var path := Substitute(front, values) + left;
    if front == "" {
      assert front + rest == rest && path == left;
      EmptyZip();
    } else if front[0] == ':' {
      var more := AfterSegment(front[1..]);
      ParameterParts(front, rest, values, left);
      FedFollows(more, rest, values[1..], left);
      ZipCons(Names(front), values);
      assert Names(front)[1..] == Names(more);
    } else {
      assert (front + rest)[1..] == front[1..] + rest;
      assert path[1..] == Substitute(front[1..], values) + left;
      FedFollows(front[1..], rest, values, left);
    }
  }

  /** What was followed was fed. */
  lemma {:induction false} FollowedIsFed(pattern: string, path: string, front: string)
    requires Follow(pattern, path).Some? && Rebuilds(pattern, path, front, Follow(pattern, path).value)
    ensures Feeds(front, ValuesOf(Follow(pattern, path).value.params), Follow(pattern, path).value.path)
    decreases |pattern|
  {
    var r := Follow(pattern, path).value;
    if front != "" {
      assert path != "" && pattern[0] == front[0];
      if pattern[0] == ':' {
        ParameterIsFed(pattern, path, front);
      } else {
        var front' := FollowRebuilds(pattern[1..], path[1..]);
        assert front == [pattern[0]] + front' by {
          assert pattern == [pattern[0]] + (front' + r.pattern);
          SameFront(pattern, front, [pattern[0]] + front', r.pattern);
        }
        assert front[1..] == front';
        FollowedIsFed(pattern[1..], path[1..], front');
      }
    }
  }

  lemma {:induction false} SameFront(s: string, a: string, b: string, rest: string)
    requires s == a + rest == b + rest
    ensures a == b
  {
    assert |a| == |b|;
    assert a == s[..|a|] && b == s[..|b|];
  }

  lemma {:induction false} ParameterIsFed(pattern: string, path: string, front: string)
    requires pattern != "" && path != "" && pattern[0] == ':' && front != ""
    requires Follow(pattern, path).Some? && Rebuilds(pattern, path, front, Follow(pattern, path).value)
    ensures Feeds(front, ValuesOf(Follow(pattern, path).value.params), Follow(pattern, path).value.path)
    decreases |pattern|, 0
  {
    hide Segment, AfterSegment;
    var (rest, r) := (pattern[1..], Follow(pattern, path).value);
    var (name, more, tail) := (Segment(rest), AfterSegment(rest), AfterSegment(path));
    var r' := Follow(more, tail).value;
    var front' := FollowRebuilds(more, tail);
    assert front == [':'] + name + front' by {
      assert pattern == [':'] + name + front' + r.pattern;
      SameFront(pattern, front, [':'] + name + front', r.pattern);
    }
    assert front[1..] == name + front';
    assert AtEnd(front');
    SegmentThen(name, front');
    ValuesCons(Param(name, Segment(path)), r'.params);
    FollowedIsFed(more, tail, front');
  }

  /** `r` says how far `pattern` and `path` agree: `front` is used up of the pattern, and the path is
      `front` with the captured values in place of its parameters; what is left over starts with a
      slash and belongs to one side only. */
  ghost predicate Explains(pattern: string, path: string, front: string, r: Walked) {
    && pattern == front + r.pattern
    && NamesOf(r.params) == Names(front)
    && path == Substitute(front, ValuesOf(r.params)) + r.path
    && Feeds(front, ValuesOf(r.params), r.path)
    && AtEnd(r.pattern) && AtEnd(r.path) && (r.pattern == "" || r.path == "")
  }

  /** A path matches with a result exactly when some front of the pattern explains it. */
  lemma {:induction false} MatchIff(pattern: string, path: string, r: Walked)
    ensures Match(pattern, path) == Some(r) <==> exists front :: Explains(pattern, path, front, r)
  {
    if Match(pattern, path) == Some(r) {
      var front := MatchRebuilds(pattern, path);
      FollowedIsFed(pattern, path, front);
      assert Explains(pattern, path, front, r);
    }
    if front :| Explains(pattern, path, front, r) {
      FedFollows(front, r.pattern, ValuesOf(r.params), r.path);
      Unzipped(r.params);
    }
  }

  lemma {:induction false} Unzipped(params: seq<Param>)
    ensures Zip(NamesOf(params), ValuesOf(params)) == params
  {
  }
}
