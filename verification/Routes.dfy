/** Matching request paths against route patterns with `:name` parts (src/stdlib/stdlib_net.c,
    route_match_with_params). A match follows pattern and path together until one of them ends;
    the theorems relate it to the inverse operation, putting values in for the parameters of a
    pattern. */
module Routes {
  import opened CText
  import opened Options

  datatype Param = Param(name: string, value: string)

  /** How far the pattern and the path were followed, and what was captured. */
  datatype Walked = Walked(params: seq<Param>, pattern: string, path: string)

  /** The part of `s` before its first slash. */
  function Segment(s: string): (r: string)
    ensures '/' !in r
  {
    s[..IndexOf(s, '/')]
  }

  function AfterSegment(s: string): (r: string)
    ensures s == Segment(s) + r && (r == "" || r[0] == '/')
  {
    s[IndexOf(s, '/')..]
  }

  /** Follows pattern and path together: a parameter takes a segment, anything else must be
      equal, until one of them ends. Nothing when they differ. */
  function Follow(pattern: string, path: string): (r: Option<Walked>)
    decreases |pattern|
  {
    if pattern == "" || path == "" then Some(Walked([], pattern, path))
    else if pattern[0] == ':' then
      var rest := pattern[1..];
      assert |AfterSegment(rest)| <= |rest|;
      var r := Follow(AfterSegment(rest), AfterSegment(path));
      if r.None? then None
      else Some(r.value.(params := [Param(Segment(rest), Segment(path))] + r.value.params))
    else if pattern[0] == path[0] then Follow(pattern[1..], path[1..])
    else None
  }

  predicate AtEnd(s: string) {
    s == "" || s[0] == '/'
  }

  /** A match: what is left of the pattern and of the path starts with a slash, if anything is. */
  function Match(pattern: string, path: string): Option<Walked> {
    var r := Follow(pattern, path);
    if r.Some? && AtEnd(r.value.pattern) && AtEnd(r.value.path) then r else None
  }

  /** The names of the parameters of a pattern. */
  function Names(pattern: string): seq<string>
    decreases |pattern|
  {
    if pattern == "" then []
    else if pattern[0] == ':' then
      assert |AfterSegment(pattern[1..])| <= |pattern[1..]|;
      [Segment(pattern[1..])] + Names(AfterSegment(pattern[1..]))
    else Names(pattern[1..])
  }

  /** The pattern with its parameters replaced by the values in turn. */
  function Substitute(pattern: string, values: seq<string>): string
    requires |values| == |Names(pattern)|
    decreases |pattern|
  {
    if pattern == "" then ""
    else if pattern[0] == ':' then
      assert |AfterSegment(pattern[1..])| <= |pattern[1..]|;
      values[0] + Substitute(AfterSegment(pattern[1..]), values[1..])
    else [pattern[0]] + Substitute(pattern[1..], values)
  }

  function Zip(names: seq<string>, values: seq<string>): (r: seq<Param>)
    requires |names| == |values|
    ensures |r| == |names|
  {
    seq(|names|, i requires 0 <= i < |names| => Param(names[i], values[i]))
  }

  function ValuesOf(params: seq<Param>): (r: seq<string>)
    ensures |r| == |params|
  {
    seq(|params|, i requires 0 <= i < |params| => params[i].value)
  }

  function NamesOf(params: seq<Param>): (r: seq<string>)
    ensures |r| == |params|
  {
    seq(|params|, i requires 0 <= i < |params| => params[i].name)
  }

  predicate GoodValue(v: string) {
    v != "" && '/' !in v
  }

  // ---------- Substituting and matching ----------

  lemma {:induction false} SegmentThen(v: string, tail: string)
    requires '/' !in v && AtEnd(tail)
    ensures Segment(v + tail) == v && AfterSegment(v + tail) == tail
  {
    IndexOfIs(v, '/', tail);
  }

  /** What follows a parameter in a substituted pattern starts with a slash, if anything. */
  lemma {:induction false} SubstituteEnds(pattern: string, values: seq<string>)
    requires |values| == |Names(pattern)| && AtEnd(pattern)
    ensures AtEnd(Substitute(pattern, values))
  {
  }

  lemma {:induction false} ZipCons(names: seq<string>, values: seq<string>)
    requires |names| == |values| > 0
    ensures Zip(names, values) == [Param(names[0], values[0])] + Zip(names[1..], values[1..])
  {
  }

  /** A path made from a pattern and non-empty, slash-free values matches it, to the end of
      both, and captures exactly those names and values in order. */
  lemma {:induction false} SubstitutedMatches(pattern: string, values: seq<string>)
    requires |values| == |Names(pattern)| && forall i :: 0 <= i < |values| ==> GoodValue(values[i])
    ensures Match(pattern, Substitute(pattern, values)) == Some(Walked(Zip(Names(pattern), values), "", ""))
    decreases |pattern|
  {
    hide Segment, AfterSegment, Zip;
    if pattern == "" {
      assert Zip([], []) == [] by { EmptyZip(); }
    } else if pattern[0] == ':' {
      var rest := pattern[1..];
      var more := AfterSegment(rest);
      var tail := Substitute(more, values[1..]);
      assert GoodValue(values[0]);
      SubstitutedMatches(more, values[1..]);
      SubstituteEnds(more, values[1..]);
      SegmentThen(values[0], tail);
      ZipCons(Names(pattern), values);
      assert Names(pattern)[1..] == Names(more);
    } else {
      var path := Substitute(pattern, values);
      assert path[1..] == Substitute(pattern[1..], values);
      SubstitutedMatches(pattern[1..], values);
    }
  }

  lemma {:induction false} EmptyZip()
    ensures Zip([], []) == []
  {
  }

  lemma {:induction false} ValuesCons(p: Param, params: seq<Param>)
    ensures ValuesOf([p] + params)[0] == p.value && ValuesOf([p] + params)[1..] == ValuesOf(params)
    ensures NamesOf([p] + params) == [p.name] + NamesOf(params)
  {
  }

  /** `front` is what following `pattern` along `path` used up of the pattern. */
  ghost predicate Rebuilds(pattern: string, path: string, front: string, r: Walked) {
    && pattern == front + r.pattern
    && NamesOf(r.params) == Names(front)
    && path == Substitute(front, ValuesOf(r.params)) + r.path
    && forall v :: v in ValuesOf(r.params) ==> '/' !in v
  }

  lemma {:induction false} NamesOfParameter(name: string, tail: string, v: string, vs: seq<string>)
    requires '/' !in name && AtEnd(tail)
    ensures Names([':'] + name + tail) == [name] + Names(tail)
    ensures |vs| == |Names(tail)| ==> Substitute([':'] + name + tail, [v] + vs) == v + Substitute(tail, vs)
  {
    hide Segment, AfterSegment;
    assert ([':'] + name + tail)[1..] == name + tail;
    SegmentThen(name, tail);
    assert ([v] + vs)[1..] == vs;
  }

  lemma {:induction false} NamesOfLiteral(c: char, tail: string, vs: seq<string>)
    requires c != ':'
    ensures Names([c] + tail) == Names(tail)
    ensures |vs| == |Names(tail)| ==> Substitute([c] + tail, vs) == [c] + Substitute(tail, vs)
  {
    assert ([c] + tail)[1..] == tail;
  }

  lemma {:induction false} Regroup(a: string, b: string, c: string)
    ensures a + (b + c) == (a + b) + c
  {
  }

  lemma {:induction false} RebuildLiteral(c: char, pattern: string, path: string, front: string, r: Walked)
    requires c != ':' && Rebuilds(pattern, path, front, r)
    ensures Rebuilds([c] + pattern, [c] + path, [c] + front, r)
  {
    hide Names, Substitute, NamesOf, ValuesOf;
    var values := ValuesOf(r.params);
    NamesOfLiteral(c, front, values);
    Regroup([c], front, r.pattern);
    Regroup([c], Substitute(front, values), r.path);
  }

  lemma {:induction false} RebuildParameter(name: string, value: string, pattern: string, path: string,
          front: string, r: Walked)
    requires '/' !in name && '/' !in value && AtEnd(pattern) && Rebuilds(pattern, path, front, r)
    ensures Rebuilds([':'] + name + pattern, value + path, [':'] + name + front,
                     r.(params := [Param(name, value)] + r.params))
  {
    hide Names, Substitute, NamesOf, ValuesOf;
    var values := ValuesOf(r.params);
    NamesOfParameter(name, front, value, values);
    ValuesCons(Param(name, value), r.params);
    assert ValuesOf([Param(name, value)] + r.params) == [value] + values;
    Regroup(value, Substitute(front, values), r.path);
    Regroup([':'] + name, front, r.pattern);
  }

  /** Following uses up a front of the pattern, and the path is that front with the captured
      values put in, and what is left of the path. */
  lemma {:induction false} FollowRebuilds(pattern: string, path: string) returns (front: string)
    requires Follow(pattern, path).Some?
    ensures Rebuilds(pattern, path, front, Follow(pattern, path).value)
    decreases |pattern|
  {
    if pattern == "" || path == "" {
      front := "";
    } else if pattern[0] == ':' {
      front := FollowParameter(pattern, path);
    } else {
      hide Rebuilds;
      front := FollowRebuilds(pattern[1..], path[1..]);
      RebuildLiteral(pattern[0], pattern[1..], path[1..], front, Follow(pattern, path).value);
      front := [pattern[0]] + front;
      Headed(pattern);
      Headed(path);
    }
  }

  lemma {:induction false} Headed(s: string)
    requires s != ""
    ensures s == [s[0]] + s[1..]
  {
  }

  lemma {:induction false} FollowParameter(pattern: string, path: string) returns (front: string)
    requires pattern != "" && path != "" && pattern[0] == ':' && Follow(pattern, path).Some?
    ensures Rebuilds(pattern, path, front, Follow(pattern, path).value)
    decreases |pattern|, 0
  {
    hide Segment, AfterSegment, Rebuilds;
    var rest := pattern[1..];
    var name, more := Segment(rest), AfterSegment(rest);
    var value, tail := Segment(path), AfterSegment(path);
    front := FollowRebuilds(more, tail);
    RebuildParameter(name, value, more, tail, front, Follow(more, tail).value);
    front := [':'] + name + front;
    Headed(pattern);
    Regroup([':'], name, more);
  }

  /** On a match the captured values, put back into the part of the pattern that was used,
      rebuild the part of the path that was used; what is left of either starts with a slash. */
  lemma {:induction false} MatchRebuilds(pattern: string, path: string) returns (front: string)
    requires Match(pattern, path).Some?
    ensures var r := Match(pattern, path).value;
      && Rebuilds(pattern, path, front, r)
      && AtEnd(r.path) && AtEnd(r.pattern) && (r.path == "" || r.pattern == "")
  {
    front := FollowRebuilds(pattern, path);
    OneSideEnds(pattern, path);
  }

  lemma {:induction false} OneSideEnds(pattern: string, path: string)
    requires Follow(pattern, path).Some?
    ensures var r := Follow(pattern, path).value; r.path == "" || r.pattern == ""
    decreases |pattern|
  {
    if pattern != "" && path != "" {
      if pattern[0] == ':' {
        assert |AfterSegment(pattern[1..])| <= |pattern[1..]|;
        OneSideEnds(AfterSegment(pattern[1..]), AfterSegment(path));
      } else {
        OneSideEnds(pattern[1..], path[1..]);
      }
    }
  }

  // ---------- When every parameter gets a value ----------

  function Slashes(s: string): nat {
    if s == "" then 0 else (if s[0] == '/' then 1 else 0) + Slashes(s[1..])
  }

  /** The slashes of a pattern in front of its last colon. */
  function Needed(pattern: string): nat {
    if pattern == "" || ':' !in pattern[1..] then 0
    else (if pattern[0] == '/' then 1 else 0) + Needed(pattern[1..])
  }

  lemma {:induction false} SlashesConcat(s: string, t: string)
    ensures Slashes(s + t) == Slashes(s) + Slashes(t)
  {
    if s == "" {
      assert s + t == t;
    } else {
      assert (s + t)[1..] == s[1..] + t;
      SlashesConcat(s[1..], t);
    }
  }

  lemma {:induction false} NoSlashes(s: string)
    requires '/' !in s
    ensures Slashes(s) == 0
  {
    if s != "" { NoSlashes(s[1..]); }
  }

  lemma {:induction false} NamesConcat(front: string, tail: string)
    requires AtEnd(tail)
    ensures Names(front + tail) == Names(front) + Names(tail)
    decreases |front|
  {
    hide Segment, AfterSegment;
    if front == "" {
      assert front + tail == tail;
    } else if front[0] == ':' {
      var rest := front[1..];
      var name, more := Segment(rest), AfterSegment(rest);
      NamesConcat(more, tail);
      NamesOfParameter(name, more + tail, "", []);
      assert front + tail == [':'] + name + (more + tail);
    } else {
      NamesConcat(front[1..], tail);
      assert (front + tail)[1..] == front[1..] + tail;
    }
  }

  lemma {:induction false} NamedByColons(pattern: string)
    ensures Names(pattern) == [] <==> ':' !in pattern
    decreases |pattern|
  {
    if pattern != "" && pattern[0] != ':' { NamedByColons(pattern[1..]); }
  }

  /** Values without slashes leave a path with the slashes of its pattern. */
  lemma {:induction false} SubstituteSlashes(pattern: string, values: seq<string>)
    requires |values| == |Names(pattern)| && forall v :: v in values ==> '/' !in v
    ensures Slashes(Substitute(pattern, values)) == Slashes(pattern)
    decreases |pattern|
  {
    hide Segment, AfterSegment;
    if pattern == "" {
    } else if pattern[0] == ':' {
      var rest := pattern[1..];
      var name, more := Segment(rest), AfterSegment(rest);
      SubstituteSlashes(more, values[1..]);
      NoSlashes(name);
      NoSlashes(values[0]);
      SlashesConcat(values[0], Substitute(more, values[1..]));
      SlashesConcat(name, more);
    } else {
      SubstituteSlashes(pattern[1..], values);
      assert Substitute(pattern, values)[1..] == Substitute(pattern[1..], values);
    }
  }

  lemma {:induction false} NeededUpTo(front: string, tail: string)
    requires AtEnd(tail)
    ensures if ':' in tail then Needed(front + tail) > Slashes(front) else Needed(front + tail) <= Slashes(front)
  {
    if front == "" {
      assert front + tail == tail;
      if ':' in tail { assert tail == ['/'] + tail[1..]; }
    } else {
      assert (front + tail)[1..] == front[1..] + tail;
      NeededUpTo(front[1..], tail);
    }
  }

  /** A match gives values to the first parameters of its pattern, in order, and to all of them
      if and only if the path has a slash for each slash before the pattern's last colon. */
  lemma {:induction false} AllParametersBound(pattern: string, path: string)
    requires Match(pattern, path).Some?
    ensures var names := NamesOf(Match(pattern, path).value.params);
      names <= Names(pattern) && (names == Names(pattern) <==> Slashes(path) >= Needed(pattern))
  {
    hide Follow, Names, Substitute, Needed, Slashes, NamesOf, ValuesOf;
    var r := Match(pattern, path).value;
    var front := MatchRebuilds(pattern, path);
    var values := ValuesOf(r.params);
    NamesConcat(front, r.pattern);
    NamedByColons(r.pattern);
    SubstituteSlashes(front, values);
    SlashesConcat(Substitute(front, values), r.path);
    NeededUpTo(front, r.pattern);
    if r.path == "" { NoSlashes(r.path); }
  }

  /** A path that stops before a slash of the pattern: it matches all the same, and the
      parameter behind the slash stays without a value. */
  lemma {:induction false} ShortPathMatches(front: string, name: string)
    requires ':' !in front && '/' !in name
    ensures var pattern := front + (['/'] + ([':'] + name));
      Match(pattern, front) == Some(Walked([], ['/'] + ([':'] + name), "")) && Names(pattern) == [name]
  {
    var last := ['/'] + ([':'] + name);
    FollowLiteral(front, last);
    assert Follow(last, "") == Some(Walked([], last, ""));
    Literal('/', [':'] + name, "");
    NamesOfParameter(name, "", "", []);
    assert [':'] + name + "" == [':'] + name;
    assert [name] + Names("") == [name];
  }

  lemma {:induction false} FollowLiteral(front: string, pattern: string)
    requires ':' !in front
    ensures Follow(front + pattern, front) == Follow(pattern, "")
    ensures Names(front + pattern) == Names(pattern)
  {
    if front == "" {
      assert front + pattern == pattern;
    } else {
      hide Follow, Names;
      Literal(front[0], front[1..] + pattern, front[1..]);
      FollowLiteral(front[1..], pattern);
      Headed(front);
      Regroup([front[0]], front[1..], pattern);
    }
  }

  /** One literal character, alike on both sides. */
  lemma {:induction false} Literal(c: char, pattern: string, path: string)
    requires c != ':'
    ensures Follow([c] + pattern, [c] + path) == Follow(pattern, path)
    ensures Names([c] + pattern) == Names(pattern)
  {
    assert ([c] + pattern)[1..] == pattern && ([c] + path)[1..] == path;
  }

  // ---------- The matcher ----------

  method RouteMatch(pattern: string, path: string) returns (r: Option<Walked>)
    ensures r == Match(pattern, path)
  {
    hide Segment, AfterSegment;
    var params: seq<Param> := [];
    var p, u := pattern, path;
    PrefixedNothing(Follow(pattern, path));
    while p != "" && u != ""
      invariant Follow(pattern, path) == Prefixed(params, Follow(p, u))
      decreases |p|
    {
      if p[0] == ':' {
        var rest := p[1..];
        assert |AfterSegment(rest)| <= |rest|;
        var name, value := Segment(rest), Segment(u);
        PrefixedStep(params, Param(name, value), Follow(AfterSegment(rest), AfterSegment(u)));
        params := params + [Param(name, value)];
        p, u := AfterSegment(rest), AfterSegment(u);
      } else if p[0] == u[0] {
        p, u := p[1..], u[1..];
      } else {
        return None;
      }
    }
    assert params + [] == params;
    r := if AtEnd(p) && AtEnd(u) then Some(Walked(params, p, u)) else None;
  }

  function Prefixed(params: seq<Param>, r: Option<Walked>): Option<Walked> {
    if r.None? then None else Some(r.value.(params := params + r.value.params))
  }

  lemma {:induction false} PrefixedNothing(r: Option<Walked>)
    ensures Prefixed([], r) == r
  {
    if r.Some? { assert [] + r.value.params == r.value.params; }
  }

  lemma {:induction false} PrefixedStep(params: seq<Param>, p: Param, r: Option<Walked>)
    ensures Prefixed(params, Prefixed([p], r)) == Prefixed(params + [p], r)
  {
    if r.Some? { assert params + ([p] + r.value.params) == (params + [p]) + r.value.params; }
  }
}
