/**
 Go's `path.Join`, `path.Clean` and `path.Base`, and why joining plain elements loses nothing.
 */
module Paths {
  import opened Text

  /** One element of a path: what a name, a component or a distribution has to be. */
  predicate Plain(s: string) {
    s != "" && '/' !in s && s != "." && s != ".."
  }

  /** Clean's walk over the segments of a path; done is the cleaned path so far. */
  function CleanSegments(segments: seq<string>, done: seq<string>, rooted: bool): seq<string> {
    if segments == [] then done
    else
      var s, rest := segments[0], segments[1..];
      if s == "" || s == "." then CleanSegments(rest, done, rooted)
      else if s == ".." then
        if done != [] && done[|done| - 1] != ".." then CleanSegments(rest, done[..|done| - 1], rooted)
        else if rooted then CleanSegments(rest, done, rooted)
        else CleanSegments(rest, done + [s], rooted)
      else CleanSegments(rest, done + [s], rooted)
  }

  function Clean(path: string): string {
    if path == "" then "."
    else
      var rooted := path[0] == '/';
      var cleaned := Join(CleanSegments(Split(path, '/'), [], rooted), '/');
      if rooted then "/" + cleaned else if cleaned == "" then "." else cleaned
  }

  function SkipEmpty(elems: seq<string>): seq<string> {
    if elems != [] && elems[0] == "" then SkipEmpty(elems[1..]) else elems
  }

  function PathJoin(elems: seq<string>): string {
    var es := SkipEmpty(elems);
    if es == [] then "" else Clean(Join(es, '/'))
  }

  function TrimSlashes(path: string): string {
    if path != "" && path[|path| - 1] == '/' then TrimSlashes(path[..|path| - 1]) else path
  }

  function Base(path: string): string {
    if path == "" then "."
    else
      var p := TrimSlashes(path);
      if p == "" then "/" else p[LastIndexByte(p, '/') + 1..]
  }

  ghost predicate AllPlain(elems: seq<string>) {
    forall i :: 0 <= i < |elems| ==> Plain(elems[i])
  }

  lemma {:induction false} CleanPlain(segments: seq<string>, done: seq<string>, rooted: bool)
    requires AllPlain(segments)
    ensures CleanSegments(segments, done, rooted) == done + segments
    decreases |segments|
  {
    if segments == [] {
      assert done + segments == done;
    } else {
      CleanPlain(segments[1..], done + [segments[0]], rooted);
      assert Plain(segments[0]);
      assert (done + [segments[0]]) + segments[1..] == done + segments;
    }
  }

  lemma JoinNotEmpty(elems: seq<string>)
    requires elems != [] && elems[0] != ""
    ensures Join(elems, '/') != "" && Join(elems, '/')[0] == elems[0][0]
  {
  }

  /** Joining plain elements is putting slashes between them. */
  lemma JoinPlain(elems: seq<string>)
    requires elems != [] && AllPlain(elems)
    ensures PathJoin(elems) == Join(elems, '/')
  {
    assert Plain(elems[0]);
    assert SkipEmpty(elems) == elems;
    hide Join, Split, CleanSegments;
    SplitJoin(elems, '/');
    CleanPlain(elems, [], false);
    JoinNotEmpty(elems);
    assert [] + elems == elems;
    var path := Join(elems, '/');
    assert path[0] != '/';
  }

  /** Paths of plain elements are equal only when their elements are. */
  lemma JoinInjective(x: seq<string>, y: seq<string>)
    requires x != [] && y != [] && AllPlain(x) && AllPlain(y)
    requires Join(x, '/') == Join(y, '/')
    ensures x == y
  {
    hide Join, Split;
    SplitJoin(x, '/');
    SplitJoin(y, '/');
  }

  lemma JoinOne(s: string)
    ensures Join([s], '/') == s
  {
  }

  lemma {:induction false} JoinConcat(x: seq<string>, y: seq<string>)
    requires x != [] && y != []
    ensures Join(x + y, '/') == Join(x, '/') + "/" + Join(y, '/')
  {
    if |x| == 1 {
      assert (x + y)[0] == x[0] && (x + y)[1..] == y;
    } else {
      JoinConcat(x[1..], y);
      assert (x + y)[1..] == x[1..] + y;
    }
  }

  lemma ThreeJoined(x: string, y: string, z: string)
    ensures Join([x, y, z], '/') == x + "/" + y + "/" + z
  {
    assert [x, y, z][1..] == [y, z] && [y, z][1..] == [z];
    assert Join([y, z], '/') == y + ['/'] + z;
    Assoc(x + "/", y + "/", z);
    assert Join([x, y, z], '/') == (x + ['/']) + (y + ['/'] + z);
  }

  lemma FiveJoined(v: string, w: string, x: string, y: string, z: string)
    ensures Join([v, w, x, y, z], '/') == v + "/" + w + "/" + x + "/" + y + "/" + z
  {
    hide Join;
    JoinConcat([v, w, x], [y, z]);
    assert [v, w, x] + [y, z] == [v, w, x, y, z];
    ThreeJoined(v, w, x);
    JoinConcat([y], [z]);
    JoinOne(y);
    JoinOne(z);
    assert [y] + [z] == [y, z];
    Assoc(v + "/" + w + "/" + x + "/", y + "/", z);
  }

  /** What one element does to the path so far. */
  lemma CleanStep(s: string, rest: seq<string>, done: seq<string>, rooted: bool)
    ensures CleanSegments([s] + rest, done, rooted) ==
            if s == "" || s == "." then CleanSegments(rest, done, rooted)
            else if s != ".." then CleanSegments(rest, done + [s], rooted)
            else if done != [] && done[|done| - 1] != ".." then CleanSegments(rest, done[..|done| - 1], rooted)
            else if rooted then CleanSegments(rest, done, rooted)
            else CleanSegments(rest, done + [".."], rooted)
  {
    assert ([s] + rest)[1..] == rest;
  }

  /** A plain element and the ".." after it cancel. */
  lemma {:induction false} DotDotCancels(before: seq<string>, x: string, after: seq<string>, done: seq<string>,
                                         rooted: bool)
    requires AllPlain(before) && Plain(x)
    ensures CleanSegments(before + [x, ".."] + after, done, rooted) == CleanSegments(before + after, done, rooted)
    decreases |before|
  {
    hide CleanSegments;
    var all := before + [x, ".."] + after;
    if before == [] {
      CleanStep(x, [".."] + after, done, rooted);
      CleanStep("..", after, done + [x], rooted);
      assert all == [x] + ([".."] + after) && before + after == after && (done + [x])[..|done|] == done;
    } else {
      var y, rest := before[0], before[1..];
      assert Plain(y);
      DotDotCancels(rest, x, after, done + [y], rooted);
      CleanStep(y, rest + [x, ".."] + after, done, rooted);
      CleanStep(y, rest + after, done, rooted);
      assert all == [y] + (rest + [x, ".."] + after) && before + after == [y] + (rest + after);
    }
  }

  /** "." and empty elements count for nothing. */
  lemma {:induction false} DotsDropped(before: seq<string>, e: string, after: seq<string>, done: seq<string>,
                                       rooted: bool)
    requires AllPlain(before) && (e == "." || e == "")
    ensures CleanSegments(before + [e] + after, done, rooted) == CleanSegments(before + after, done, rooted)
    decreases |before|
  {
    var all := before + [e] + after;
    if before == [] {
      assert all[0] == e && all[1..] == after && before + after == after;
    } else {
      DotsDropped(before[1..], e, after, done + [before[0]], rooted);
      assert all[1..] == before[1..] + [e] + after && (before + after)[1..] == before[1..] + after;
      assert all[0] == before[0] && Plain(before[0]);
    }
  }

  /** Nothing is above the root, and what is above a relative path stays in front of it. */
  lemma CleanAbove(segments: seq<string>, done: seq<string>)
    requires done == [] || done[|done| - 1] == ".."
    ensures CleanSegments([".."] + segments, [], true) == CleanSegments(segments, [], true)
    ensures CleanSegments([".."] + segments, done, false) == CleanSegments(segments, done + [".."], false)
  {
    assert ([".."] + segments)[1..] == segments;
  }

  lemma TrimSlashesId(path: string)
    requires path != "" && path[|path| - 1] != '/'
    ensures TrimSlashes(path) == path
  {
  }

  /** The base of a path is what follows its last slash. */
  lemma BaseOf(dir: string, last: string)
    requires last != "" && '/' !in last
    ensures Base(dir + "/" + last) == last
  {
    var path := dir + "/" + last;
    assert path[|path| - 1] == last[|last| - 1];
    TrimSlashesId(path);
    var k := LastIndexByte(path, '/');
    assert path[|dir|] == '/';
    assert '/' in path;
    assert path[k + 1..] == last by {
      assert path == path[..k] + ['/'] + path[k + 1..];
      CutLastInjective(path[..k], path[k + 1..], dir, last, '/');
    }
  }
}
