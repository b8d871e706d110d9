/**
 * The comment-line mini-language of the controller parser: the three regular
 * expressions of core/ctrl_parser.go written out as matchers that give the
 * same captures as Go's leftmost-first RE2 engine.
 *
 *   base path  `^//\s+@(BasePath)+[(]"(/.*)"[)]$`
 *   route      `^//\s+@(GET|POST|PUT|DELETE|HEAD|OPTIONS|PATCH)+[(]path="(/.*)"[)]`
 *   annotation `^//\s+(@[A-zA-z]+)\s*(->\s*(.*))*`
 *
 * RE2's `\s` is space, tab, newline, form feed and carriage return; `.` is
 * any character but a newline.
 */
module Annotations {
  import opened Wrappers

  /** RE2's `\s` class (the vertical tab is not in it). */
  predicate IsReSpace(c: char)
  {
    c == ' ' || c == '\t' || c == '\n' || c == '\r' || c as int == 0x0C
  }

  /** Length of the longest prefix of `s` in the `\s` class. */
  function SpaceRun(s: string): (n: nat)
    ensures n <= |s|
    decreases |s|
  {
    if |s| > 0 && IsReSpace(s[0]) then 1 + SpaceRun(s[1..]) else 0
  }

  /** Index of the first newline of `s`, or `|s|`: how far `.*` can reach. */
  function LineEnd(s: string): (n: nat)
    ensures n <= |s|
    decreases |s|
  {
    if |s| == 0 || s[0] == '\n' then 0 else 1 + LineEnd(s[1..])
  }

  /** `.*` stops at the first newline and at no other place. */
  lemma {:induction false} LineEndStops(s: string)
    ensures forall k :: 0 <= k < LineEnd(s) ==> s[k] != '\n'
    ensures LineEnd(s) < |s| ==> s[LineEnd(s)] == '\n'
    decreases |s|
  {
    if |s| > 0 && s[0] != '\n' {
      LineEndStops(s[1..]);
      forall k | 0 <= k < LineEnd(s) ensures s[k] != '\n' {
        if k > 0 { assert s[k] == s[1..][k - 1]; }
      }
    }
  }

  /** What `.*` reads holds no newline. */
  lemma LineNoNewline(s: string)
    ensures '\n' !in s[..LineEnd(s)]
  {
    LineEndStops(s);
    forall k | 0 <= k < LineEnd(s) ensures s[..LineEnd(s)][k] != '\n' {
      assert s[..LineEnd(s)][k] == s[k];
    }
  }

  /** Where the text after the common head `^//\s+@` starts, if the line has that head. */
  function AfterAt(line: string): (r: Option<nat>)
    ensures r.Some? ==> 4 <= r.value <= |line| && line[..2] == "//" && line[r.value - 1] == '@'
    ensures |line| >= 3 && !IsReSpace(line[2]) ==> r.None?
  {
    if |line| >= 2 && line[..2] == "//" then
      var n := SpaceRun(line[2..]);
      if n >= 1 && 2 + n < |line| && line[2 + n] == '@' then Some(3 + n) else None
    else None
  }

  /** The HTTP verbs a route comment may name, case-sensitively. */
  const Verbs: seq<string> := ["GET", "POST", "PUT", "DELETE", "HEAD", "OPTIONS", "PATCH"]

  /** The verb `s` starts with; no verb is a prefix of another, so there is at most one. */
  function VerbAt(s: string): (r: Option<string>)
    ensures r.Some? ==> r.value in Verbs && r.value <= s && |r.value| > 0
  {
    if "GET" <= s then Some("GET")
    else if "POST" <= s then Some("POST")
    else if "PUT" <= s then Some("PUT")
    else if "DELETE" <= s then Some("DELETE")
    else if "HEAD" <= s then Some("HEAD")
    else if "OPTIONS" <= s then Some("OPTIONS")
    else if "PATCH" <= s then Some("PATCH")
    else None
  }

  /** The verbs read by the repetition `(GET|…)+` and how many characters they take. */
  datatype VerbsRead = VerbsRead(verbs: seq<string>, len: nat)

  function VerbRun(s: string): (r: VerbsRead)
    ensures r.len <= |s|
    ensures r.verbs == [] <==> r.len == 0
    decreases |s|
  {
    match VerbAt(s)
    case Some(v) =>
      var rest := VerbRun(s[|v|..]);
      VerbsRead([v] + rest.verbs, |v| + rest.len)
    case None => VerbsRead([], 0)
  }

  /** Every word the repetition reads is one of the verbs. */
  lemma {:induction false} VerbRunVerbs(s: string)
    ensures forall k :: 0 <= k < |VerbRun(s).verbs| ==> VerbRun(s).verbs[k] in Verbs
    decreases |s|
  {
    match VerbAt(s)
    case Some(v) =>
      VerbRunVerbs(s[|v|..]);
      var rest := VerbRun(s[|v|..]);
      forall k | 0 <= k < |VerbRun(s).verbs| ensures VerbRun(s).verbs[k] in Verbs {
        if k > 0 { assert VerbRun(s).verbs[k] == rest.verbs[k - 1]; }
      }
    case None =>
  }

  /** How many copies of `BasePath` the repetition `(BasePath)+` reads. */
  function BasePathRun(s: string): (k: nat)
    ensures 8 * k <= |s|
    decreases |s|
  {
    if "BasePath" <= s then 1 + BasePathRun(s[8..]) else 0
  }

  /** `")` stands at index `m` of `u`. */
  predicate CloseAt(u: string, m: int)
  {
    0 <= m && m + 1 < |u| && u[m] == '"' && u[m + 1] == ')'
  }

  /** The last `")` at an index between 1 and `j`: where the greedy `(/.*)` must stop. */
  function LastClose(u: string, j: int): (r: Option<nat>)
    ensures r.Some? ==> 1 <= r.value <= j && CloseAt(u, r.value)
    decreases j
  {
    if j < 1 then None
    else if CloseAt(u, j) then Some(j)
    else LastClose(u, j - 1)
  }

  /** The search finds the last `")` in range, and finds none only when there is none. */
  lemma {:induction false} LastCloseIsLast(u: string, j: int)
    ensures LastClose(u, j).Some? ==> forall m :: LastClose(u, j).value < m <= j ==> !CloseAt(u, m)
    ensures LastClose(u, j).None? ==> forall m :: 1 <= m <= j ==> !CloseAt(u, m)
    decreases j
  {
    if j >= 1 && !CloseAt(u, j) {
      LastCloseIsLast(u, j - 1);
    }
  }

  /** A route comment: the verb and the declared path. */
  datatype Route = Route(verb: string, path: string)

  /** `(/.*)"[)]` unanchored, on a text starting with `/`: the path runs to the last `")` before a newline. */
  function GreedyPath(t: string): (r: Option<string>)
    ensures r.Some? ==> 1 <= |r.value| <= |t| && r.value[0] == t[0]
  {
    var u := t[..LineEnd(t)];
    match LastClose(u, |u| - 2)
    case Some(j) => Some(u[..j])
    case None => None
  }

  /** The greedy path stays on the first line of the text. */
  lemma GreedyPathOneLine(t: string)
    ensures GreedyPath(t).Some? ==> '\n' !in GreedyPath(t).value
  {
    var u := t[..LineEnd(t)];
    LineNoNewline(t);
    match LastClose(u, |u| - 2)
    case Some(j) =>
      forall k | 0 <= k < j ensures u[..j][k] != '\n' { assert u[..j][k] == u[k]; }
    case None =>
  }

  /**
   * The greedy path ends at the last `")` of the first line: the path is a
   * prefix of the text followed by `")`, and no `")` starts after it on that
   * line. Without a match, the first line holds no `")` past its start.
   */
  lemma GreedyPathLast(t: string)
    ensures GreedyPath(t).Some? ==>
      var p := GreedyPath(t).value;
      && p == t[..|p|] && |p| + 1 < LineEnd(t) && CloseAt(t, |p|)
      && forall m :: |p| < m && m + 1 < LineEnd(t) ==> !CloseAt(t, m)
    ensures GreedyPath(t).None? ==> forall m :: 1 <= m && m + 1 < LineEnd(t) ==> !CloseAt(t, m)
  {
    var u := t[..LineEnd(t)];
    LastCloseIsLast(u, |u| - 2);
    forall m | 0 <= m && m + 1 < |u| ensures CloseAt(u, m) == CloseAt(t, m) {
      assert u[m] == t[m] && u[m + 1] == t[m + 1];
    }
    match LastClose(u, |u| - 2)
    case Some(j) => assert u[..j] == t[..j];
    case None =>
  }

  /** `[(]path="(/.*)"[)]`: the arguments of a route comment. */
  function RouteArgs(rest: string): (r: Option<string>)
    ensures r.Some? ==> |r.value| > 0 && r.value[0] == '/'
  {
    if |rest| >= 8 && rest[..7] == "(path=\"" && rest[7] == '/' then GreedyPath(rest[7..]) else None
  }

  /** The route pattern after its `@`: one or more verbs, the capture keeping the LAST, then the arguments. */
  function RouteAfterAt(s: string): (r: Option<Route>)
    ensures r.Some? ==> r.value.verb in Verbs
    ensures r.Some? ==> |r.value.path| > 0 && r.value.path[0] == '/'
  {
    var run := VerbRun(s);
    if run.verbs == [] then None
    else match RouteArgs(s[run.len..])
      case Some(path) =>
        VerbRunVerbs(s);
        Some(Route(run.verbs[|run.verbs| - 1], path))
      case None => None
  }

  /**
   * The route pattern. Its verb is the last one of the repetition, and, as
   * the pattern is not anchored at the end, its path runs to the last `")`
   * of the line.
   */
  function MatchRoute(line: string): (r: Option<Route>)
    ensures r.Some? ==> r.value.verb in Verbs
    ensures r.Some? ==> |r.value.path| > 0 && r.value.path[0] == '/'
  {
    match AfterAt(line)
    case None => None
    case Some(i) => RouteAfterAt(line[i..])
  }

  /** A route path holds no newline. */
  lemma RouteOneLine(line: string)
    ensures MatchRoute(line).Some? ==> '\n' !in MatchRoute(line).value.path
  {
    match AfterAt(line)
    case None =>
    case Some(i) =>
      var s := line[i..];
      var run := VerbRun(s);
      var rest := s[run.len..];
      if run.verbs != [] && |rest| >= 8 && rest[..7] == "(path=\"" && rest[7] == '/' {
        GreedyPathOneLine(rest[7..]);
      }
  }

  /** `[(]"(/.*)"[)]$`: the argument of a base-path comment, up to the end of the line. */
  function BasePathArgs(rest: string): (r: Option<string>)
    ensures r.Some? ==> |r.value| > 0 && r.value[0] == '/'
    ensures r.Some? ==> |rest| >= 2 && rest[|rest| - 2..] == "\")"
  {
    if |rest| >= 5 && rest[..2] == "(\"" && rest[|rest| - 2..] == "\")"
      && rest[2] == '/' && '\n' !in rest[2..|rest| - 2]
    then Some(rest[2..|rest| - 2])
    else None
  }

  /** The base-path pattern after its `@`: one or more copies of `BasePath`, then the argument. */
  function BasePathAfterAt(s: string): (r: Option<string>)
    ensures r.Some? ==> |r.value| > 0 && r.value[0] == '/'
    ensures r.Some? ==> |s| >= 2 && s[|s| - 2..] == "\")"
  {
    var k := BasePathRun(s);
    if k == 0 then None
    else
      var rest := s[8 * k..];
      var r := BasePathArgs(rest);
      assert r.Some? ==> s[|s| - 2..] == rest[|rest| - 2..];
      r
  }

  /**
   * The base-path pattern, anchored at both ends: the path is everything
   * between `("` and the final `")`.
   */
  function MatchBasePath(line: string): (r: Option<string>)
    ensures r.Some? ==> |r.value| > 0 && r.value[0] == '/'
    ensures r.Some? ==> |line| >= 2 && line[|line| - 2..] == "\")"
  {
    match AfterAt(line)
    case None => None
    case Some(i) =>
      var r := BasePathAfterAt(line[i..]);
      assert r.Some? ==> line[|line| - 2..] == line[i..][|line[i..]| - 2..];
      r
  }

  /** A base path holds no newline. */
  lemma BasePathOneLine(line: string)
    ensures MatchBasePath(line).Some? ==> '\n' !in MatchBasePath(line).value
  {
    match AfterAt(line)
    case None =>
    case Some(i) =>
      var s := line[i..];
      var k := BasePathRun(s);
      if k > 0 {
        assert BasePathAfterAt(s) == BasePathArgs(s[8 * k..]);
      }
  }

  /** `[A-zA-z]` is the range from `A` to `z`: it also holds `[`, `\`, `]`, `^`, `_` and the backtick. */
  predicate IsKeyChar(c: char) { 'A' <= c <= 'z' }

  function KeyRun(s: string): (n: nat)
    ensures n <= |s|
    decreases |s|
  {
    if |s| > 0 && IsKeyChar(s[0]) then 1 + KeyRun(s[1..]) else 0
  }

  /** The key run reads key characters only. */
  lemma {:induction false} KeyRunKeys(s: string)
    ensures forall k :: 0 <= k < KeyRun(s) ==> IsKeyChar(s[k])
    decreases |s|
  {
    if |s| > 0 && IsKeyChar(s[0]) {
      KeyRunKeys(s[1..]);
      forall k | 0 <= k < KeyRun(s) ensures IsKeyChar(s[k]) {
        if k > 0 { assert s[k] == s[1..][k - 1]; }
      }
    }
  }

  /** A generic annotation: `@Key` and the text after `->` (empty without an arrow). */
  datatype Anno = Anno(key: string, value: string)

  /** `\s*(->\s*(.*))*` after the key: the text after the arrow and its spaces, to the line's end. */
  function AnnoValue(t: string): (v: string)
    ensures |v| <= |t|
  {
    var t2 := t[SpaceRun(t)..];
    if |t2| >= 2 && t2[..2] == "->" then
      var v := t2[2..][SpaceRun(t2[2..])..];
      v[..LineEnd(v)]
    else ""
  }

  /** The generic annotation pattern after its `@`: the key characters, then the value. */
  function AnnoAfterAt(s: string): (r: Option<Anno>)
    ensures r.Some? ==> |r.value.key| >= 2 && r.value.key[0] == '@'
  {
    var n := KeyRun(s);
    if n == 0 then None else Some(Anno("@" + s[..n], AnnoValue(s[n..])))
  }

  /** The generic annotation pattern. */
  function MatchAnno(line: string): (r: Option<Anno>)
    ensures r.Some? ==> |r.value.key| >= 2 && r.value.key[0] == '@'
  {
    match AfterAt(line)
    case None => None
    case Some(i) => AnnoAfterAt(line[i..])
  }

  /** The key is `@` and key characters; the value stays on one line. */
  lemma AnnoShape(line: string)
    ensures MatchAnno(line).Some? ==> forall k :: 1 <= k < |MatchAnno(line).value.key| ==> IsKeyChar(MatchAnno(line).value.key[k])
    ensures MatchAnno(line).Some? ==> '\n' !in MatchAnno(line).value.value
  {
    match AfterAt(line)
    case None =>
    case Some(i) =>
      var s := line[i..];
      var n := KeyRun(s);
      if n > 0 {
        KeyRunKeys(s);
        var key := "@" + s[..n];
        forall k | 1 <= k < |key| ensures IsKeyChar(key[k]) { assert key[k] == s[k - 1]; }
        var t2 := s[n..][SpaceRun(s[n..])..];
        if |t2| >= 2 && t2[..2] == "->" {
          LineNoNewline(t2[2..][SpaceRun(t2[2..])..]);
        }
      }
  }

  /** The canonical comment lines the three patterns are written for. */
  function BasePathLine(path: string): string { "// @" + ("BasePath" + ("(\"" + path + "\")")) }

  function RouteLine(verb: string, path: string): string { "// @" + (verb + ("(path=\"" + path + "\")")) }

  function AnnoLine(key: string, value: string): string { "// @" + (key + (" -> " + value)) }

  /** A line `// @…` has its text after `@` at index 4. */
  lemma AfterAtCanonical(line: string, rest: string)
    requires line == "// @" + rest
    ensures AfterAt(line) == Some(4) && line[4..] == rest
  {
    assert line[..2] == "//";
    assert line[2..][0] == ' ' && line[2..][1..][0] == '@';
    assert SpaceRun(line[2..][1..]) == 0;
  }

  /** On a line `// @…` the route pattern continues after the `@`. */
  lemma RouteAt(line: string, rest: string)
    requires line == "// @" + rest
    ensures MatchRoute(line) == RouteAfterAt(rest)
  {
    AfterAtCanonical(line, rest);
  }

  /** On a line `// @…` the base-path pattern continues after the `@`. */
  lemma BasePathAt(line: string, rest: string)
    requires line == "// @" + rest
    ensures MatchBasePath(line) == BasePathAfterAt(rest)
  {
    AfterAtCanonical(line, rest);
  }

  /** On a line `// @…` the annotation pattern continues after the `@`. */
  lemma AnnoAt(line: string, rest: string)
    requires line == "// @" + rest
    ensures MatchAnno(line) == AnnoAfterAt(rest)
  {
    AfterAtCanonical(line, rest);
  }

  /** A text without newlines reaches its end under `.*`. */
  lemma {:induction false} LineEndNoNewline(t: string)
    requires '\n' !in t
    ensures LineEnd(t) == |t|
    decreases |t|
  {
    if |t| > 0 {
      assert t[0] in t;
      assert '\n' !in t[1..] by {
        forall k | 0 <= k < |t| - 1 ensures t[1..][k] != '\n' { assert t[1..][k] == t[k + 1]; }
      }
      LineEndNoNewline(t[1..]);
    }
  }

  /** A word whose character at `i` differs from that of `s` is no prefix of `s`. */
  lemma NotPrefixAt(w: string, s: string, i: nat)
    requires i < |w| && i < |s| && w[i] != s[i]
    ensures !(w <= s)
  {
  }

  /** Each verb is read as itself, whatever follows it. */
  lemma VerbAtVerb(v: string, rest: string)
    requires v in Verbs
    ensures VerbAt(v + rest) == Some(v)
  {
    var s := v + rest;
    assert s[..|v|] == v;
    assert v <= s;
    assert s[0] == v[0] && s[1] == v[1];
    if v != "GET" { NotPrefixAt("GET", s, 0); }
    if v != "POST" && v != "GET" {
      if v[0] == 'P' { NotPrefixAt("POST", s, 1); } else { NotPrefixAt("POST", s, 0); }
    }
    if v != "PUT" && v != "POST" && v != "GET" {
      if v[0] == 'P' { NotPrefixAt("PUT", s, 1); } else { NotPrefixAt("PUT", s, 0); }
    }
    if v == "HEAD" || v == "OPTIONS" || v == "PATCH" { NotPrefixAt("DELETE", s, 0); }
    if v == "OPTIONS" || v == "PATCH" { NotPrefixAt("HEAD", s, 0); }
    if v == "PATCH" { NotPrefixAt("OPTIONS", s, 0); }
  }

  /** A text whose first character starts no verb reads no verb. */
  lemma NoVerbAt(s: string)
    requires |s| > 0 && s[0] != 'G' && s[0] != 'P' && s[0] != 'D' && s[0] != 'H' && s[0] != 'O'
    ensures VerbAt(s) == None && VerbRun(s) == VerbsRead([], 0)
  {
    NotPrefixAt("GET", s, 0);
    NotPrefixAt("POST", s, 0);
    NotPrefixAt("PUT", s, 0);
    NotPrefixAt("DELETE", s, 0);
    NotPrefixAt("HEAD", s, 0);
    NotPrefixAt("OPTIONS", s, 0);
    NotPrefixAt("PATCH", s, 0);
  }

  /** A verb followed by an opening parenthesis is read as exactly that verb. */
  lemma VerbRunOne(v: string, tail: string)
    requires v in Verbs && |tail| > 0 && tail[0] == '('
    ensures VerbRun(v + tail) == VerbsRead([v], |v|)
  {
    VerbAtVerb(v, tail);
    assert (v + tail)[|v|..] == tail;
    NoVerbAt(tail);
  }

  /** The greedy path of `path + "\")"` is `path`, for a one-line path. */
  lemma GreedyPathCanonical(path: string)
    requires |path| > 0 && '\n' !in path
    ensures GreedyPath(path + "\")") == Some(path)
  {
    var t := path + "\")";
    assert '\n' !in t by {
      forall k | 0 <= k < |t| ensures t[k] != '\n' {
        if k < |path| { assert t[k] == path[k]; }
      }
    }
    LineEndNoNewline(t);
    assert t[..LineEnd(t)] == t;
    assert CloseAt(t, |t| - 2);
    assert LastClose(t, |t| - 2) == Some(|path|);
    assert t[..|path|] == path;
  }

  /** The arguments `(path="…")` give back their path. */
  lemma RouteArgsCanonical(path: string)
    requires |path| > 0 && path[0] == '/' && '\n' !in path
    ensures RouteArgs("(path=\"" + path + "\")") == Some(path)
  {
    var rest := "(path=\"" + path + "\")";
    assert rest[..7] == "(path=\"" && rest[7] == '/';
    assert rest[7..] == path + "\")";
    GreedyPathCanonical(path);
  }

  /** The route pattern after `@` reads one verb and its arguments. */
  lemma RouteAfterAtCanonical(verb: string, path: string)
    requires verb in Verbs
    requires |path| > 0 && path[0] == '/' && '\n' !in path
    ensures RouteAfterAt(verb + ("(path=\"" + path + "\")")) == Some(Route(verb, path))
  {
    var tail := "(path=\"" + path + "\")";
    VerbRunOne(verb, tail);
    assert (verb + tail)[|verb|..] == tail;
    RouteArgsCanonical(path);
  }

  /** The canonical route line gives back its verb and path, for a rooted one-line path. */
  lemma RouteRoundTrip(verb: string, path: string)
    requires verb in Verbs
    requires |path| > 0 && path[0] == '/' && '\n' !in path
    ensures MatchRoute(RouteLine(verb, path)) == Some(Route(verb, path))
  {
    var tail := "(path=\"" + path + "\")";
    RouteAt(RouteLine(verb, path), verb + tail);
    RouteAfterAtCanonical(verb, path);
  }

  /** Regrouping a concatenation, for `VerbRunTwo`. */
  lemma AppendAssoc(a: string, b: string, c: string)
    ensures (a + b) + c == a + (b + c)
  {
  }

  /** Two verbs followed by an opening parenthesis are both read. */
  lemma VerbRunTwo(first: string, verb: string, tail: string)
    requires first in Verbs && verb in Verbs && |tail| > 0 && tail[0] == '('
    ensures VerbRun(first + (verb + tail)) == VerbsRead([first, verb], |first| + |verb|)
  {
    var s := first + (verb + tail);
    VerbAtVerb(first, verb + tail);
    assert s[|first|..] == verb + tail;
    VerbRunOne(verb, tail);
    assert [first] + [verb] == [first, verb];
  }

  /** `(GET|…)+` reads repeated verbs, and the capture keeps the last one: `@GETPOST` is a POST. */
  lemma RouteLastVerbWins(first: string, verb: string, path: string)
    requires first in Verbs && verb in Verbs
    requires |path| > 0 && path[0] == '/' && '\n' !in path
    ensures MatchRoute(RouteLine(first + verb, path)) == Some(Route(verb, path))
  {
    var tail := "(path=\"" + path + "\")";
    var s := first + (verb + tail);
    AppendAssoc(first, verb, tail);
    RouteAt(RouteLine(first + verb, path), s);
    VerbRunTwo(first, verb, tail);
    var run := VerbRun(s);
    assert run.verbs != [] && run.verbs[|run.verbs| - 1] == verb;
    assert s[run.len..] == tail;
    RouteArgsCanonical(path);
  }

  /**
   * The route path is greedy: it runs to the last `")` of the line, so a
   * second `")` after the first one ends up inside the path.
   */
  lemma GreedyRoutePath()
    ensures MatchRoute("// @GET(path=\"/a\")\")") == Some(Route("GET", "/a\")"))
  {
    GreedyExample();
    RouteRoundTrip("GET", "/a\")");
  }

  /** The line of `GreedyRoutePath` is the canonical line of its path. */
  lemma GreedyExample()
    ensures RouteLine("GET", "/a\")") == "// @GET(path=\"/a\")\")"
    ensures '\n' !in "/a\")"
  {
  }

  /** Verbs are case-sensitive: a lower-case verb is not a route. */
  lemma LowerCaseVerbIsNoRoute()
    ensures MatchRoute("// @get(path=\"/x\")") == None
  {
    RouteAt("// @get(path=\"/x\")", "get(path=\"/x\")");
    NoVerbAt("get(path=\"/x\")");
  }

  /** The argument `("…")` ending the line gives back its path. */
  lemma BasePathArgsCanonical(path: string)
    requires |path| > 0 && path[0] == '/' && '\n' !in path
    ensures BasePathArgs("(\"" + path + "\")") == Some(path)
  {
    var rest := "(\"" + path + "\")";
    assert rest[..2] == "(\"" && rest[2] == '/';
    assert rest[|rest| - 2..] == "\")";
    assert rest[2..|rest| - 2] == path;
  }

  /** `(BasePath)+` reads `n` copies of the word when an opening parenthesis follows them. */
  lemma BasePathRunOne(tail: string)
    requires |tail| > 0 && tail[0] == '('
    ensures BasePathRun(tail) == 0
    ensures BasePathRun("BasePath" + tail) == 1
    ensures BasePathRun("BasePath" + ("BasePath" + tail)) == 2
  {
    NotPrefixAt("BasePath", tail, 0);
    assert ("BasePath" + tail)[8..] == tail;
    assert ("BasePath" + ("BasePath" + tail))[8..] == "BasePath" + tail;
  }

  /** The canonical base-path line gives back its path, for a rooted one-line path. */
  lemma BasePathRoundTrip(path: string)
    requires |path| > 0 && path[0] == '/' && '\n' !in path
    ensures MatchBasePath(BasePathLine(path)) == Some(path)
  {
    var tail := "(\"" + path + "\")";
    BasePathAt(BasePathLine(path), "BasePath" + tail);
    BasePathRunOne(tail);
    assert ("BasePath" + tail)[8..] == tail;
    BasePathArgsCanonical(path);
  }

  /** `(BasePath)+` also reads a repeated word: `// @BasePathBasePath("…")`. */
  lemma BasePathRepeated(path: string)
    requires |path| > 0 && path[0] == '/' && '\n' !in path
    ensures MatchBasePath("// @" + ("BasePath" + ("BasePath" + ("(\"" + path + "\")")))) == Some(path)
  {
    var tail := "(\"" + path + "\")";
    var s := "BasePath" + ("BasePath" + tail);
    BasePathAt("// @" + s, s);
    BasePathRunOne(tail);
    assert s[16..] == tail;
    BasePathArgsCanonical(path);
  }

  /** The base-path pattern is anchored: trailing text after `")` is no match. */
  lemma BasePathAnchored(path: string)
    ensures MatchBasePath(BasePathLine(path) + " ") == None
  {
    var line := BasePathLine(path) + " ";
    assert line[|line| - 1] == ' ';
    assert line[|line| - 2..] != "\")";
  }

  /** Every pattern demands whitespace between `//` and `@`. */
  lemma NoSpaceNoMatch(line: string)
    requires |line| >= 3 && line[..2] == "//" && !IsReSpace(line[2])
    ensures MatchBasePath(line) == None && MatchRoute(line) == None && MatchAnno(line) == None
  {
  }

  /** A key run stops exactly where the key characters stop. */
  lemma {:induction false} KeyRunPrefix(s: string, n: nat)
    requires n <= |s| && (n == |s| || !IsKeyChar(s[n]))
    requires forall k :: 0 <= k < n ==> IsKeyChar(s[k])
    ensures KeyRun(s) == n
    decreases n
  {
    if n > 0 {
      KeyRunPrefix(s[1..], n - 1);
    }
  }

  /** The value after ` -> ` is read to the end of the line. */
  lemma AnnoValueCanonical(value: string)
    requires '\n' !in value && (|value| == 0 || !IsReSpace(value[0]))
    ensures AnnoValue(" -> " + value) == value
  {
    var t := " -> " + value;
    assert t[1..][0] == '-';
    assert SpaceRun(t) == 1;
    var t2 := t[1..];
    assert t2[..2] == "->";
    var v0 := t2[2..];
    assert v0 == " " + value && v0[1..] == value;
    assert SpaceRun(v0) == 1;
    LineEndNoNewline(value);
    assert value[..|value|] == value;
  }

  /** The annotation pattern after `@` reads the key and the value after the arrow. */
  lemma AnnoAfterAtCanonical(key: string, value: string)
    requires |key| > 0 && forall k :: 0 <= k < |key| ==> IsKeyChar(key[k])
    requires '\n' !in value && (|value| == 0 || !IsReSpace(value[0]))
    ensures AnnoAfterAt(key + (" -> " + value)) == Some(Anno("@" + key, value))
  {
    var s := key + (" -> " + value);
    assert s[|key|] == ' ';
    KeyRunPrefix(s, |key|);
    assert s[..|key|] == key && s[|key|..] == " -> " + value;
    AnnoValueCanonical(value);
  }

  /** The canonical annotation line gives back `@key` and the value. */
  lemma AnnoRoundTrip(key: string, value: string)
    requires |key| > 0 && forall k :: 0 <= k < |key| ==> IsKeyChar(key[k])
    requires '\n' !in value && (|value| == 0 || !IsReSpace(value[0]))
    ensures MatchAnno(AnnoLine(key, value)) == Some(Anno("@" + key, value))
  {
    AnnoAt(AnnoLine(key, value), key + (" -> " + value));
    AnnoAfterAtCanonical(key, value);
  }

  /** Without an arrow the value is empty. */
  lemma AnnoBare(key: string)
    requires |key| > 0 && forall k :: 0 <= k < |key| ==> IsKeyChar(key[k])
    ensures MatchAnno("// @" + key) == Some(Anno("@" + key, ""))
  {
    AnnoAt("// @" + key, key);
    KeyRunPrefix(key, |key|);
    assert key[..|key|] == key && key[|key|..] == "";
  }

  /** The key class takes the characters between `Z` and `a`: `@a_b` is a key. */
  lemma UnderscoreInKey()
    ensures MatchAnno("// @a_b") == Some(Anno("@a_b", ""))
  {
    assert "// @a_b" == "// @" + "a_b";
    assert "@" + "a_b" == "@a_b";
    AnnoBare("a_b");
  }

  /**
   * A base-path line is no route, and as a generic annotation it reads as
   * the key `@BasePath` with an empty value: that is what a method makes of it.
   */
  lemma BasePathLineOnMethod(path: string)
    ensures MatchRoute(BasePathLine(path)) == None
    ensures MatchAnno(BasePathLine(path)) == Some(Anno("@BasePath", ""))
  {
    BasePathLineNoRoute(path);
    BasePathLineAnno(path);
  }

  lemma BasePathLineNoRoute(path: string)
    ensures MatchRoute(BasePathLine(path)) == None
  {
    var s := "BasePath" + ("(\"" + path + "\")");
    RouteAt(BasePathLine(path), s);
    NoVerbAt(s);
  }

  lemma BasePathLineAnno(path: string)
    ensures MatchAnno(BasePathLine(path)) == Some(Anno("@BasePath", ""))
  {
    var tail := "(\"" + path + "\")";
    AnnoAt(BasePathLine(path), "BasePath" + tail);
    BasePathIsKey();
    KeyBeforeParen("BasePath", tail);
    AtBasePath();
  }

  /** The key `BasePathLineAnno` reads. */
  lemma AtBasePath()
    ensures "@" + "BasePath" == "@BasePath"
  {
  }

  /** Every character of `BasePath` is a key character. */
  lemma BasePathIsKey()
    ensures forall k :: 0 <= k < |"BasePath"| ==> IsKeyChar("BasePath"[k])
  {
    var w := "BasePath";
    assert w[0] == 'B' && w[1] == 'a' && w[2] == 's' && w[3] == 'e';
    assert w[4] == 'P' && w[5] == 'a' && w[6] == 't' && w[7] == 'h';
  }

  /** Every verb is written in key characters. */
  lemma VerbIsKey(verb: string)
    requires verb in Verbs
    ensures forall k :: 0 <= k < |verb| ==> IsKeyChar(verb[k])
  {
    forall k | 0 <= k < |verb| ensures IsKeyChar(verb[k]) {
      assert 'A' <= verb[k] <= 'Z';
    }
  }

  /** A route line read by the annotation pattern: the key is `@` and the verb, the value empty. */
  lemma RouteLineAnno(verb: string, path: string)
    requires verb in Verbs
    ensures MatchAnno(RouteLine(verb, path)) == Some(Anno("@" + verb, ""))
  {
    var tail := "(path=\"" + path + "\")";
    AnnoAt(RouteLine(verb, path), verb + tail);
    VerbIsKey(verb);
    KeyBeforeParen(verb, tail);
  }

  /** A key that stops at an opening parenthesis has the empty value. */
  lemma KeyBeforeParen(word: string, tail: string)
    requires |word| > 0 && forall k :: 0 <= k < |word| ==> IsKeyChar(word[k])
    requires |tail| > 0 && tail[0] == '('
    ensures AnnoAfterAt(word + tail) == Some(Anno("@" + word, ""))
  {
    var s := word + tail;
    assert s[|word|] == '(';
    KeyRunPrefix(s, |word|);
    assert s[..|word|] == word && s[|word|..] == tail;
    assert SpaceRun(tail) == 0;
    assert tail[0..] == tail;
    if |tail| >= 2 {
      assert tail[..2][0] == '(';
    }
    assert AnnoValue(tail) == "";
  }
}
