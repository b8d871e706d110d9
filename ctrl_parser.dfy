/**
 * The controller registry of core/ctrl_parser.go. A controller struct gets a
 * base path (the context path, joined with the path of its first
 * `@BasePath` comment); each of its methods adds one route per route comment
 * and files its other annotations under the path of its first route.
 */
module CtrlParsing {
  import opened Wrappers
  import opened Strings
  import opened Paths
  import opened Annotations
  import opened Syntax
  import opened Meta

  /** One route: the HTTP verb, the full API path and the handler's name. */
  datatype MethodInfo = MethodInfo(verb: string, apiPath: string, name: string)

  /** A controller: its base path and its routes in the order they were read. */
  datatype CtrlInfo = CtrlInfo(basePath: string, apiCache: seq<MethodInfo>)

  /** The two tables: controllers by struct name, annotation maps by API path. */
  datatype CtrlState = CtrlState(ctrls: map<string, CtrlInfo>, annos: map<string, map<string, string>>)

  predicate CleanRoutes(routes: seq<MethodInfo>)
  {
    forall k :: 0 <= k < |routes| ==> IsClean(routes[k].apiPath)
  }

  /** Every base path and every API path in the tables is a clean rooted path. */
  predicate WellFormed(s: CtrlState)
  {
    (forall n :: n in s.ctrls ==> IsClean(s.ctrls[n].basePath) && CleanRoutes(s.ctrls[n].apiCache))
    && (forall p :: p in s.annos ==> IsClean(p))
  }

  // ---------------------------------------------------------------- structs

  /** The index of the first comment line that declares a base path. */
  function FirstBasePathLine(comments: seq<string>): (r: Option<nat>)
    ensures r.Some? ==> r.value < |comments| && MatchBasePath(comments[r.value]).Some?
    decreases |comments|
  {
    if |comments| == 0 then None
    else if MatchBasePath(comments[0]).Some? then Some(0)
    else match FirstBasePathLine(comments[1..])
      case None => None
      case Some(k) => Some(k + 1)
  }

  /** No line before the one found declares a base path; with none found, no line does. */
  lemma {:induction false} FirstBasePathLineIsFirst(comments: seq<string>)
    ensures FirstBasePathLine(comments).Some? ==>
      forall k :: 0 <= k < FirstBasePathLine(comments).value ==> MatchBasePath(comments[k]).None?
    ensures FirstBasePathLine(comments).None? ==>
      forall k :: 0 <= k < |comments| ==> MatchBasePath(comments[k]).None?
    decreases |comments|
  {
    if |comments| > 0 && MatchBasePath(comments[0]).None? {
      FirstBasePathLineIsFirst(comments[1..]);
      forall k | 1 <= k < |comments| ensures comments[k] == comments[1..][k - 1] { }
    }
  }

  /** Conversely, a line preceded only by lines without a base path is the one found. */
  lemma {:induction false} FirstBasePathLineAt(comments: seq<string>, i: nat)
    requires i <= |comments|
    requires forall k :: 0 <= k < i ==> MatchBasePath(comments[k]).None?
    requires i < |comments| ==> MatchBasePath(comments[i]).Some?
    ensures FirstBasePathLine(comments) == if i == |comments| then None else Some(i)
    decreases i
  {
    if i > 0 {
      forall k | 0 <= k < i - 1 ensures MatchBasePath(comments[1..][k]).None? {
        assert comments[1..][k] == comments[k + 1];
      }
      FirstBasePathLineAt(comments[1..], i - 1);
    }
  }

  /**
   * The base path of a controller: the context path, joined with the path of
   * the first base-path comment when there is one.
   */
  function BasePathOf(context: string, comments: seq<string>): (r: string)
    requires IsClean(context)
    ensures IsClean(r)
  {
    match FirstBasePathLine(comments)
    case None => context
    case Some(k) => Join(context, MatchBasePath(comments[k]).value)
  }

  /**
   * `ParseStruct` on the tables: the struct's entry becomes a fresh
   * controller with its base path and no routes.
   */
  function StructStep(s: CtrlState, context: string, comments: seq<string>, name: string): CtrlState
    requires IsClean(context)
  {
    s.(ctrls := s.ctrls[name := CtrlInfo(BasePathOf(context, comments), [])])
  }

  /**
   * Declaring a controller registers it with its base path and forgets any
   * routes an earlier struct of the same name had; the other controllers
   * and the annotations are untouched, and the tables stay well formed.
   */
  lemma StructStepEffect(s: CtrlState, context: string, comments: seq<string>, name: string)
    requires IsClean(context) && WellFormed(s)
    ensures var r := StructStep(s, context, comments, name);
      && WellFormed(r)
      && r.ctrls.Keys == s.ctrls.Keys + {name}
      && r.ctrls[name].apiCache == []
      && IsClean(r.ctrls[name].basePath)
      && (forall n :: n in s.ctrls && n != name ==> r.ctrls[n] == s.ctrls[n])
      && r.annos == s.annos
  {
  }

  /** Without a base-path comment the controller sits at the context path. */
  lemma BasePathDefault(context: string, comments: seq<string>)
    requires IsClean(context)
    requires forall k :: 0 <= k < |comments| ==> MatchBasePath(comments[k]).None?
    ensures BasePathOf(context, comments) == context
  {
    FirstBasePathLineAt(comments, |comments|);
  }

  /** Only the first base-path comment counts: lines after it change nothing. */
  lemma BasePathFirstWins(context: string, comments: seq<string>, later: seq<string>)
    requires IsClean(context)
    requires FirstBasePathLine(comments).Some?
    ensures BasePathOf(context, comments + later) == BasePathOf(context, comments)
  {
    var i := FirstBasePathLine(comments).value;
    FirstBasePathLineIsFirst(comments);
    var all := comments + later;
    forall k | 0 <= k < i ensures MatchBasePath(all[k]).None? {
      assert all[k] == comments[k];
    }
    assert all[i] == comments[i];
    FirstBasePathLineAt(all, i);
  }

  /**
   * A `@BasePath("/users")` comment under the context `/api` puts the
   * controller at `/api/users`: a clean path is appended to a clean context.
   */
  lemma BasePathAppends(context: string, path: string)
    requires IsClean(context) && context != "/"
    requires IsClean(path) && path != "/" && '\n' !in path
    ensures BasePathOf(context, [BasePathLine(path)]) == context + path
  {
    BasePathRoundTrip(path);
    FirstBasePathLineAt([BasePathLine(path)], 0);
    JoinClean(context, path);
  }

  // ---------------------------------------------------------------- methods

  /**
   * The controller a method belongs to: the type name of the first
   * receiver written as a pointer to a named type, or "" when there is none.
   */
  function ReceiverName(fields: seq<Field>): string
  {
    if |fields| == 0 then ""
    else match fields[0].typ
      case Star(Ident(n)) => n
      case _ => ReceiverName(fields[1..])
  }

  predicate PointerTo(f: Field, n: string)
  {
    f.typ == Star(Ident(n))
  }

  /** The receiver name comes from the first pointer receiver; without one it is "". */
  lemma {:induction false} ReceiverNameFirst(fields: seq<Field>)
    ensures (exists k :: 0 <= k < |fields| && fields[k].typ.Star? && fields[k].typ.x.Ident?) ==>
      exists k :: 0 <= k < |fields| && PointerTo(fields[k], ReceiverName(fields))
        && forall j :: 0 <= j < k ==> !(fields[j].typ.Star? && fields[j].typ.x.Ident?)
    ensures (forall k :: 0 <= k < |fields| ==> !(fields[k].typ.Star? && fields[k].typ.x.Ident?)) ==>
      ReceiverName(fields) == ""
    decreases |fields|
  {
    if |fields| > 0 {
      ReceiverNameFirst(fields[1..]);
      if !(fields[0].typ.Star? && fields[0].typ.x.Ident?) {
        if exists k :: 0 <= k < |fields| && fields[k].typ.Star? && fields[k].typ.x.Ident? {
          var k :| 0 <= k < |fields| && fields[k].typ.Star? && fields[k].typ.x.Ident?;
          assert fields[1..][k - 1] == fields[k];
          var k' :| 0 <= k' < |fields[1..]| && PointerTo(fields[1..][k'], ReceiverName(fields[1..]))
            && forall j :: 0 <= j < k' ==> !(fields[1..][j].typ.Star? && fields[1..][j].typ.x.Ident?);
          assert PointerTo(fields[k' + 1], ReceiverName(fields));
          forall j | 0 <= j < k' + 1 ensures !(fields[j].typ.Star? && fields[j].typ.x.Ident?) {
            if j > 0 { assert fields[j] == fields[1..][j - 1]; }
          }
        }
        forall k | 0 <= k < |fields[1..]| ensures fields[1..][k] == fields[k + 1] { }
      }
    }
  }

  /** A value receiver names no controller: methods on `T` rather than `*T` are ignored. */
  lemma ValueReceiverIgnored(n: string)
    ensures ReceiverName([Field(Ident(n))]) == ""
    ensures ReceiverName([Field(Ident(n)), Field(Star(Ident(n)))]) == n
  {
    assert [Field(Ident(n)), Field(Star(Ident(n)))][1..] == [Field(Star(Ident(n)))];
  }

  /** `searchReceiver`: a loop over the receiver list that stops at the first pointer to a named type. */
  method SearchReceiver(fields: seq<Field>) returns (r: string)
    ensures r == ReceiverName(fields)
  {
    var i := 0;
    while i < |fields|
      invariant 0 <= i <= |fields|
      invariant ReceiverName(fields) == ReceiverName(fields[i..])
    {
      assert fields[i..][1..] == fields[i + 1..];
      match fields[i].typ {
        case Star(x) =>
          match x {
            case Ident(n) => return n;
            case _ =>
          }
        case _ =>
      }
      i := i + 1;
    }
    r := "";
  }

  /** The route a comment line declares, under the controller's base path. */
  function RouteOf(base: string, name: string, line: string): seq<MethodInfo>
    requires IsRooted(base)
  {
    match MatchRoute(line)
    case Some(route) => [MethodInfo(route.verb, Join(base, route.path), name)]
    case None => []
  }

  /** The routes of a method, one per route comment, in comment order. */
  function RoutesOf(base: string, name: string, comments: seq<string>): (r: seq<MethodInfo>)
    requires IsRooted(base)
    ensures |r| <= |comments|
  {
    if |comments| == 0 then []
    else RoutesOf(base, name, comments[..|comments| - 1]) + RouteOf(base, name, comments[|comments| - 1])
  }

  /** The annotation a comment line contributes: none for a route line, even one the annotation pattern also matches. */
  function LineAnno(line: string): Option<Anno>
  {
    if MatchRoute(line).Some? then None else MatchAnno(line)
  }

  /** The contributions of the lines, in order. */
  function LineAnnos(comments: seq<string>): (r: seq<Option<Anno>>)
    ensures |r| == |comments|
  {
    seq(|comments|, k requires 0 <= k < |comments| => LineAnno(comments[k]))
  }

  /** Key to value, a later annotation overriding an earlier one. */
  function AnnoFold(xs: seq<Option<Anno>>): map<string, string>
  {
    if |xs| == 0 then map[]
    else
      var m := AnnoFold(xs[..|xs| - 1]);
      match xs[|xs| - 1]
      case Some(a) => m[a.key := a.value]
      case None => m
  }

  /** What one comment line does to the annotations. */
  function AnnoOf(m: map<string, string>, line: string): map<string, string>
  {
    match LineAnno(line)
    case Some(a) => m[a.key := a.value]
    case None => m
  }

  /** The annotations of a method: key to value, a later line overriding an earlier one. */
  function AnnotationsOf(comments: seq<string>): map<string, string>
  {
    if |comments| == 0 then map[]
    else AnnoOf(AnnotationsOf(comments[..|comments| - 1]), comments[|comments| - 1])
  }

  /** Folding over the lines is folding over their contributions. */
  lemma {:induction false} AnnotationsOfFold(comments: seq<string>)
    ensures AnnotationsOf(comments) == AnnoFold(LineAnnos(comments))
    decreases |comments|
  {
    if |comments| > 0 {
      var n := |comments| - 1;
      AnnotationsOfFold(comments[..n]);
      var xs := LineAnnos(comments);
      assert xs[..n] == LineAnnos(comments[..n]);
    }
  }

  predicate KeyAt(xs: seq<Option<Anno>>, k: int, key: string)
    requires 0 <= k < |xs|
  {
    xs[k].Some? && xs[k].value.key == key
  }

  /** An annotation puts its key in the map, whatever follows it. */
  lemma {:induction false} FoldKeyFromEntry(xs: seq<Option<Anno>>, i: nat, key: string)
    requires i < |xs| && KeyAt(xs, i, key)
    ensures key in AnnoFold(xs)
    decreases |xs|
  {
    var n := |xs| - 1;
    if i < n {
      assert xs[..n][i] == xs[i];
      FoldKeyFromEntry(xs[..n], i, key);
    }
  }

  /** A key in the map comes from some annotation with that key. */
  lemma {:induction false} FoldEntryForKey(xs: seq<Option<Anno>>, key: string) returns (i: nat)
    requires key in AnnoFold(xs)
    ensures i < |xs| && KeyAt(xs, i, key)
    decreases |xs|
  {
    var n := |xs| - 1;
    if KeyAt(xs, n, key) {
      i := n;
    } else {
      i := FoldEntryForKey(xs[..n], key);
      assert xs[..n][i] == xs[i];
    }
  }

  /** The last annotation of a key gives its value. */
  lemma {:induction false} FoldLastWins(xs: seq<Option<Anno>>, i: nat, key: string)
    requires i < |xs| && KeyAt(xs, i, key)
    requires forall k :: i < k < |xs| ==> !KeyAt(xs, k, key)
    ensures key in AnnoFold(xs) && AnnoFold(xs)[key] == xs[i].value.value
    decreases |xs|
  {
    var n := |xs| - 1;
    if i < n {
      forall k | i < k < n ensures !KeyAt(xs[..n], k, key) {
        assert !KeyAt(xs, k, key);
        assert xs[..n][k] == xs[k];
      }
      assert xs[..n][i] == xs[i];
      FoldLastWins(xs[..n], i, key);
      assert !KeyAt(xs, n, key);
    }
  }

  /** A key holds a value exactly when some non-route line is an annotation with that key. */
  lemma AnnotationsOfKeys(comments: seq<string>, key: string)
    ensures key in AnnotationsOf(comments) <==>
      exists k :: 0 <= k < |comments| && LineAnno(comments[k]).Some? && LineAnno(comments[k]).value.key == key
  {
    var xs := LineAnnos(comments);
    AnnotationsOfFold(comments);
    if key in AnnotationsOf(comments) {
      var i := FoldEntryForKey(xs, key);
    }
    if exists k :: 0 <= k < |comments| && LineAnno(comments[k]).Some? && LineAnno(comments[k]).value.key == key {
      var k :| 0 <= k < |comments| && LineAnno(comments[k]).Some? && LineAnno(comments[k]).value.key == key;
      FoldKeyFromEntry(xs, k, key);
    }
  }

  /**
   * The value of a key is the one of its last annotation line: a key
   * repeated on a later line overrides the earlier value.
   */
  lemma AnnotationsOfLastWins(comments: seq<string>, i: nat, a: Anno)
    requires i < |comments| && LineAnno(comments[i]) == Some(a)
    requires forall k :: i < k < |comments| ==> LineAnno(comments[k]).None? || LineAnno(comments[k]).value.key != a.key
    ensures a.key in AnnotationsOf(comments) && AnnotationsOf(comments)[a.key] == a.value
  {
    var xs := LineAnnos(comments);
    AnnotationsOfFold(comments);
    assert forall k | i < k < |xs| :: !KeyAt(xs, k, a.key);
    FoldLastWins(xs, i, a.key);
  }

  /**
   * A route line also matches the annotation pattern, as `@VERB` with an
   * empty value, yet it adds no annotation: the route test comes first.
   */
  lemma RouteLineNoAnnotation(comments: seq<string>, verb: string, path: string)
    requires verb in Verbs
    requires |path| > 0 && path[0] == '/' && '\n' !in path
    ensures MatchAnno(RouteLine(verb, path)) == Some(Anno("@" + verb, ""))
    ensures AnnotationsOf(comments + [RouteLine(verb, path)]) == AnnotationsOf(comments)
  {
    var line := RouteLine(verb, path);
    RouteRoundTrip(verb, path);
    RouteLineAnno(verb, path);
    var cs := comments + [line];
    assert cs[..|cs| - 1] == comments && cs[|cs| - 1] == line;
  }

  lemma RoutesOfStep(base: string, name: string, comments: seq<string>, i: nat)
    requires IsRooted(base) && i < |comments|
    ensures RoutesOf(base, name, comments[..i + 1]) == RoutesOf(base, name, comments[..i]) + RouteOf(base, name, comments[i])
    ensures AnnotationsOf(comments[..i + 1]) == AnnoOf(AnnotationsOf(comments[..i]), comments[i])
  {
    assert comments[..i + 1][..i] == comments[..i];
  }

  /** Routes of two comment blocks are the routes of the first, then those of the second. */
  lemma {:induction false} RoutesOfAppend(base: string, name: string, a: seq<string>, b: seq<string>)
    requires IsRooted(base)
    ensures RoutesOf(base, name, a + b) == RoutesOf(base, name, a) + RoutesOf(base, name, b)
    decreases |b|
  {
    if |b| == 0 {
      assert a + b == a;
    } else {
      var b' := b[..|b| - 1];
      assert (a + b)[..|a + b| - 1] == a + b';
      assert (a + b)[|a + b| - 1] == b[|b| - 1];
      RoutesOfAppend(base, name, a, b');
    }
  }

  /** Every route carries the method's name, one of the seven verbs and a clean path. */
  lemma {:induction false} RoutesOfShape(base: string, name: string, comments: seq<string>)
    requires IsRooted(base)
    ensures forall k :: 0 <= k < |RoutesOf(base, name, comments)| ==>
      var m := RoutesOf(base, name, comments)[k];
      m.name == name && m.verb in Verbs && IsClean(m.apiPath)
    decreases |comments|
  {
    if |comments| > 0 {
      var p := comments[..|comments| - 1];
      RoutesOfShape(base, name, p);
      var rest := RoutesOf(base, name, p);
      var last := RouteOf(base, name, comments[|comments| - 1]);
      forall k | 0 <= k < |RoutesOf(base, name, comments)|
        ensures var m := RoutesOf(base, name, comments)[k]; m.name == name && m.verb in Verbs && IsClean(m.apiPath)
      {
        if k < |rest| {
          assert RoutesOf(base, name, comments)[k] == rest[k];
        } else {
          assert RoutesOf(base, name, comments)[k] == last[k - |rest|];
        }
      }
    }
  }

  /**
   * A route comment on a controller at `/api/users` declaring `/all`
   * gives the route `/api/users/all`; one declaring `/` sits at the base itself.
   */
  lemma RouteUnderBase(base: string, name: string, verb: string, path: string)
    requires IsClean(base) && verb in Verbs
    requires IsClean(path) && '\n' !in path
    ensures RoutesOf(base, name, [RouteLine(verb, path)])
         == [MethodInfo(verb, if path == "/" then base else if base == "/" then path else base + path, name)]
  {
    RouteRoundTrip(verb, path);
    assert [RouteLine(verb, path)][..0] == [];
    if path == "/" {
      JoinRoot(base);
    } else {
      JoinClean(base, path);
    }
  }

  /**
   * Outcome of `ParseMethod`: nothing to report, the error for a lower-case
   * handler name, or the nil dereference (a Go panic) of a commented
   * function that has no receiver list.
   */
  datatype MethodOutcome = Done | Rejected(name: string) | NilReceiver

  datatype MethodResult = MethodResult(state: CtrlState, outcome: MethodOutcome)

  /**
   * `ParseMethod` on the tables. A method without comments, or whose
   * receiver is no known controller, changes nothing; a commented function
   * without a receiver list dereferences nil and fails. A
   * controller method whose name starts in lower case is rejected. Otherwise
   * its routes are appended to the controller's, and, when it has both
   * routes and annotations, the annotations are filed under its first route.
   */
  function MethodStep(s: CtrlState, recv: Option<seq<Field>>, name: string, comments: seq<string>): MethodResult
    requires WellFormed(s)
  {
    if |comments| == 0 then MethodResult(s, Done)
    else if recv.None? then MethodResult(s, NilReceiver)
    else
      var owner := ReceiverName(recv.value);
      if owner !in s.ctrls then MethodResult(s, Done)
      else if StartsLower(name) then MethodResult(s, Rejected(name))
      else
        var father := s.ctrls[owner];
        var routes := RoutesOf(father.basePath, name, comments);
        var annos := AnnotationsOf(comments);
        if |routes| == 0 then MethodResult(s, Done)
        else
          var ctrls := s.ctrls[owner := father.(apiCache := father.apiCache + routes)];
          MethodResult(CtrlState(ctrls, if |annos| > 0 then s.annos[routes[0].apiPath := annos] else s.annos), Done)
  }

  /** The handler case of `MethodStep`, with the routes and annotations named, for `ParseMethod`. */
  lemma MethodStepHandler(s: CtrlState, recv: Option<seq<Field>>, name: string, comments: seq<string>)
    requires WellFormed(s)
    requires OwnedBy(s, recv, comments) && !StartsLower(name)
    ensures var owner := ReceiverName(recv.value);
      var father := s.ctrls[owner];
      var routes := RoutesOf(father.basePath, name, comments);
      var annos := AnnotationsOf(comments);
      MethodStep(s, recv, name, comments)
        == if |routes| == 0 then MethodResult(s, Done)
           else MethodResult(CtrlState(s.ctrls[owner := father.(apiCache := father.apiCache + routes)],
                                       if |annos| > 0 then s.annos[routes[0].apiPath := annos] else s.annos), Done)
  {
  }

  /** Whether the method is a handler of a known controller. */
  predicate OwnedBy(s: CtrlState, recv: Option<seq<Field>>, comments: seq<string>)
  {
    |comments| > 0 && recv.Some? && ReceiverName(recv.value) in s.ctrls
  }

  /** A method is rejected exactly when it belongs to a controller and its name starts in lower case; then nothing changes. */
  lemma MethodStepRejects(s: CtrlState, recv: Option<seq<Field>>, name: string, comments: seq<string>)
    requires WellFormed(s)
    ensures MethodStep(s, recv, name, comments).outcome.Rejected? <==> OwnedBy(s, recv, comments) && StartsLower(name)
    ensures MethodStep(s, recv, name, comments).outcome.NilReceiver? <==> |comments| > 0 && recv.None?
    ensures !OwnedBy(s, recv, comments) || StartsLower(name) ==> MethodStep(s, recv, name, comments).state == s
  {
  }

  /**
   * A method without comments, or with comments on a receiver that names no
   * registered controller (a value receiver names none), is skipped silently.
   */
  lemma MethodStepSkips(s: CtrlState, recv: Option<seq<Field>>, name: string, comments: seq<string>)
    requires WellFormed(s)
    requires |comments| == 0 || (recv.Some? && ReceiverName(recv.value) !in s.ctrls)
    ensures MethodStep(s, recv, name, comments) == MethodResult(s, Done)
  {
  }

  /**
   * A handler appends its routes to its own controller, and only there:
   * every controller keeps its base path, every other one its routes, and
   * the tables stay well formed.
   */
  lemma MethodStepRoutes(s: CtrlState, recv: Option<seq<Field>>, name: string, comments: seq<string>)
    requires WellFormed(s)
    requires OwnedBy(s, recv, comments) && !StartsLower(name)
    ensures var r := MethodStep(s, recv, name, comments).state;
      var owner := ReceiverName(recv.value);
      && r.ctrls.Keys == s.ctrls.Keys
      && r.ctrls[owner].basePath == s.ctrls[owner].basePath
      && r.ctrls[owner].apiCache == s.ctrls[owner].apiCache + RoutesOf(s.ctrls[owner].basePath, name, comments)
      && (forall n :: n in s.ctrls && n != owner ==> r.ctrls[n] == s.ctrls[n])
      && WellFormed(r)
  {
    var owner := ReceiverName(recv.value);
    var father := s.ctrls[owner];
    RoutesOfShape(father.basePath, name, comments);
  }

  /**
   * Annotations are filed only under the path of the method's first route,
   * and only when the method has a route and an annotation.
   */
  lemma MethodStepAnnotations(s: CtrlState, recv: Option<seq<Field>>, name: string, comments: seq<string>)
    requires WellFormed(s)
    requires OwnedBy(s, recv, comments) && !StartsLower(name)
    ensures var r := MethodStep(s, recv, name, comments).state;
      var routes := RoutesOf(s.ctrls[ReceiverName(recv.value)].basePath, name, comments);
      && (forall p :: p in s.annos && (routes == [] || p != routes[0].apiPath) ==> p in r.annos && r.annos[p] == s.annos[p])
      && (forall p :: p in r.annos && p !in s.annos ==> routes != [] && p == routes[0].apiPath)
      && (routes != [] && |AnnotationsOf(comments)| > 0 ==> routes[0].apiPath in r.annos && r.annos[routes[0].apiPath] == AnnotationsOf(comments))
      && (routes == [] || |AnnotationsOf(comments)| == 0 ==> r.annos == s.annos)
  {
  }

  /** `ParseMethod` keeps the tables well formed. */
  lemma MethodStepWellFormed(s: CtrlState, recv: Option<seq<Field>>, name: string, comments: seq<string>)
    requires WellFormed(s)
    ensures WellFormed(MethodStep(s, recv, name, comments).state)
  {
    if OwnedBy(s, recv, comments) && !StartsLower(name) {
      MethodStepRoutes(s, recv, name, comments);
    }
  }

  /**
   * The comment loop of `ParseStruct`: the first base-path line, joined to
   * the context path, ends the scan.
   */
  method ScanBasePath(context: string, comments: seq<string>) returns (basePath: string)
    requires IsClean(context)
    ensures basePath == BasePathOf(context, comments)
  {
    basePath := context;
    var i := 0;
    while i < |comments|
      invariant 0 <= i <= |comments|
      invariant forall k :: 0 <= k < i ==> MatchBasePath(comments[k]).None?
      invariant basePath == context
    {
      var sub := MatchBasePath(comments[i]);
      if sub.Some? {
        FirstBasePathLineAt(comments, i);
        basePath := Join(basePath, sub.value);
        return;
      }
      i := i + 1;
    }
    FirstBasePathLineAt(comments, i);
  }

  /**
   * One comment line of `ParseMethod`'s loop: a route line adds a route
   * under the controller's base path, another annotation line sets its key,
   * and a line of neither shape changes nothing.
   */
  method ScanLine(base: string, name: string, line: string, methods: seq<MethodInfo>, annotations: map<string, string>)
    returns (methods': seq<MethodInfo>, annotations': map<string, string>)
    requires IsRooted(base)
    ensures methods' == methods + RouteOf(base, name, line)
    ensures annotations' == AnnoOf(annotations, line)
  {
    methods', annotations' := methods, annotations;
    var route := MatchRoute(line);
    if route.Some? {
      methods' := methods + [MethodInfo(route.value.verb, Join(base, route.value.path), name)];
    } else {
      var anno := MatchAnno(line);
      if anno.Some? {
        annotations' := annotations[anno.value.key := anno.value.value];
      }
    }
  }

  /**
   * The comment loop of `ParseMethod`: every line is scanned in order, so
   * the routes and annotations are those of the whole comment block.
   */
  method ScanComments(base: string, name: string, comments: seq<string>)
    returns (methods: seq<MethodInfo>, annotations: map<string, string>)
    requires IsRooted(base)
    ensures methods == RoutesOf(base, name, comments)
    ensures annotations == AnnotationsOf(comments)
  {
    methods := [];
    annotations := map[];
    var i := 0;
    while i < |comments|
      invariant 0 <= i <= |comments|
      invariant methods == RoutesOf(base, name, comments[..i])
      invariant annotations == AnnotationsOf(comments[..i])
    {
      RoutesOfStep(base, name, comments, i);
      methods, annotations := ScanLine(base, name, comments[i], methods, annotations);
      i := i + 1;
    }
    assert comments[..|comments|] == comments;
  }

  /**
   * `CtrlParser`: the context path and the two tables. Controllers are
   * values here; in Go each entry is a pointer that `ParseMethod` updates
   * through, which the map update expresses.
   */
  class CtrlParser {
    const contextPath: string
    var ctrlCache: map<string, CtrlInfo>
    var annoCache: map<string, map<string, string>>

    function State(): CtrlState
      reads this
    {
      CtrlState(ctrlCache, annoCache)
    }

    predicate Valid()
      reads this
    {
      IsClean(contextPath) && WellFormed(State())
    }

    /** `NewCtrlParser`: empty tables under the given (already cleaned) context path. */
    constructor(contextPath: string)
      requires IsClean(contextPath)
      ensures Valid()
      ensures this.contextPath == contextPath && ctrlCache == map[] && annoCache == map[]
    {
      this.contextPath := contextPath;
      ctrlCache := map[];
      annoCache := map[];
    }

    /** `ParseStruct`: registers the struct as a controller at its base path. */
    method ParseStruct(comments: seq<string>, meta: StructMeta)
      requires Valid()
      modifies this
      ensures Valid()
      ensures State() == StructStep(old(State()), contextPath, comments, meta.name)
    {
      var basePath := ScanBasePath(contextPath, comments);
      ctrlCache := ctrlCache[meta.name := CtrlInfo(basePath, [])];
      StructStepEffect(old(State()), contextPath, comments, meta.name);
    }

    /**
     * `ParseMethod`: adds a handler's routes and annotations, rejects a
     * lower-case handler, or fails on a commented function without receiver.
     */
    method ParseMethod(recv: Option<seq<Field>>, name: string, comments: seq<string>) returns (outcome: MethodOutcome)
      requires Valid()
      modifies this
      ensures Valid()
      ensures MethodStep(old(State()), recv, name, comments) == MethodResult(State(), outcome)
    {
      ghost var s0 := State();
      MethodStepWellFormed(s0, recv, name, comments);
      if |comments| == 0 {
        return Done;
      }
      if recv.None? {
        return NilReceiver;
      }
      var receiverName := SearchReceiver(recv.value);
      if receiverName !in ctrlCache {
        return Done;
      }
      var father := ctrlCache[receiverName];
      if |name| > 0 && IsLowerAscii(name[0]) {
        return Rejected(name);
      }
      var methods, annotations := ScanComments(father.basePath, name, comments);
      MethodStepHandler(s0, recv, name, comments);
      if |methods| > 0 {
        ctrlCache := ctrlCache[receiverName := father.(apiCache := father.apiCache + methods)];
        if |annotations| > 0 {
          annoCache := annoCache[methods[0].apiPath := annotations];
        }
      }
      return Done;
    }
  }
}
