# gp-ast metadata extraction, modelled in Dafny

gp-ast is a build-time generator for the gin-plus web framework. It walks a Go
source tree. It finds structs that embed `mvc.Controller` (route handlers) or
`ioc.Bean` (dependency-injection components), and it reads the comment lines
above them and their methods. From these it builds three tables:

- controllers by struct name, each with its base path and its routes;
- beans by struct name;
- annotation maps by route path.

This project models how those tables are built and proves properties of that
process:

- `Ast` — `parseFile` in ast.go. It folds a file's imports into the two
  marker aliases and a flag set, and skips files that import neither marker
  path. Of each `type` declaration it classifies only the first spec, and only when that spec declares a struct. It
  hands functions to the controller parser only when the file imports the mvc
  path. It also covers the context-path normalisation and comma lists of
  `Main`, and the walk callback's file filter of `doScan`. `AstParser` is a
  class that owns the two parser objects.
- `CtrlParsing` — core/ctrl_parser.go. `CtrlParser` is a class holding the
  `ctrlCache` and `annoCache` maps. `ParseStruct` fixes a controller's base
  path. `ParseMethod` appends routes in comment order and files a method's
  annotations under its first route. `searchReceiver` is a loop.
- `Annotations` — the three regular expressions of core/ctrl_parser.go:43-45,
  written as hand-made matchers. They give the captures of Go's
  leftmost-first engine, quirks included:
  - `\s+` demands white space after `//`;
  - `[A-zA-z]` also holds `[`, `\`, `]`, `^`, `_` and the backtick;
  - `(BasePath)+` and `(GET|…)+` accept repeated words, and the route's
    capture keeps the last verb;
  - the route pattern has no `$`, so its greedy path runs to the last `")`
    of the line.
- `Paths` — Go's `path.Clean` and `path.Join` on rooted paths.
- `BeanParsing` — core/bean_parser.go. `BeanParser` is a class whose
  `beanCache` keeps the first registration of a name. It also models the
  registration item each entry becomes.
- `Utils` — `SplitAndTrim` of util/utils.go, as a method with its loop.
- `Strings`, `Syntax`, `Meta`, `Enum`, `Wrappers` — support modules:
  - `Strings`: Go's `strings.Split`, `Trim` and `TrimSpace`, and an ASCII
    lower-case test;
  - `Syntax`: the parts of the Go syntax tree that are read;
  - `Meta`: the struct metadata record;
  - `Enum`: the constants of enum/enums.go;
  - `Wrappers`: an `Option` type.

Each class method is proved against a function on values (`StructStep`,
`MethodStep`, `BeanStep`, `FieldsStep`, `DeclStep`, `ParseFileSpec`). Its
`ensures` states the new tables as that function of the old ones. The
properties are proved as lemmas about these functions.

Behaviour of the code that a reader may not expect, kept as written:

- A duplicate struct name is not fatal. The bean table keeps the first
  struct. The controller table takes a fresh entry for the later struct,
  which drops the routes of the earlier one (`DuplicateStruct`).
- The error for a lower-case handler name is returned and then ignored by
  `parseFile` (`RejectedMethodIgnored`). It fires for any commented method
  of a known controller, even one without route comments.
- On a method, `@BasePath(...)` is only a generic annotation with key
  `@BasePath` and an empty value (`BasePathLineOnMethod`). Route lines take
  priority over annotation lines.
- Annotations are attached to the first route only.
- Inside `parseFile`, the `continue` after a `Controller` field moves on to
  the next field. Every `Controller` field therefore calls `ParseStruct`
  again; the last call leaves the same fresh entry.
- A commented function without a receiver and with a lower-case name reaches
  `funcDecl.Recv.List` on a nil receiver list, which is a Go panic. The
  model gives it the outcome `NilReceiver`, which ends the file with
  `Panicked` (`PanicOnlyForPlainFunctions`).

## Model

| member | source | states |
|---|---|---|
| `Utils.SplitAndTrim` | util/utils.go:6-22 | the result is the comma pieces cleaned in order with empty ones dropped; empty input gives the empty list; every item is non-empty, has no `/` at either end and holds no comma |
| `Utils.CleanPieces` | util/utils.go:14-21 | the loop keeps exactly the pieces whose whitespace-then-slash trim is non-empty, in order, and never yields more items than pieces |
| `Utils.SplitAndTrimItems` | util/utils.go:11-17 | every item is a proper list item, and there are at most as many items as commas plus one |
| `Utils.SplitAndTrimConcat` | util/utils.go:11-20 | the list of `a,b` is the list of `a` followed by that of `b`, so items keep their input order |
| `Utils.InnerSpaceSurvives` | util/utils.go:15-16 | white space is trimmed before slashes, so `/ a` gives ` a` |
| `Strings.SplitLength` | util/utils.go:11 | `strings.Split` yields one more piece than there are separators |
| `Strings.JoinSplit` | util/utils.go:11 | joining the pieces of a split gives back the input |
| `Paths.Clean` | ast.go:47 | cleaning a rooted path gives a clean path: the root, or `/`-joined segments none of which is empty, `.` or `..` |
| `Paths.CleanFixesClean` | ast.go:47 | a clean path is its own cleaning |
| `Paths.CleanIdempotent` | ast.go:47 | cleaning twice is cleaning once |
| `Paths.Join` | core/ctrl_parser.go:57 | joining onto a rooted base gives a clean path |
| `Paths.JoinClean` | core/ctrl_parser.go:92 | a clean base joined with a clean path other than `/` is their concatenation, or the path itself under the root base |
| `Paths.JoinRoot` | core/ctrl_parser.go:92 | joining a clean base with `/` or with the empty path gives the base back |
| `Annotations.MatchBasePath` | core/ctrl_parser.go:43 | a base-path match yields a path starting with `/` and needs the line to end in `")` |
| `Annotations.MatchRoute` | core/ctrl_parser.go:44 | a route match yields one of the seven verbs and a path starting with `/` |
| `Annotations.MatchAnno` | core/ctrl_parser.go:45 | an annotation match yields a key of `@` and at least one key character |
| `Annotations.NoSpaceNoMatch` | core/ctrl_parser.go:43-45 | none of the three patterns matches without white space between `//` and `@` |
| `Annotations.BasePathRoundTrip` | core/ctrl_parser.go:43 | `// @BasePath("p")` yields `p` for every rooted one-line path |
| `Annotations.BasePathRepeated` | core/ctrl_parser.go:43 | `(BasePath)+` also accepts `@BasePathBasePath("p")` |
| `Annotations.BasePathAnchored` | core/ctrl_parser.go:43 | trailing text after the closing `")` makes the base-path pattern fail |
| `Annotations.BasePathOneLine` | core/ctrl_parser.go:43 | a base path holds no newline |
| `Annotations.RouteRoundTrip` | core/ctrl_parser.go:44 | `// @VERB(path="p")` yields the verb and `p` for each of the seven verbs and every rooted one-line path |
| `Annotations.RouteLastVerbWins` | core/ctrl_parser.go:44 | with repeated verbs such as `@GETPOST`, the capture is the last verb |
| `Annotations.GreedyPathLast` | core/ctrl_parser.go:44 | the greedy route path is a prefix of the text after `path="` followed by `")`, and no later `")` starts on that line; without a match no `")` starts on that line after its first character |
| `Annotations.GreedyRoutePath` | core/ctrl_parser.go:44 | example: the line `// @GET(path="/a")")` captures the path `/a")` |
| `Annotations.LowerCaseVerbIsNoRoute` | core/ctrl_parser.go:44 | verbs are case-sensitive: `@get(...)` is no route |
| `Annotations.RouteOneLine` | core/ctrl_parser.go:44 | a route path holds no newline |
| `Annotations.AnnoRoundTrip` | core/ctrl_parser.go:45 | `// @key -> value` yields `@key` and `value` |
| `Annotations.AnnoBare` | core/ctrl_parser.go:45 | without an arrow the value is empty |
| `Annotations.UnderscoreInKey` | core/ctrl_parser.go:45 | the class `[A-zA-z]` takes `_`, so `@a_b` is one key |
| `Annotations.AnnoShape` | core/ctrl_parser.go:45 | the key is `@` followed by characters between `A` and `z`; the value holds no newline |
| `Annotations.BasePathLineOnMethod` | core/ctrl_parser.go:88-99 | a base-path line is no route, and as an annotation it is key `@BasePath` with an empty value |
| `Annotations.RouteLineAnno` | core/ctrl_parser.go:45 | the annotation pattern reads a route line `// @VERB(path="…")` as the key `@VERB` with an empty value |
| `CtrlParsing.CtrlParser.constructor` | core/ctrl_parser.go:38-49 | a new parser has the given context path and two empty tables |
| `CtrlParsing.CtrlParser.ParseStruct` | core/ctrl_parser.go:51-64 | the new tables are `StructStep` of the old ones, and stay well formed |
| `CtrlParsing.ScanBasePath` | core/ctrl_parser.go:54-60 | the comment scan stops at the first base-path line and yields `BasePathOf`: the context joined with that line's path, or the context when no line has one |
| `CtrlParsing.StructStepEffect` | core/ctrl_parser.go:51-64 | the struct gets a fresh entry with no routes at a clean base path, replacing any earlier entry; other controllers and the annotations are untouched |
| `CtrlParsing.FirstBasePathLineIsFirst` | core/ctrl_parser.go:55-59 | the line found is the first base-path line, and no line is one when none is found |
| `CtrlParsing.BasePathDefault` | core/ctrl_parser.go:54-60 | without a base-path comment the base path is the context path |
| `CtrlParsing.BasePathFirstWins` | core/ctrl_parser.go:55-59 | comment lines after the first base-path line do not change the base path |
| `CtrlParsing.BasePathAppends` | core/ctrl_parser.go:57 | `@BasePath("/users")` under the context `/api` gives `/api/users` |
| `CtrlParsing.SearchReceiver` | core/ctrl_parser.go:137-146 | the loop returns the name of the first receiver written as `*Name`, or `""` |
| `CtrlParsing.ReceiverNameFirst` | core/ctrl_parser.go:137-146 | the name comes from the first pointer-to-identifier receiver, and is `""` when there is none |
| `CtrlParsing.ValueReceiverIgnored` | core/ctrl_parser.go:139-145 | a value receiver `T` names no controller, and a later `*T` receiver does |
| `CtrlParsing.ScanLine` | core/ctrl_parser.go:88-100 | a route line adds its route under the base path; any other annotation line sets its key; other lines change nothing |
| `CtrlParsing.ScanComments` | core/ctrl_parser.go:86-101 | the comment loop yields exactly the routes and the annotation map of the comment lines |
| `CtrlParsing.CtrlParser.ParseMethod` | core/ctrl_parser.go:66-112 | the new tables and the outcome are `MethodStep` of the old tables |
| `CtrlParsing.MethodStepSkips` | core/ctrl_parser.go:67-77 | a method without comments, or whose receiver names no registered controller, changes nothing and reports nothing |
| `CtrlParsing.MethodStepRejects` | core/ctrl_parser.go:72-81 | a method is rejected exactly when it is commented, belongs to a known controller and has a lower-case name; it panics exactly when it is commented and has no receiver list; rejected or skipped, it changes nothing |
| `CtrlParsing.MethodStepRoutes` | core/ctrl_parser.go:87-105 | a handler's routes come after its controller's earlier ones; no base path changes, no other controller changes, and the tables stay well formed |
| `CtrlParsing.MethodStepAnnotations` | core/ctrl_parser.go:104-108 | annotations land under the first route's path only when the method has a route and an annotation; that entry is overwritten, and every other path keeps its map |
| `CtrlParsing.MethodStepWellFormed` | core/ctrl_parser.go:66-112 | every base path and every route path in the tables stays a clean rooted path |
| `CtrlParsing.RoutesOfAppend` | core/ctrl_parser.go:87-94 | the routes of two comment blocks are the routes of the first followed by those of the second, so comment order is kept |
| `CtrlParsing.RoutesOfShape` | core/ctrl_parser.go:89-93 | every route carries the method's name, one of the seven verbs and a clean path |
| `CtrlParsing.RouteUnderBase` | core/ctrl_parser.go:92 | a route `/all` under base `/api/users` is `/api/users/all`; `path="/"` gives the base itself |
| `CtrlParsing.RouteLineNoAnnotation` | core/ctrl_parser.go:88-99 | a route line also matches the annotation pattern (key `@VERB`, empty value), yet appending it to a comment block leaves the annotation map unchanged, for every verb and rooted one-line path |
| `CtrlParsing.AnnotationsOfKeys` | core/ctrl_parser.go:95-99 | a key is in a method's annotation map exactly when some non-route line is an annotation with that key |
| `CtrlParsing.AnnotationsOfLastWins` | core/ctrl_parser.go:99 | a repeated key keeps the value of its last line |
| `BeanParsing.BeanParser.constructor` | core/bean_parser.go:16-20 | a new parser has an empty bean table |
| `BeanParsing.BeanParser.ParseBean` | core/bean_parser.go:23-27 | the new table is `BeanStep` of the old one, and every entry stays filed under its own name |
| `BeanParsing.BeanStep` | core/bean_parser.go:23-27 | the keys grow by the struct's name only; existing entries are untouched; a new name maps to the struct |
| `BeanParsing.BeanStepIdempotent` | core/bean_parser.go:24-26 | registering the same struct twice is registering it once |
| `BeanParsing.BeanStepFirstWins` | core/bean_parser.go:24-26 | a later struct of a taken name changes nothing, and the first one stays |
| `BeanParsing.BeanStepSize` | core/bean_parser.go:23-27 | the table grows by one for a new name and by none for a known one |
| `BeanParsing.RegistrationItem` | core/bean_parser.go:43-48 | an entry with an empty import path gives the local item `&Name{}`, any other entry the item qualified by its import path and package |
| `BeanParsing.RegistrationOnePerEntry` | core/bean_parser.go:42-49 | walking every entry once gives exactly one item per entry, each naming its entry |
| `Ast.NormalizeContext` | ast.go:44-47 | the stored context path is clean and rooted |
| `Ast.NormalizeContextKeepsClean` | ast.go:44-47 | a clean context path is stored as given |
| `Ast.NormalizeContextIdempotent` | ast.go:44-47 | normalising twice is normalising once |
| `Ast.NormalizeEmptyContext` | ast.go:44-47 | the empty context becomes `/` |
| `Ast.NormalizeContextExample` | ast.go:44-47 | `api/` becomes `/api` |
| `Ast.AstParser.constructor` | ast.go:40-80 | the context is normalised, the package and skip lists are the `SplitAndTrim` lists, and both tables start empty |
| `Ast.WalkDecision` | ast.go:102-123 | `SkipDir` is returned exactly when the path starts with `.` or the entry is a directory on the skip list; the file is parsed exactly when it is a non-directory `.go` file outside those, not a `_test.go` file and not one of the two generated files; any other directory is walked into |
| `Ast.WalkDecisionExamples` | ast.go:115-121 | the generated `gp_bean_init.go` and a `_test.go` file are passed over; `a.go` is parsed |
| `Ast.ResolveImport` | ast.go:144-161 | one import is one `AliasStep`: a marker path sets its flag and its alias, any other path changes nothing |
| `Ast.ResolveImports` | ast.go:140-162 | the import loop computes `FoldImports` of the imports |
| `Ast.FoldImportsResolves` | ast.go:143-162 | `BeanFlag` is set exactly when the bean path is imported, and `MvcFlag` exactly when the mvc path is; each alias is the explicit name of the last import of its path, else `ioc` or `mvc`, and `""` when the path is not imported |
| `Ast.NoMarkerNoChange` | ast.go:163-166 | a file importing neither marker path changes no table and ends normally |
| `Ast.MarkerReadsDecls` | ast.go:163-168 | a file importing a marker path has its declarations read in order |
| `Ast.FieldsStepEffect` | ast.go:181-194 | after a struct's fields, the controller table holds the struct afresh exactly when some field is `<mvc>.Controller`, and the bean table has seen one registration exactly when some field is a marker |
| `Ast.StructRegistered` | ast.go:181-194 | a controller struct ends up in both tables, a struct with only bean fields in the bean table alone, and one without marker fields in neither; other entries and the annotations are untouched |
| `Ast.DuplicateStruct` | ast.go:184-187 | a second controller struct of the same name keeps the first in the bean table and gets a fresh controller entry |
| `Ast.OnlyFirstSpec` | ast.go:171-174 | specs after the first in a grouped `type (...)` declaration are never registered |
| `Ast.FuncWithoutMvc` | ast.go:199-204 | without the mvc import a function declaration changes nothing |
| `Ast.RejectedMethodIgnored` | ast.go:199-204 | the lower-case handler error leaves the tables unchanged and the scan goes on with the next declaration |
| `Ast.PanicOnlyForPlainFunctions` | ast.go:199-204 | the scan stops exactly at a commented, receiver-less, lower-case function in a file that imports the mvc path |
| `Ast.NoPanicWithoutPlainComments` | ast.go:168-208 | a file whose receiver-less functions carry no comments is read to its end |
| `Ast.AstParser.ParseField` | ast.go:182-192 | one field leaves the tables as `FieldStep` of the old ones |
| `Ast.AstParser.ParseStructFields` | ast.go:181-194 | the field loop leaves the tables as `FieldsStep` of the old ones |
| `Ast.AstParser.ParseDecl` | ast.go:169-207 | one declaration leaves the tables and outcome as `DeclStep` of the old tables |
| `Ast.AstParser.ParseFile` | ast.go:133-211 | the tables and outcome after a file are `ParseFileSpec` of the old tables |

## Left out

- Directory walking, `filepath.Abs`, `os.Stat`, `os.Getwd` and the
  `log.Fatalf` exits (ast.go:49-65, 78, 98-130) are I/O and process control.
  `doScan` is modelled by its callback's decision alone (`WalkDecision`).
  The callback's test for a path starting with `.` (ast.go:102-104) is
  kept, although the walk roots are absolute paths (ast.go:55-62), so that
  test never fires in the program. For a file, `filepath.Walk` reads
  `SkipDir` as "skip the rest of this directory", which the model does not
  follow, since the walk itself is not modelled.
- `Ast.AstParser.constructor`: the package list holds the cleaned names
  rather than their absolute paths, because `filepath.Abs` and `os.Stat`
  read the file system.
- The Go syntax-tree parser (ast.go:135) is replaced by the datatypes of
  `Syntax`. Its parse error (ast.go:136-138) is not modelled.
- The import path of a struct comes from `importPathRegex` (ast.go:81, 178).
  That depends on the working directory and panics when nothing matches. It
  is a parameter (`ipath`) of `ParseFile` here.
- Both `Generate` methods (core/ctrl_parser.go:114-134,
  core/bean_parser.go:30-70) are left out: JSON and base64 encoding, code
  emission, file writes and timestamps are foreign libraries and I/O. Bean
  emission also walks a Go map in an unspecified order. Only the registration
  item per entry is modelled, for a given walk order.
- `unicode.IsLower` (ast.go:200, core/ctrl_parser.go:79) is modelled for
  ASCII letters only. A name starting with a non-ASCII lower-case letter
  counts as upper case here.
- `Strings.IsGoSpace`: `strings.TrimSpace` is modelled with Go's Unicode
  white-space set. Strings are sequences of code points, not UTF-8 bytes.
- In Go each controller entry is a pointer that `ParseMethod` updates in
  place. Here the table holds values, and the map update stands in for the
  write through the pointer. No other code holds those pointers before
  `Generate`, so no aliasing is lost.
- The model accepts identifiers that Go syntax never produces, such as an
  empty one. An empty alias therefore stands for "marker not imported",
  exactly as the Go variable's zero value does.
- The `StructMeta` record is defined in a core file that is not part of this
  model. Its three fields are taken from their uses in ast.go:175-179 and
  core/bean_parser.go:43-47.
