/**
 * The per-file driver of ast.go: the command-line set-up of `Main` (context
 * path and comma lists), the walk callback's file filter of `doScan`, and
 * `parseFile`, which folds a file's imports into the two marker aliases,
 * leaves files without a marker import alone, registers controller and bean
 * structs, and hands methods to the controller parser.
 */
module Ast {
  import opened Wrappers
  import opened Strings
  import opened Paths
  import opened Enum
  import opened Syntax
  import opened Meta
  import Utils
  import opened CtrlParsing
  import opened BeanParsing

  // ---------------------------------------------------------------- Main

  /** The context path as `Main` stores it: `/` put in front when missing, then cleaned. */
  function NormalizeContext(context: string): (r: string)
    ensures IsClean(r)
  {
    Clean(if HasPrefix(context, "/") then context else "/" + context)
  }

  /** A context path that is already clean is stored as given. */
  lemma NormalizeContextKeepsClean(context: string)
    requires IsClean(context)
    ensures NormalizeContext(context) == context
  {
    CleanFixesClean(context);
  }

  /** Normalising twice is normalising once. */
  lemma NormalizeContextIdempotent(context: string)
    ensures NormalizeContext(NormalizeContext(context)) == NormalizeContext(context)
  {
    NormalizeContextKeepsClean(NormalizeContext(context));
  }

  /** The empty context is the root. */
  lemma NormalizeEmptyContext()
    ensures NormalizeContext("") == "/"
  {
    assert !HasPrefix("", "/");
    assert "/" + "" == "/";
    RootIsClean();
  }

  /** `api/` loses its trailing slash and gains a leading one. */
  lemma NormalizeContextExample()
    ensures NormalizeContext("api/") == "/api"
  {
    var p := "/" + "api/";
    assert NormalizeContext("api/") == Clean(p) by { assert "api/"[0] == 'a'; }
    assert Split(p[1..], '/') == ["api", ""] by {
      assert p[1..] == "api" + ['/'] + "";
      SplitAppend("api", "", '/');
      SplitNoSep("api", '/');
      assert Split("", '/') == [""];
    }
    assert Resolve([], ["api", ""]) == ["api"] by {
      assert Step([], "api") == ["api"];
      assert Step(["api"], "") == ["api"];
    }
    assert JoinWith(["api"], '/') == "api";
    assert Clean(p) == "/" + "api";
  }

  // ---------------------------------------------------------------- doScan

  /** What the walk callback of `doScan` does with one entry. */
  datatype WalkStep = SkipDir | Next | ParseIt

  function WalkDecision(filePath: string, name: string, isDir: bool, skips: seq<string>): (d: WalkStep)
    ensures d == SkipDir <==> HasPrefix(filePath, ".") || (isDir && name in skips)
    ensures d == ParseIt <==>
      && !HasPrefix(filePath, ".") && !isDir && HasSuffix(name, ".go")
      && !HasSuffix(filePath, "_test.go") && name != BeanInitFile && name != ApiDefFile
    ensures isDir && !HasPrefix(filePath, ".") && name !in skips ==> d == Next
  {
    if HasPrefix(filePath, ".") then SkipDir
    else if isDir then (if name in skips then SkipDir else Next)
    else if name == BeanInitFile || name == ApiDefFile || !HasSuffix(name, ".go") || HasSuffix(filePath, "_test.go")
    then Next
    else ParseIt
  }

  /**
   * The generated init file ends in `.go` but is never parsed again, and an
   * ordinary Go file outside hidden and skipped places is.
   */
  lemma WalkDecisionExamples(skips: seq<string>)
    ensures WalkDecision("/src/gp_bean_init.go", BeanInitFile, false, skips) == Next
    ensures WalkDecision("/src/a_test.go", "a_test.go", false, skips) == Next
    ensures WalkDecision("/src/a.go", "a.go", false, skips) == ParseIt
  {
    assert "/src/gp_bean_init.go"[0] == '/' && "/src/a_test.go"[0] == '/' && "/src/a.go"[0] == '/';
    assert HasSuffix("/src/a_test.go", "_test.go");
    var p := "/src/a.go";
    assert p[|p| - 8..] != "_test.go" by { assert p[|p| - 8..][0] == 's'; }
    assert HasSuffix("a.go", ".go");
    assert "a.go" != BeanInitFile && "a.go" != ApiDefFile;
  }

  // ---------------------------------------------------------------- imports

  /** The import path with its quotes removed (`strings.Trim(value, "\"")`). */
  function ImportPathOf(imp: Import): string
  {
    Trim(imp.pathLit, Char('"'))
  }

  /** The local name of an import: the explicit one, else the package's default. */
  function AliasOr(imp: Import, default: string): string
  {
    match imp.name
    case Some(n) => n
    case None => default
  }

  /** The two marker aliases ("" when the marker is not imported) and the flag bits. */
  datatype Aliases = Aliases(bean: string, mvc: string, flag: bv8)

  /** What one import does to the aliases. */
  function AliasStep(a: Aliases, imp: Import): Aliases
  {
    var path := ImportPathOf(imp);
    if path == BeanImportPath then a.(flag := a.flag | BeanFlag, bean := AliasOr(imp, "ioc"))
    else if path == MvcImportPath then a.(flag := a.flag | MvcFlag, mvc := AliasOr(imp, "mvc"))
    else a
  }

  /** The aliases after reading the imports in order. */
  function FoldImports(imports: seq<Import>): Aliases
  {
    if |imports| == 0 then Aliases("", "", 0)
    else AliasStep(FoldImports(imports[..|imports| - 1]), imports[|imports| - 1])
  }

  /** The last import of the given path, if there is one. */
  function LastImport(imports: seq<Import>, path: string): (r: Option<nat>)
    ensures r.Some? ==> r.value < |imports| && ImportPathOf(imports[r.value]) == path
  {
    if |imports| == 0 then None
    else if ImportPathOf(imports[|imports| - 1]) == path then Some(|imports| - 1)
    else LastImport(imports[..|imports| - 1], path)
  }

  predicate Imports(imports: seq<Import>, path: string)
  {
    LastImport(imports, path).Some?
  }

  /** The alias a marker path gets: that of its last import, or "" when it is not imported. */
  function AliasOf(imports: seq<Import>, path: string, default: string): string
  {
    match LastImport(imports, path)
    case None => ""
    case Some(k) => AliasOr(imports[k], default)
  }

  lemma MarkerPathsDiffer()
    ensures BeanImportPath != MvcImportPath
  {
    assert BeanImportPath[|BeanImportPath| - 1] == 'c';
    assert MvcImportPath[|MvcImportPath| - 1] == 'c';
    assert BeanImportPath[|BeanImportPath| - 2] != MvcImportPath[|MvcImportPath| - 2];
  }

  /**
   * The fold sets `BeanFlag` exactly when the bean path is imported and
   * `MvcFlag` exactly when the mvc path is, and nothing else; each alias is
   * the explicit name of the last import of its path, else `ioc` or `mvc`.
   */
  lemma {:induction false} FoldImportsResolves(imports: seq<Import>)
    ensures FoldImports(imports).flag
         == (if Imports(imports, BeanImportPath) then BeanFlag else 0) | (if Imports(imports, MvcImportPath) then MvcFlag else 0)
    ensures FoldImports(imports).bean == AliasOf(imports, BeanImportPath, "ioc")
    ensures FoldImports(imports).mvc == AliasOf(imports, MvcImportPath, "mvc")
    decreases |imports|
  {
    if |imports| > 0 {
      var p := imports[..|imports| - 1];
      FoldImportsResolves(p);
      MarkerPathsDiffer();
      var last := imports[|imports| - 1];
      if ImportPathOf(last) != BeanImportPath {
        assert LastImport(imports, BeanImportPath) == LastImport(p, BeanImportPath);
        if LastImport(p, BeanImportPath).Some? {
          assert imports[LastImport(p, BeanImportPath).value] == p[LastImport(p, BeanImportPath).value];
        }
      }
      if ImportPathOf(last) != MvcImportPath {
        assert LastImport(imports, MvcImportPath) == LastImport(p, MvcImportPath);
        if LastImport(p, MvcImportPath).Some? {
          assert imports[LastImport(p, MvcImportPath).value] == p[LastImport(p, MvcImportPath).value];
        }
      }
    }
  }

  /** One import of `parseFile`: a marker path sets its flag and its alias. */
  method ResolveImport(aliases: Aliases, imp: Import) returns (aliases': Aliases)
    ensures aliases' == AliasStep(aliases, imp)
  {
    aliases' := aliases;
    var importPath := ImportPathOf(imp);
    if importPath == BeanImportPath {
      aliases' := aliases'.(flag := aliases'.flag | BeanFlag);
      match imp.name {
        case Some(n) => aliases' := aliases'.(bean := n);
        case None => aliases' := aliases'.(bean := "ioc");
      }
    } else if importPath == MvcImportPath {
      aliases' := aliases'.(flag := aliases'.flag | MvcFlag);
      match imp.name {
        case Some(n) => aliases' := aliases'.(mvc := n);
        case None => aliases' := aliases'.(mvc := "mvc");
      }
    }
  }

  /** The loop of `parseFile` over the imports. */
  method ResolveImports(imports: seq<Import>) returns (aliases: Aliases)
    ensures aliases == FoldImports(imports)
  {
    aliases := Aliases("", "", 0);
    var i := 0;
    while i < |imports|
      invariant 0 <= i <= |imports|
      invariant aliases == FoldImports(imports[..i])
    {
      assert imports[..i + 1][..i] == imports[..i];
      aliases := ResolveImport(aliases, imports[i]);
      i := i + 1;
    }
    assert imports[..|imports|] == imports;
  }

  // ---------------------------------------------------------------- registries

  /** The two parsers' tables together. */
  datatype Registry = Registry(ctrl: CtrlState, beans: map<string, StructMeta>)

  predicate RegValid(r: Registry)
  {
    WellFormed(r.ctrl) && KeyedByName(r.beans)
  }

  /** A field of type `<mvc alias>.Controller`. */
  predicate IsCtrlField(f: Field, al: Aliases)
  {
    f.typ.Selector? && f.typ.x.Ident? && f.typ.x.name == al.mvc && f.typ.sel == "Controller"
  }

  /** A field of type `<bean alias>.Bean`. */
  predicate IsBeanField(f: Field, al: Aliases)
  {
    f.typ.Selector? && f.typ.x.Ident? && f.typ.x.name == al.bean && f.typ.sel == "Bean"
  }

  /** What one struct field does: a controller field registers controller and bean, a bean field the bean. */
  function FieldStep(r: Registry, context: string, comments: seq<string>, meta: StructMeta, f: Field, al: Aliases): (r': Registry)
    requires RegValid(r) && IsClean(context)
    ensures RegValid(r')
  {
    if IsCtrlField(f, al) then
      StructStepEffect(r.ctrl, context, comments, meta.name);
      BeanStepKeyedByName(r.beans, meta);
      Registry(StructStep(r.ctrl, context, comments, meta.name), BeanStep(r.beans, meta))
    else if IsBeanField(f, al) then
      BeanStepKeyedByName(r.beans, meta);
      r.(beans := BeanStep(r.beans, meta))
    else r
  }

  /** The fields of a struct, read in order. */
  function FieldsStep(r: Registry, context: string, comments: seq<string>, meta: StructMeta, fields: seq<Field>, al: Aliases): (r': Registry)
    requires RegValid(r) && IsClean(context)
    ensures RegValid(r')
    decreases |fields|
  {
    if |fields| == 0 then r
    else FieldsStep(FieldStep(r, context, comments, meta, fields[0], al), context, comments, meta, fields[1..], al)
  }

  predicate HasCtrlField(fields: seq<Field>, al: Aliases)
  {
    exists k :: 0 <= k < |fields| && IsCtrlField(fields[k], al)
  }

  predicate HasMarkerField(fields: seq<Field>, al: Aliases)
  {
    exists k :: 0 <= k < |fields| && (IsCtrlField(fields[k], al) || IsBeanField(fields[k], al))
  }

  /** The controller table after the fields of a struct: the same, or the struct (re-)registered afresh. */
  function CtrlsAfter(s: CtrlState, context: string, comments: seq<string>, name: string, isCtrl: bool): CtrlState
    requires IsClean(context)
  {
    if isCtrl then StructStep(s, context, comments, name) else s
  }

  /**
   * A struct with a controller field ends up in both tables, one with only
   * bean fields in the bean table alone, one without marker fields in
   * neither. However many marker fields it has, in whatever order, the bean
   * table sees one registration, and the controller entry is a fresh one at
   * the struct's base path.
   */
  lemma {:induction false} FieldsStepEffect(r: Registry, context: string, comments: seq<string>, meta: StructMeta, fields: seq<Field>, al: Aliases)
    requires RegValid(r) && IsClean(context)
    ensures FieldsStep(r, context, comments, meta, fields, al)
         == Registry(CtrlsAfter(r.ctrl, context, comments, meta.name, HasCtrlField(fields, al)),
                     if HasMarkerField(fields, al) then BeanStep(r.beans, meta) else r.beans)
    decreases |fields|
  {
    if |fields| > 0 {
      var r1 := FieldStep(r, context, comments, meta, fields[0], al);
      var rest := fields[1..];
      FieldsStepEffect(r1, context, comments, meta, rest, al);
      HasFieldsCons(fields, al);
      BeanStepIdempotent(r.beans, meta);
    }
  }

  /** Whether a field list has a marker field: its first field, or one of the rest. */
  lemma HasFieldsCons(fields: seq<Field>, al: Aliases)
    requires |fields| > 0
    ensures HasCtrlField(fields, al) == (IsCtrlField(fields[0], al) || HasCtrlField(fields[1..], al))
    ensures HasMarkerField(fields, al)
         == (IsCtrlField(fields[0], al) || IsBeanField(fields[0], al) || HasMarkerField(fields[1..], al))
  {
    var rest := fields[1..];
    if HasCtrlField(fields, al) && !IsCtrlField(fields[0], al) {
      var k :| 0 <= k < |fields| && IsCtrlField(fields[k], al);
      assert rest[k - 1] == fields[k];
    }
    if HasCtrlField(rest, al) {
      var k :| 0 <= k < |rest| && IsCtrlField(rest[k], al);
      assert fields[k + 1] == rest[k];
    }
    if HasMarkerField(fields, al) && !(IsCtrlField(fields[0], al) || IsBeanField(fields[0], al)) {
      var k :| 0 <= k < |fields| && (IsCtrlField(fields[k], al) || IsBeanField(fields[k], al));
      assert rest[k - 1] == fields[k];
    }
    if HasMarkerField(rest, al) {
      var k :| 0 <= k < |rest| && (IsCtrlField(rest[k], al) || IsBeanField(rest[k], al));
      assert fields[k + 1] == rest[k];
    }
  }

  /** The classification in terms of the tables' names. */
  lemma StructRegistered(r: Registry, context: string, comments: seq<string>, meta: StructMeta, fields: seq<Field>, al: Aliases)
    requires RegValid(r) && IsClean(context)
    ensures var r' := FieldsStep(r, context, comments, meta, fields, al);
      && r'.ctrl.ctrls.Keys == r.ctrl.ctrls.Keys + (if HasCtrlField(fields, al) then {meta.name} else {})
      && r'.beans.Keys == r.beans.Keys + (if HasMarkerField(fields, al) then {meta.name} else {})
      && (HasCtrlField(fields, al) ==> r'.ctrl.ctrls[meta.name] == CtrlInfo(BasePathOf(context, comments), []))
      && (forall n :: n in r.ctrl.ctrls && n != meta.name ==> r'.ctrl.ctrls[n] == r.ctrl.ctrls[n])
      && r'.ctrl.annos == r.ctrl.annos
      && (meta.name !in r.beans && HasMarkerField(fields, al) ==> r'.beans[meta.name] == meta)
      && (forall n :: n in r.beans ==> r'.beans[n] == r.beans[n])
  {
    FieldsStepEffect(r, context, comments, meta, fields, al);
  }

  /**
   * A second struct of an already registered name is no error: the bean
   * table keeps the first struct, while the controller table holds a fresh
   * entry for the second, its earlier routes gone.
   */
  lemma DuplicateStruct(r: Registry, context: string, c1: seq<string>, m1: StructMeta, c2: seq<string>, m2: StructMeta, al: Aliases)
    requires RegValid(r) && IsClean(context) && m1.name == m2.name && m1.name !in r.beans
    ensures var ctrl := Field(Selector(Ident(al.mvc), "Controller"));
      var r' := FieldsStep(FieldsStep(r, context, c1, m1, [ctrl], al), context, c2, m2, [ctrl], al);
      && m1.name in r'.beans && r'.beans[m1.name] == m1
      && m1.name in r'.ctrl.ctrls && r'.ctrl.ctrls[m1.name] == CtrlInfo(BasePathOf(context, c2), [])
  {
    var ctrl := Field(Selector(Ident(al.mvc), "Controller"));
    assert IsCtrlField([ctrl][0], al);
    assert IsCtrlField([ctrl][0], al);
    assert HasCtrlField([ctrl], al) && HasMarkerField([ctrl], al);
    var r1 := FieldsStep(r, context, c1, m1, [ctrl], al);
    StructRegistered(r, context, c1, m1, [ctrl], al);
    assert r1.beans[m1.name] == m1;
    StructRegistered(r1, context, c2, m2, [ctrl], al);
    var r2 := FieldsStep(r1, context, c2, m2, [ctrl], al);
    assert m1.name in r1.beans.Keys;
    assert r2.beans[m1.name] == r1.beans[m1.name];
  }

  // ---------------------------------------------------------------- declarations

  /** How a file's parse ends: normally, or in the nil-receiver panic. */
  datatype FileOutcome = Parsed | Panicked

  datatype FileResult = FileResult(reg: Registry, outcome: FileOutcome)

  /** Whether `parseFile` hands a function declaration to `ParseMethod`. */
  predicate Dispatched(recv: Option<seq<Field>>, name: string, al: Aliases)
  {
    ((recv.Some? && |recv.value| > 0) || StartsLower(name)) && al.flag & MvcFlag != 0
  }

  /**
   * One declaration: of a `type` declaration only the first spec is looked
   * at, and only when it declares a struct; a function reaches `ParseMethod`
   * when it has a receiver or a lower-case name and the file imports the mvc
   * path. The error of `ParseMethod` is dropped; its nil dereference is not.
   */
  function DeclStep(r: Registry, context: string, pkg: string, ipath: string, al: Aliases, d: Decl): (res: FileResult)
    requires RegValid(r) && IsClean(context)
    ensures RegValid(res.reg)
  {
    match d
    case GenDecl(tok, specs, comments) =>
      if tok == TypeTok && |specs| > 0 && specs[0].TypeSpec? && specs[0].typ.StructType? then
        FileResult(FieldsStep(r, context, comments, StructMeta(specs[0].name, pkg, ipath), specs[0].typ.fields, al), Parsed)
      else FileResult(r, Parsed)
    case FuncDecl(recv, name, comments) =>
      if Dispatched(recv, name, al) then
        MethodStepWellFormed(r.ctrl, recv, name, comments);
        var m := MethodStep(r.ctrl, recv, name, comments);
        FileResult(r.(ctrl := m.state), if m.outcome.NilReceiver? then Panicked else Parsed)
      else FileResult(r, Parsed)
    case BadDecl => FileResult(r, Parsed)
  }

  /** The declarations in order, stopping at a panic. */
  function DeclsStep(r: Registry, context: string, pkg: string, ipath: string, al: Aliases, decls: seq<Decl>): (res: FileResult)
    requires RegValid(r) && IsClean(context)
    ensures RegValid(res.reg)
    decreases |decls|
  {
    if |decls| == 0 then FileResult(r, Parsed)
    else
      var first := DeclStep(r, context, pkg, ipath, al, decls[0]);
      if first.outcome.Panicked? then first
      else DeclsStep(first.reg, context, pkg, ipath, al, decls[1..])
  }

  /** `parseFile` on the tables: nothing at all happens in a file without a marker import. */
  function ParseFileSpec(r: Registry, context: string, file: File, ipath: string): FileResult
    requires RegValid(r) && IsClean(context)
  {
    var al := FoldImports(file.imports);
    if al.flag == 0 then FileResult(r, Parsed)
    else DeclsStep(r, context, file.pkg, ipath, al, file.decls)
  }

  /** A file that imports neither marker path inspects no declaration and changes no table. */
  lemma NoMarkerNoChange(r: Registry, context: string, file: File, ipath: string)
    requires RegValid(r) && IsClean(context)
    requires !Imports(file.imports, BeanImportPath) && !Imports(file.imports, MvcImportPath)
    ensures ParseFileSpec(r, context, file, ipath) == FileResult(r, Parsed)
  {
    FoldImportsResolves(file.imports);
  }

  /** A file that imports a marker path has its declarations read. */
  lemma MarkerReadsDecls(r: Registry, context: string, file: File, ipath: string)
    requires RegValid(r) && IsClean(context)
    requires Imports(file.imports, BeanImportPath) || Imports(file.imports, MvcImportPath)
    ensures ParseFileSpec(r, context, file, ipath)
         == DeclsStep(r, context, file.pkg, ipath, FoldImports(file.imports), file.decls)
  {
    FoldImportsResolves(file.imports);
    var b := Imports(file.imports, BeanImportPath);
    var m := Imports(file.imports, MvcImportPath);
    assert ((if b then BeanFlag else 0) | (if m then MvcFlag else 0)) != 0;
  }

  /** Only the first spec of a grouped `type (...)` declaration is ever registered. */
  lemma OnlyFirstSpec(r: Registry, context: string, pkg: string, ipath: string, al: Aliases,
                      first: Spec, later: seq<Spec>, comments: seq<string>)
    requires RegValid(r) && IsClean(context)
    ensures DeclStep(r, context, pkg, ipath, al, GenDecl(TypeTok, [first] + later, comments))
         == DeclStep(r, context, pkg, ipath, al, GenDecl(TypeTok, [first], comments))
  {
    assert ([first] + later)[0] == first;
  }

  /** Without the mvc import no function is looked at. */
  lemma FuncWithoutMvc(r: Registry, context: string, pkg: string, ipath: string, al: Aliases,
                       recv: Option<seq<Field>>, name: string, comments: seq<string>)
    requires RegValid(r) && IsClean(context) && al.flag & MvcFlag == 0
    ensures DeclStep(r, context, pkg, ipath, al, FuncDecl(recv, name, comments)) == FileResult(r, Parsed)
  {
  }

  /**
   * The lower-case handler error is dropped: the declaration leaves the
   * tables as they were and the scan goes on with the next declaration.
   */
  lemma RejectedMethodIgnored(r: Registry, context: string, pkg: string, ipath: string, al: Aliases,
                              recv: Option<seq<Field>>, name: string, comments: seq<string>, rest: seq<Decl>)
    requires RegValid(r) && IsClean(context) && Dispatched(recv, name, al)
    requires MethodStep(r.ctrl, recv, name, comments).outcome.Rejected?
    ensures DeclStep(r, context, pkg, ipath, al, FuncDecl(recv, name, comments)) == FileResult(r, Parsed)
    ensures DeclsStep(r, context, pkg, ipath, al, [FuncDecl(recv, name, comments)] + rest)
         == DeclsStep(r, context, pkg, ipath, al, rest)
  {
    MethodStepRejects(r.ctrl, recv, name, comments);
    assert ([FuncDecl(recv, name, comments)] + rest)[1..] == rest;
  }

  /** The panic happens exactly for a commented, receiver-less, lower-case function in an mvc file. */
  lemma PanicOnlyForPlainFunctions(r: Registry, context: string, pkg: string, ipath: string, al: Aliases, d: Decl)
    requires RegValid(r) && IsClean(context)
    ensures DeclStep(r, context, pkg, ipath, al, d).outcome.Panicked?
        <==> d.FuncDecl? && d.recv.None? && StartsLower(d.name) && |d.comments| > 0 && al.flag & MvcFlag != 0
  {
    if d.FuncDecl? && Dispatched(d.recv, d.name, al) {
      MethodStepRejects(r.ctrl, d.recv, d.name, d.comments);
    }
  }

  predicate NoPlainCommentedFunc(decls: seq<Decl>)
  {
    forall k :: 0 <= k < |decls| ==> !(decls[k].FuncDecl? && decls[k].recv.None? && |decls[k].comments| > 0)
  }

  /** A file whose receiver-less functions carry no comments is read to its end. */
  lemma {:induction false} NoPanicWithoutPlainComments(r: Registry, context: string, pkg: string, ipath: string, al: Aliases, decls: seq<Decl>)
    requires RegValid(r) && IsClean(context) && NoPlainCommentedFunc(decls)
    ensures DeclsStep(r, context, pkg, ipath, al, decls).outcome == Parsed
    decreases |decls|
  {
    if |decls| > 0 {
      PanicOnlyForPlainFunctions(r, context, pkg, ipath, al, decls[0]);
      var first := DeclStep(r, context, pkg, ipath, al, decls[0]);
      assert NoPlainCommentedFunc(decls[1..]) by {
        forall k | 0 <= k < |decls[1..]| ensures decls[1..][k] == decls[k + 1] { }
      }
      NoPanicWithoutPlainComments(first.reg, context, pkg, ipath, al, decls[1..]);
    }
  }

  // ---------------------------------------------------------------- AstParser

  /** `AstParser`: the scan settings and the two parsers `parseFile` fills. */
  class AstParser {
    var scanPackages: seq<string>
    var scanSkips: seq<string>
    const appContext: string
    const ctrlParser: CtrlParser
    const beanParser: BeanParser

    predicate Valid()
      reads this, ctrlParser, beanParser
    {
      ctrlParser.Valid() && beanParser.Valid() && ctrlParser.contextPath == appContext
    }

    function Tables(): Registry
      reads this, ctrlParser, beanParser
    {
      Registry(ctrlParser.State(), beanParser.beanCache)
    }

    /**
     * The set-up of `Main`: the context path normalised, the package and
     * skip lists cleaned, and two empty parsers under the context path.
     */
    constructor(scanPkg: string, scanSkip: string, context: string)
      ensures Valid() && fresh(ctrlParser) && fresh(beanParser)
      ensures appContext == NormalizeContext(context)
      ensures scanPackages == Utils.SplitAndTrimSpec(scanPkg)
      ensures scanSkips == Utils.SplitAndTrimSpec(scanSkip)
      ensures Tables() == Registry(CtrlState(map[], map[]), map[])
    {
      appContext := NormalizeContext(context);
      var packages := Utils.SplitAndTrim(scanPkg);
      var skips := Utils.SplitAndTrim(scanSkip);
      scanPackages := packages;
      scanSkips := skips;
      ctrlParser := new CtrlParser(NormalizeContext(context));
      beanParser := new BeanParser();
    }

    /** One struct field of `parseFile`: a controller field or a bean field registers the struct. */
    method ParseField(comments: seq<string>, meta: StructMeta, f: Field, al: Aliases)
      requires Valid()
      modifies ctrlParser, beanParser
      ensures Valid()
      ensures RegValid(old(Tables())) && Tables() == FieldStep(old(Tables()), appContext, comments, meta, f, al)
    {
      match f.typ {
        case Selector(x, sel) =>
          match x {
            case Ident(n) =>
              if n == al.mvc && sel == "Controller" {
                ctrlParser.ParseStruct(comments, meta);
                beanParser.ParseBean(meta);
              } else if n == al.bean && sel == "Bean" {
                beanParser.ParseBean(meta);
              }
            case _ =>
          }
        case _ =>
      }
    }

    /** The field loop of `parseFile` for one struct. */
    method ParseStructFields(comments: seq<string>, meta: StructMeta, fields: seq<Field>, al: Aliases)
      requires Valid()
      modifies ctrlParser, beanParser
      ensures Valid()
      ensures RegValid(old(Tables())) && Tables() == FieldsStep(old(Tables()), appContext, comments, meta, fields, al)
    {
      var j := 0;
      while j < |fields|
        invariant 0 <= j <= |fields|
        invariant Valid()
        invariant FieldsStep(old(Tables()), appContext, comments, meta, fields, al)
               == FieldsStep(Tables(), appContext, comments, meta, fields[j..], al)
      {
        assert fields[j..][1..] == fields[j + 1..];
        ParseField(comments, meta, fields[j], al);
        j := j + 1;
      }
    }

    /** One declaration of `parseFile`. */
    method ParseDecl(d: Decl, pkg: string, ipath: string, al: Aliases) returns (outcome: FileOutcome)
      requires Valid()
      modifies ctrlParser, beanParser
      ensures Valid()
      ensures RegValid(old(Tables())) && FileResult(Tables(), outcome) == DeclStep(old(Tables()), appContext, pkg, ipath, al, d)
    {
      match d {
        case GenDecl(tok, specs, comments) =>
          if tok == TypeTok && |specs| > 0 {
            match specs[0] {
              case TypeSpec(name, typ) =>
                match typ {
                  case StructType(fields) =>
                    ParseStructFields(comments, StructMeta(name, pkg, ipath), fields, al);
                  case OtherSpecType =>
                }
              case OtherSpec =>
            }
          }
          return Parsed;
        case FuncDecl(recv, name, comments) =>
          if (recv.Some? && |recv.value| > 0) || (|name| > 0 && IsLowerAscii(name[0])) {
            if al.flag & MvcFlag != 0 {
              var result := ctrlParser.ParseMethod(recv, name, comments);
              if result.NilReceiver? {
                return Panicked;
              }
            }
          }
          return Parsed;
        case BadDecl =>
          return Parsed;
      }
    }

    /**
     * `parseFile` on an already parsed file; `ipath` is the import path the
     * file's structs are registered under.
     */
    method ParseFile(file: File, ipath: string) returns (outcome: FileOutcome)
      requires Valid()
      modifies ctrlParser, beanParser
      ensures Valid()
      ensures RegValid(old(Tables())) && FileResult(Tables(), outcome) == ParseFileSpec(old(Tables()), appContext, file, ipath)
    {
      var al := ResolveImports(file.imports);
      if al.flag == 0 {
        return Parsed;
      }
      var i := 0;
      while i < |file.decls|
        invariant 0 <= i <= |file.decls|
        invariant Valid()
        invariant DeclsStep(old(Tables()), appContext, file.pkg, ipath, al, file.decls)
               == DeclsStep(Tables(), appContext, file.pkg, ipath, al, file.decls[i..])
      {
        assert file.decls[i..][1..] == file.decls[i + 1..];
        var o := ParseDecl(file.decls[i], file.pkg, ipath, al);
        if o.Panicked? {
          return Panicked;
        }
        i := i + 1;
      }
      return Parsed;
    }
  }
}
