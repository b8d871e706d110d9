/**
 * The parts of a parsed Go file that the generator looks at, in place of the
 * decorated syntax tree: imports, `type` declarations with their struct
 * fields, and function declarations with their receiver, name and the
 * comment lines written above them.
 */
module Syntax {
  import opened Wrappers

  /** A type expression: an identifier, `x.Sel`, `*x`, or any other form. */
  datatype TypeExpr =
    | Ident(name: string)
    | Selector(x: TypeExpr, sel: string)
    | Star(x: TypeExpr)
    | OtherType

  /** A struct field or a receiver, by its type. */
  datatype Field = Field(typ: TypeExpr)

  /** An import: the path literal as written (with its quotes) and the optional local name. */
  datatype Import = Import(pathLit: string, name: Option<string>)

  datatype SpecType = StructType(fields: seq<Field>) | OtherSpecType

  /** A spec of a general declaration: a type spec with its name, or anything else. */
  datatype Spec = TypeSpec(name: string, typ: SpecType) | OtherSpec

  /** The keyword of a general declaration: `type`, or `import`/`const`/`var`. */
  datatype Tok = TypeTok | OtherTok

  /**
   * A top-level declaration. Comments are the lines written directly above
   * the declaration; a function's receiver list is absent for a plain function.
   */
  datatype Decl =
    | GenDecl(tok: Tok, specs: seq<Spec>, comments: seq<string>)
    | FuncDecl(recv: Option<seq<Field>>, name: string, comments: seq<string>)
    | BadDecl

  /** A source file: its package name, imports and declarations in order. */
  datatype File = File(pkg: string, imports: seq<Import>, decls: seq<Decl>)
}
