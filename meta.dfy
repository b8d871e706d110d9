/**
 * What the scanner records about a struct: its name, the name of its
 * package and the import path of that package ("" when the struct lives in
 * the generated file's own package).
 */
module Meta {
  datatype StructMeta = StructMeta(name: string, pkg: string, ipath: string)
}
