/** The slice of the ECMAScript syntax tree the bundler inspects and rewrites:
    import and export statements (ECMA-262, section 16.2.2 Imports and section
    16.2.3 Exports), the declarations they wrap, and the few expressions the
    rewriter builds. Everything else in a module (function bodies, other
    statements) is carried as uninterpreted source text. */
module Ast {

  import opened Tables

  /** A ModuleExportName: an identifier, or a string literal (`'a-b'`). */
  datatype Name = Id(name: string) | Str(value: string)

  /** `exported.type === 'Identifier' ? exported.name : exported.value` */
  function NameText(n: Name): string {
    match n
    case Id(x) => x
    case Str(x) => x
  }

  datatype ImportSpec =
    | ImportDefault(local: string)                 // import foo from '...'
    | ImportNamespace(local: string)               // import * as foo from '...'
    | ImportNamed(imported: Name, local: string)   // import { imported as local } from '...'

  datatype ExportSpec =
    | ExportNamespaceSpec(exported: Name)           // export * as ns from '...'
    | ExportDefaultSpec(exportedId: string)         // export foo from '...' (proposal syntax)
    | ExportSpecifier(local: Name, exported: Name)  // export { local as exported }

  /** One element of a destructuring pattern: `a` or `b: a` (an identifier
      target), `...rest`, or a target that is not a plain identifier. */
  datatype PatternItem =
    | ItemId(name: string)
    | ItemRest(argument: Option<string>)
    | ItemOther

  datatype Pattern =
    | IdPattern(name: string)
    | ObjectPattern(properties: seq<PatternItem>)
    | ArrayPattern(elements: seq<PatternItem>)

  datatype VarKind = Var | Let | Const

  /** `key: value` in an object literal whose value is an identifier. */
  datatype Property = Property(key: string, value: string)

  datatype Expr =
    | Ident(name: string)
    | ClassExpr(superClass: Option<Expr>, classBody: string, decorators: seq<Expr>)
    | FunctionExpr(params: seq<string>, fnBody: string, generator: bool, async: bool)
    /** `Object.freeze({ "k": v, ... })` */
    | FrozenObject(properties: seq<Property>)
    /** `_mergeNamespaces({ "k": v, ... }, [ns, ...])` */
    | MergedNamespaces(properties: seq<Property>, namespaces: seq<string>)
    | OtherExpr(code: string)

  datatype Declarator = Declarator(id: Pattern, init: Option<Expr>)

  datatype Decl =
    | ClassDecl(classId: Option<string>, superClass: Option<Expr>, classBody: string, decorators: seq<Expr>)
    | FunctionDecl(fnId: Option<string>, params: seq<string>, fnBody: string, generator: bool, async: bool)
    | VarDecl(kind: VarKind, declarators: seq<Declarator>)

  /** What follows `export default`: a declaration or an expression. */
  datatype DefaultExportValue =
    | DefaultDeclaration(decl: Decl)
    | DefaultExpression(expr: Expr)

  datatype Stmt =
    | ImportDecl(source: string, specifiers: seq<ImportSpec>)
    | ExportNamed(declaration: Option<Decl>, exportSpecifiers: seq<ExportSpec>, from: Option<string>)
    | ExportDefault(value: DefaultExportValue)
    | ExportAll(allFrom: string)
    | Declaration(decl: Decl)
    /** The shared `_mergeNamespaces` runtime helper definition. */
    | MergeNamespacesHelper
    | OtherStmt(code: string)

  /** The identifiers a destructuring element binds directly. */
  function ItemNames(items: seq<PatternItem>): seq<string> {
    if items == [] then []
    else
      var head := match items[0]
        case ItemId(x) => [x]
        case ItemRest(Some(x)) => [x]
        case _ => [];
      head + ItemNames(items[1..])
  }

  /** The identifiers a pattern binds at its top level. */
  function PatternNames(p: Pattern): seq<string> {
    match p
    case IdPattern(x) => [x]
    case ObjectPattern(items) => ItemNames(items)
    case ArrayPattern(items) => ItemNames(items)
  }

  /** The names a declaration introduces, in source order. */
  function DeclaredNames(d: Decl): seq<string> {
    match d
    case ClassDecl(Some(x), _, _, _) => [x]
    case FunctionDecl(Some(x), _, _, _, _) => [x]
    case VarDecl(_, ds) => DeclaratorNames(ds)
    case _ => []
  }

  function DeclaratorNames(ds: seq<Declarator>): seq<string> {
    if ds == [] then [] else PatternNames(ds[0].id) + DeclaratorNames(ds[1..])
  }

  /** The `from` specifier of an import or export statement, if it has one. */
  function SourceOf(s: Stmt): Option<string> {
    match s
    case ImportDecl(src, _) => Some(src)
    case ExportNamed(_, _, Some(src)) => Some(src)
    case ExportAll(src) => Some(src)
    case _ => None
  }
}
