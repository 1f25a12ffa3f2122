/**
 * The part of a parsed Python module that the normaliser looks at.  Every
 * statement kind the normaliser tells apart has its own constructor; every
 * other statement is `Other`, which keeps its nested statements (the bodies
 * of an `if`, a `for`, a `try`, ...) so that declarations inside them are
 * still reached.
 */
module PyAst {

  datatype Option<T> = None | Some(value: T)

  datatype Stmt =
    // import a [as x], b [as y], ...: the first name, and the rest (its alias, further names) as text
    | Import(firstName: string, rest: string)
    // from [.]*m import ...: the module if any, the number of leading dots, the imported names as text
    | ImportFrom(moduleName: Option<string>, level: nat, names: string)
    // a declaration: its name, its header as text (decorators, bases or arguments, annotations), its body
    | ClassDef(name: string, header: string, body: seq<Stmt>)
    | FunctionDef(name: string, header: string, body: seq<Stmt>)
    | AsyncFunctionDef(name: string, header: string, body: seq<Stmt>)
    | StrExpr(value: string)                                   // a statement that is only a string literal
    | Other(text: string, children: seq<Stmt>)                 // any other statement, with the statements nested in it

  /** The root of a parsed file. */
  datatype Module = Module(body: seq<Stmt>)

  /** The six buckets a body is partitioned into. */
  datatype DeclKind =
    | ImportDecl | ImportFromDecl | ClassDecl | AsyncFunctionDecl | FunctionDecl | OtherStmt

  /** Which bucket a statement belongs to; a standalone string is an ordinary expression statement. */
  function Kind(s: Stmt): DeclKind
  {
    match s
    case Import(_, _) => ImportDecl
    case ImportFrom(_, _, _) => ImportFromDecl
    case ClassDef(_, _, _) => ClassDecl
    case FunctionDef(_, _, _) => FunctionDecl
    case AsyncFunctionDef(_, _, _) => AsyncFunctionDecl
    case StrExpr(_) => OtherStmt
    case Other(_, _) => OtherStmt
  }

  /** The position of a bucket in the canonical order. */
  function Rank(k: DeclKind): nat
  {
    match k
    case ImportDecl => 0
    case ImportFromDecl => 1
    case ClassDecl => 2
    case AsyncFunctionDecl => 3
    case FunctionDecl => 4
    case OtherStmt => 5
  }

  /** A standalone string-literal expression: a docstring wherever it stands. */
  predicate IsDocstring(s: Stmt)
  {
    s.StrExpr?
  }
}
