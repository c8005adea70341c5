/** The part of Go's `go/ast` syntax tree the exporter looks at.
    An absent (nil) expression is `Nil`; a node kind the renderer has no case
    for is `Unsupported`, carrying its `%#v` debug text as an opaque string. */
module Ast {

  /** `ast.ChanDir` bits: `SEND = 1 << 0` and `RECV = 1 << 1`, so a
      bidirectional channel has direction 3. */
  const SEND: int := 1
  const RECV: int := 2

  /** One entry of an `ast.FieldList`: zero or more names sharing one type. */
  datatype Field = Field(names: seq<string>, typ: Expr)

  /** A `*ast.FieldList` pointer: nil, or a list of fields. */
  datatype FieldList = NilList | List(fields: seq<Field>)

  /** `ast.FuncType`: possibly-nil type parameters, parameters, possibly-nil
      results. The parser always supplies a non-nil `Params`. */
  datatype Signature = Signature(
    typeParams: FieldList,
    params: seq<Field>,
    results: FieldList)

  /** The expression and type nodes the renderer handles, one constructor per kind. */
  datatype Expr =
    | Nil
    | Ident(name: string)
    | Selector(x: Expr, sel: string)
    | Star(x: Expr)
    | ArrayType(length: Expr, elt: Expr)
    | Ellipsis(elt: Expr)
    | FuncType(sig: Signature)
    | MapType(key: Expr, val: Expr)
    | ChanType(dir: int, val: Expr)
    | BasicLit(lit: string)
    | StructType
    | InterfaceType
    | Unary(op: string, x: Expr)
    | CompositeLit(typ: Expr)
    | Call(fun: Expr)
    | Binary(x: Expr, op: string, y: Expr)
    | FuncLit(sig: Signature)
    | Index(x: Expr, index: Expr)
    | IndexList(x: Expr, indices: seq<Expr>)
    | Paren(x: Expr)
    | Slice(x: Expr, low: Expr, high: Expr, max: Expr, slice3: bool)
    | TypeAssert(x: Expr, typ: Expr)
    | Unsupported(debug: string)

  /** `ast.FuncDecl`. `recvDebug` is the opaque `%#v` text the receiver
      diagnostics print. */
  datatype FuncDecl = FuncDecl(
    recv: FieldList,
    name: string,
    sig: Signature,
    recvDebug: string)

  /** The keyword of an `ast.GenDecl`. */
  datatype Token = Import | Type | Var | Const

  datatype Spec =
    | ImportSpec(path: string)
    | TypeSpec(name: string, typeParams: FieldList, typ: Expr)
    | ValueSpec(names: seq<string>, typ: Expr, values: seq<Expr>)

  datatype GenDecl = GenDecl(tok: Token, specs: seq<Spec>)

  /** A top-level declaration of a file; `Bad` stands for `ast.BadDecl`. */
  datatype Decl = Func(f: FuncDecl) | Gen(g: GenDecl) | Bad

  /** A name or literal text as the parser produces it: non-empty and on one line. */
  predicate TidyText(s: string) {
    |s| > 0 && '\n' !in s
  }

  /** Every identifier, operator and literal in the tree is tidy, and debug texts
      are on one line. (A raw string literal spanning lines is not tidy.) */
  predicate TidyExpr(e: Expr) {
    match e
    case Nil => true
    case Ident(n) => TidyText(n)
    case Selector(x, sel) => TidyExpr(x) && TidyText(sel)
    case Star(x) => TidyExpr(x)
    case ArrayType(l, t) => TidyExpr(l) && TidyExpr(t)
    case Ellipsis(t) => TidyExpr(t)
    case FuncType(sig) => TidySignature(sig)
    case MapType(k, v) => TidyExpr(k) && TidyExpr(v)
    case ChanType(_, v) => TidyExpr(v)
    case BasicLit(lit) => TidyText(lit)
    case StructType => true
    case InterfaceType => true
    case Unary(op, x) => TidyText(op) && TidyExpr(x)
    case CompositeLit(t) => TidyExpr(t)
    case Call(f) => TidyExpr(f)
    case Binary(x, op, y) => TidyExpr(x) && TidyText(op) && TidyExpr(y)
    case FuncLit(sig) => TidySignature(sig)
    case Index(x, i) => TidyExpr(x) && TidyExpr(i)
    case IndexList(x, xs) => TidyExpr(x) && forall i :: 0 <= i < |xs| ==> TidyExpr(xs[i])
    case Paren(x) => TidyExpr(x)
    case Slice(x, lo, hi, mx, _) => TidyExpr(x) && TidyExpr(lo) && TidyExpr(hi) && TidyExpr(mx)
    case TypeAssert(x, t) => TidyExpr(x) && TidyExpr(t)
    case Unsupported(d) => '\n' !in d
  }

  predicate TidyField(f: Field) {
    (forall i :: 0 <= i < |f.names| ==> TidyText(f.names[i])) && TidyExpr(f.typ)
  }

  predicate TidyFields(fs: seq<Field>) {
    forall i :: 0 <= i < |fs| ==> TidyField(fs[i])
  }

  predicate TidyFieldList(l: FieldList) {
    match l
    case NilList => true
    case List(fs) => TidyFields(fs)
  }

  predicate TidySignature(sig: Signature) {
    TidyFieldList(sig.typeParams) && TidyFields(sig.params) && TidyFieldList(sig.results)
  }
}
