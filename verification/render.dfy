/** The signature renderer: `formatType`, `formatFields` and `formatFuncResults`
    of main.go, mapping a syntax node to one line of Go-like text. */
module Render {
  import opened Ast
  import opened Strings

  /** `formatType`: one fixed template per node kind, recursing into children. */
  function FormatType(e: Expr): string
  {
    match e
    case Nil => ""
    case Ident(n) => n
    case Selector(x, sel) => FormatType(x) + "." + sel
    case Star(x) => "*" + FormatType(x)
    case ArrayType(l, t) => "[" + FormatType(l) + "]" + FormatType(t)
    case Ellipsis(t) => "..." + FormatType(t)
    case FuncType(sig) => FuncTypeText(sig)
    case MapType(k, v) => "map[" + FormatType(k) + "]" + FormatType(v)
    case ChanType(d, v) => ChanPrefix(d) + " " + FormatType(v)
    case BasicLit(lit) => lit
    case StructType => "struct{}"
    case InterfaceType => "interface{}"
    case Unary(op, x) => op + FormatType(x)
    case CompositeLit(t) => FormatType(t) + "{}"
    case Call(f) => FormatType(f) + "()"
    case Binary(x, op, y) => FormatType(x) + " " + op + " " + FormatType(y)
    case FuncLit(sig) => FuncTypeText(sig)
    case Index(x, i) => FormatType(x) + "[" + FormatType(i) + "]"
    case IndexList(x, xs) => FormatType(x) + "[" + Join(ExprTexts(xs), ", ") + "]"
    case Paren(x) => "(" + FormatType(x) + ")"
    case Slice(x, lo, hi, mx, s3) =>
      FormatType(x) + "["
      + (if lo != Nil then FormatType(lo) else "") + ":"
      + (if hi != Nil then FormatType(hi) else "")
      + (if s3 then ":" else "")
      + (if mx != Nil then FormatType(mx) else "") + "]"
    case TypeAssert(x, t) => FormatType(x) + ".(" + FormatType(t) + ")"
    case Unsupported(d) => "unsupported type " + d
  }

  /** The `*ast.FuncType` case, shared by function types and function literals;
      type parameters are not printed here. */
  function FuncTypeText(sig: Signature): string
  {
    "func(" + FieldsText(sig.params) + ")" + ResultsText(sig.results)
  }

  /** The direction word of a channel type, chosen by the numeric `Dir`. */
  function ChanPrefix(dir: int): string
  {
    if dir == 1 then "<-chan"
    else if dir == 2 then "chan<-"
    else if dir == 3 then "chan"
    else ""
  }

  /** The rendering of each expression, in order. */
  function ExprTexts(xs: seq<Expr>): (r: seq<string>)
    ensures |r| == |xs|
    ensures forall i :: 0 <= i < |xs| ==> r[i] == FormatType(xs[i])
  {
    if |xs| == 0 then [] else [FormatType(xs[0])] + ExprTexts(xs[1..])
  }

  /** One field: its names joined by ", " and one space, then the type; an unnamed
      field is just its type. */
  function FieldText(f: Field): string
  {
    (if |f.names| == 0 then "" else Join(f.names, ", ") + " ") + FormatType(f.typ)
  }

  /** The rendering of each field, in order. */
  function FieldTexts(fs: seq<Field>): (r: seq<string>)
    ensures |r| == |fs|
    ensures forall i :: 0 <= i < |fs| ==> r[i] == FieldText(fs[i])
    decreases fs, 0
  {
    if |fs| == 0 then [] else [FieldText(fs[0])] + FieldTexts(fs[1..])
  }

  /** A field list: the fields' texts joined by ", ". */
  function FieldsText(fs: seq<Field>): string
    decreases fs, 1
  {
    Join(FieldTexts(fs), ", ")
  }

  /** The result list is parenthesised when there is more than one field or the
      only field is named. */
  predicate NeedsParens(fs: seq<Field>) {
    |fs| > 1 || (|fs| == 1 && |fs[0].names| > 0)
  }

  /** `formatFuncResults`: nothing for a nil list, else one space and the fields,
      parenthesised when `NeedsParens`. */
  function ResultsText(results: FieldList): string
  {
    match results
    case NilList => ""
    case List(fs) =>
      " " + (if NeedsParens(fs) then "(" + FieldsText(fs) + ")" else FieldsText(fs))
  }

  /** `formatFields` as main.go writes it: a loop over the fields appending each
      field's names (inner loop `NamesPart`), its type, and ", " between fields.
      It produces exactly `FieldsText`. */
  method FormatFields(fields: seq<Field>) returns (s: string)
    ensures s == FieldsText(fields)
  {
    ghost var texts := FieldTexts(fields);
    s := "";
    var i := 0;
    while i < |fields|
      invariant 0 <= i <= |fields|
      invariant s == JoinedSoFar(texts, i)
    {
      var names := NamesPart(fields[i].names);
      var typ := FormatType(fields[i].typ);
      ghost var pre := s;
      s := s + names + typ;
      if i != |fields| - 1 {
        s := s + ", ";
      }
      JoinedStep(texts, i, pre, names, typ);
      i := i + 1;
    }
    JoinedAll(texts);
  }

  /** What the field loop has written after `i` of the texts: their join, and the
      separator for the next one when one follows. */
  function JoinedSoFar(texts: seq<string>, i: nat): string
    requires i <= |texts|
  {
    Join(texts[..i], ", ") + (if 0 < i < |texts| then ", " else "")
  }

  lemma JoinedStep(texts: seq<string>, i: nat, pre: string, names: string, typ: string)
    requires i < |texts| && pre == JoinedSoFar(texts, i) && texts[i] == names + typ
    ensures JoinedSoFar(texts, i + 1) == pre + names + typ + (if i != |texts| - 1 then ", " else "")
  {
    assert texts[..i + 1] == texts[..i] + [texts[i]];
    if i > 0 {
      JoinSnoc(texts[..i], texts[i], ", ");
    }
  }

  lemma JoinedAll(texts: seq<string>)
    ensures JoinedSoFar(texts, |texts|) == Join(texts, ", ")
  {
    assert texts[..|texts|] == texts;
  }

  /** The inner loop of `formatFields`: each name, a comma unless it is the last,
      then a space. The result is the names joined by ", " plus one space, or
      nothing for an unnamed field. */
  method NamesPart(names: seq<string>) returns (s: string)
    ensures s == if |names| == 0 then "" else Join(names, ", ") + " "
  {
    s := "";
    var j := 0;
    while j < |names|
      invariant 0 <= j <= |names|
      invariant s == NamesSoFar(names, j)
    {
      s := s + names[j];
      if j != |names| - 1 {
        s := s + ",";
      }
      s := s + " ";
      NamesStep(names, j);
      j := j + 1;
    }
    assert names[..|names|] == names;
  }

  /** What the name loop has written after `j` names: their join followed by
      ", " while names remain, or by the closing space after the last. */
  function NamesSoFar(names: seq<string>, j: nat): string
    requires j <= |names|
  {
    if j == 0 then "" else Join(names[..j], ", ") + (if j < |names| then ", " else " ")
  }

  lemma NamesStep(names: seq<string>, j: nat)
    requires j < |names|
    ensures NamesSoFar(names, j + 1)
      == NamesSoFar(names, j) + names[j] + (if j != |names| - 1 then "," else "") + " "
  {
    assert names[..j + 1] == names[..j] + [names[j]];
    if j > 0 {
      JoinSnoc(names[..j], names[j], ", ");
      assert Join(names[..j], ", ") + ", " + names[j] == Join(names[..j + 1], ", ");
    }
  }

  /** A rendering is one line: tidy input never produces a line break. */
  lemma {:induction false} SingleLine(e: Expr)
    requires TidyExpr(e)
    ensures '\n' !in FormatType(e)
    decreases e, 1
  {
    if e.Nil? || e.Ident? || e.Selector? || e.Star? || e.ArrayType? || e.Ellipsis?
      || e.FuncType? || e.MapType? || e.ChanType? || e.BasicLit? || e.StructType?
    {
      SingleLineTypes(e);
    } else {
      SingleLineOperands(e);
    }
  }

  /** `SingleLine` for the type nodes. */
  lemma {:induction false} SingleLineTypes(e: Expr)
    requires TidyExpr(e)
    requires e.Nil? || e.Ident? || e.Selector? || e.Star? || e.ArrayType? || e.Ellipsis?
      || e.FuncType? || e.MapType? || e.ChanType? || e.BasicLit? || e.StructType?
    ensures '\n' !in FormatType(e)
    decreases e, 0
  {
    match e
    case Nil =>
    case Ident(_) =>
    case Selector(x, _) => SingleLine(x);
    case Star(x) => SingleLine(x);
    case ArrayType(l, t) => SingleLine(l); SingleLine(t);
    case Ellipsis(t) => SingleLine(t);
    case FuncType(sig) => SingleLineSignature(sig);
    case MapType(k, v) => SingleLine(k); SingleLine(v);
    case ChanType(_, v) => SingleLine(v);
    case BasicLit(_) =>
    case StructType =>
  }

  /** `SingleLine` for the expression nodes and the fallback. */
  lemma {:induction false} SingleLineOperands(e: Expr)
    requires TidyExpr(e)
    requires !(e.Nil? || e.Ident? || e.Selector? || e.Star? || e.ArrayType? || e.Ellipsis?
      || e.FuncType? || e.MapType? || e.ChanType? || e.BasicLit? || e.StructType?)
    ensures '\n' !in FormatType(e)
    decreases e, 0
  {
    match e
    case InterfaceType =>
    case Unary(_, x) => SingleLine(x);
    case CompositeLit(t) => SingleLine(t);
    case Call(f) => SingleLine(f);
    case Binary(x, _, y) => SingleLine(x); SingleLine(y);
    case FuncLit(sig) => SingleLineSignature(sig);
    case Index(x, i) => SingleLine(x); SingleLine(i);
    case IndexList(x, xs) =>
      SingleLine(x);
      SingleLineExprs(xs);
    case Paren(x) => SingleLine(x);
    case Slice(x, lo, hi, mx, _) => SingleLine(x); SingleLine(lo); SingleLine(hi); SingleLine(mx);
    case TypeAssert(x, t) => SingleLine(x); SingleLine(t);
    case Unsupported(_) =>
  }

  lemma {:induction false} SingleLineExprs(xs: seq<Expr>)
    requires forall i :: 0 <= i < |xs| ==> TidyExpr(xs[i])
    ensures '\n' !in Join(ExprTexts(xs), ", ")
  {
    forall i | 0 <= i < |xs|
      ensures '\n' !in ExprTexts(xs)[i]
    {
      SingleLine(xs[i]);
    }
    JoinExcludes(ExprTexts(xs), ", ", '\n');
  }

  lemma {:induction false} SingleLineField(f: Field)
    requires TidyField(f)
    ensures '\n' !in FieldText(f)
  {
    SingleLine(f.typ);
    JoinExcludes(f.names, ", ", '\n');
  }

  lemma {:induction false} SingleLineFields(fs: seq<Field>)
    requires TidyFields(fs)
    ensures '\n' !in FieldsText(fs)
  {
    forall i | 0 <= i < |fs|
      ensures '\n' !in FieldTexts(fs)[i]
    {
      SingleLineField(fs[i]);
    }
    JoinExcludes(FieldTexts(fs), ", ", '\n');
  }

  lemma {:induction false} SingleLineSignature(sig: Signature)
    requires TidySignature(sig)
    ensures '\n' !in FuncTypeText(sig)
  {
    SingleLineFields(sig.params);
    if sig.results.List? {
      SingleLineFields(sig.results.fields);
    }
  }

  /** Only an absent node renders as empty text (given tidy names and literals),
      which is what the `var`/`const` formatter relies on when it tests the type text. */
  lemma EmptyIffNil(e: Expr)
    requires TidyExpr(e)
    ensures FormatType(e) == "" <==> e.Nil?
  {
  }

  /** Channel types by numeric direction. With `SEND = 1` and `RECV = 2`, a send-only
      channel prints with the receive arrow and vice versa; an out-of-range direction
      prints no word, only the separating space. */
  lemma ChanRendering(v: Expr)
    ensures FormatType(ChanType(SEND, v)) == "<-chan " + FormatType(v)
    ensures FormatType(ChanType(RECV, v)) == "chan<- " + FormatType(v)
    ensures FormatType(ChanType(SEND + RECV, v)) == "chan " + FormatType(v)
    ensures forall d :: d != 1 && d != 2 && d != 3 ==> FormatType(ChanType(d, v)) == " " + FormatType(v)
  {
  }

  /** A generic instantiation with one type argument prints the same whether the
      parser produced `IndexExpr` or a one-element `IndexListExpr`. */
  lemma IndexListSingle(x: Expr, i: Expr)
    ensures FormatType(IndexList(x, [i])) == FormatType(Index(x, i))
  {
  }

  /** A function literal prints as its function type; the body is dropped. */
  lemma FuncLitAsType(sig: Signature)
    ensures FormatType(FuncLit(sig)) == FormatType(FuncType(sig))
  {
  }

  /** Nodes that print their operand first: the operand's text is a prefix. */
  lemma OperandPrefix(e: Expr)
    requires e.Selector? || e.Index? || e.IndexList? || e.Call? || e.CompositeLit?
          || e.Slice? || e.TypeAssert? || e.Binary?
    ensures HasPrefix(FormatType(e), FormatType(if e.CompositeLit? then e.typ else if e.Call? then e.fun else e.x))
  {
  }

  /** Slice and array rendering on the examples `x[:3]`, `x[1:2:3]`, `[4]int`, `[]int`. */
  lemma SliceExamples()
    ensures FormatType(Slice(Ident("x"), Nil, BasicLit("3"), Nil, false)) == "x[:3]"
    ensures FormatType(Slice(Ident("x"), BasicLit("1"), BasicLit("2"), BasicLit("3"), true)) == "x[1:2:3]"
  {
    SliceLowOmitted();
    SliceThreeIndex();
  }

  lemma SliceLowOmitted()
    ensures FormatType(Slice(Ident("x"), Nil, BasicLit("3"), Nil, false)) == "x[:3]"
  {
    assert FormatType(Slice(Ident("x"), Nil, BasicLit("3"), Nil, false)) == "x" + "[" + "" + ":" + "3" + "" + "" + "]";
  }

  lemma SliceThreeIndex()
    ensures FormatType(Slice(Ident("x"), BasicLit("1"), BasicLit("2"), BasicLit("3"), true)) == "x[1:2:3]"
  {
    assert FormatType(Slice(Ident("x"), BasicLit("1"), BasicLit("2"), BasicLit("3"), true))
      == "x" + "[" + "1" + ":" + "2" + ":" + "3" + "]";
  }

  lemma ArrayExamples()
    ensures FormatType(ArrayType(BasicLit("4"), Ident("int"))) == "[4]int"
    ensures FormatType(ArrayType(Nil, Ident("int"))) == "[]int"
  {
  }

  /** A non-nil result list that `NeedsParens` is printed in parentheses after one space. */
  lemma ResultsParenthesised(fs: seq<Field>)
    requires |fs| > 1 || (|fs| == 1 && |fs[0].names| > 0)
    ensures ResultsText(List(fs)) == " (" + FieldsText(fs) + ")"
  {
    assert " " + ("(" + FieldsText(fs) + ")") == " (" + FieldsText(fs) + ")";
  }

  /** Any other non-nil result list (empty, or one unnamed field) is printed bare. */
  lemma ResultsBare(fs: seq<Field>)
    requires |fs| == 0 || (|fs| == 1 && |fs[0].names| == 0)
    ensures ResultsText(List(fs)) == " " + FieldsText(fs)
  {
  }

  /** One unnamed result: a space and its type, without parentheses. */
  lemma ResultSingleUnnamed(t: Expr)
    ensures ResultsText(List([Field([], t)])) == " " + FormatType(t)
  {
    var f := Field([], t);
    assert FieldText(f) == FormatType(t);
    assert FieldTexts([f]) == [FormatType(t)];
    ResultsBare([f]);
  }

  /** One result with one name: the name and its type in parentheses, as in ` (err error)`. */
  lemma ResultSingleNamed(n: string, t: Expr)
    ensures ResultsText(List([Field([n], t)])) == " (" + n + " " + FormatType(t) + ")"
  {
    var f := Field([n], t);
    assert Join([n], ", ") == n;
    assert FieldText(f) == n + " " + FormatType(t);
    assert FieldTexts([f]) == [n + " " + FormatType(t)];
    ResultsParenthesised([f]);
  }

  /** Result clauses: a single unnamed result is bare, a named or multiple one is
      parenthesised, and an absent list prints nothing. */
  lemma ResultExamples()
    ensures ResultsText(NilList) == ""
    ensures ResultsText(List([Field([], Ident("error"))])) == " error"
    ensures ResultsText(List([Field(["err"], Ident("error"))])) == " (err error)"
    ensures ResultsText(List([Field(["n"], Ident("int")), Field(["err"], Ident("error"))])) == " (n int, err error)"
    ensures ResultsText(List([Field(["a", "b"], Ident("int"))])) == " (a, b int)"
    ensures ResultsText(List([])) == " "
  {
    ResultSingleUnnamed(Ident("error"));
    ResultSingleNamed("err", Ident("error"));
    ResultNamedPair();
    ResultSharedType();
  }

  lemma ResultNamedPair()
    ensures ResultsText(List([Field(["n"], Ident("int")), Field(["err"], Ident("error"))])) == " (n int, err error)"
  {
    var fs := [Field(["n"], Ident("int")), Field(["err"], Ident("error"))];
    assert FieldText(fs[0]) == "n int" && FieldText(fs[1]) == "err error";
    assert FieldTexts(fs) == ["n int", "err error"];
  }

  lemma ResultSharedType()
    ensures ResultsText(List([Field(["a", "b"], Ident("int"))])) == " (a, b int)"
  {
    assert Join(["a", "b"], ", ") == "a, b";
    assert FieldText(Field(["a", "b"], Ident("int"))) == "a, b int";
  }
}
