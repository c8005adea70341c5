/** The declaration formatter: `exported`, `formatFuncDecl` and `formatGenDecl`
    of main.go, turning one top-level declaration into signature text. */
module Decls {
  import opened Ast
  import opened Strings
  import opened Render
  import opened Visibility

  // ---------------------------------------------------------------------------
  // Functions and methods
  // ---------------------------------------------------------------------------

  /** The inputs on which `exported` neither panics nor indexes out of range: a
      method has exactly one receiver field whose rendered type is classifiable,
      and the name is classifiable whenever it is consulted (the receiver test
      short-circuits). */
  predicate ExportedDefined(d: FuncDecl) {
    match d.recv
    case NilList => Classifiable(d.name)
    case List(fs) =>
      |fs| == 1 && Classifiable(FormatType(fs[0].typ))
      && (IsUpper0(FormatType(fs[0].typ)) ==> Classifiable(d.name))
  }

  /** `exported`: the name is upper case and, for a method, so is the rendered
      receiver type. */
  predicate Exported(d: FuncDecl)
    requires ExportedDefined(d)
  {
    match d.recv
    case NilList => IsUpper0(d.name)
    case List(fs) => IsUpper0(FormatType(fs[0].typ)) && IsUpper0(d.name)
  }

  /** Everything after the receiver: name, `[type params]` when present,
      `(params)`, and the result clause. */
  function SignatureTail(name: string, sig: Signature): string
  {
    name
    + (match sig.typeParams
       case NilList => ""
       case List(tps) => "[" + FieldsText(tps) + "]")
    + "(" + FieldsText(sig.params) + ")"
    + ResultsText(sig.results)
  }

  /** `formatFuncDecl`. A receiver that is not exactly one field, or one field
      with several names, gives a diagnostic line; a receiver field without a
      name, as in `func (T) String() string`, gives the empty text. Only that
      last shape gives the empty text. */
  function FormatFuncDecl(d: FuncDecl): (r: string)
    ensures r == "" <==> d.recv.List? && |d.recv.fields| == 1 && |d.recv.fields[0].names| == 0
  {
    match d.recv
    case NilList => "func " + SignatureTail(d.name, d.sig)
    case List(fs) =>
      if |fs| != 1 then "strange receiver for " + d.name + ": " + d.recvDebug
      else if |fs[0].names| == 0 then ""
      else if |fs[0].names| != 1 then "strange receiver field for " + d.name + ": " + d.recvDebug
      else "func (" + fs[0].names[0] + " " + FormatType(fs[0].typ) + ") " + SignatureTail(d.name, d.sig)
  }

  /** Whenever `exported` can be asked about a declaration, the receiver-list
      diagnostic of `formatFuncDecl` cannot be produced for it. */
  lemma StrangeReceiverUnreachable(d: FuncDecl)
    requires ExportedDefined(d)
    ensures !HasPrefix(FormatFuncDecl(d), "strange receiver for ")
  {
    var r := FormatFuncDecl(d);
    var p := "strange receiver for ";
    if d.recv.List? && |d.recv.fields[0].names| > 1 {
      // "strange receiver field for ..." parts from the prefix at "fi" versus "fo".
      assert r[18] == 'i' && p[18] == 'o';
    } else if r != "" {
      assert r[0] == 'f' && p[0] == 's';
    }
  }

  /** A function or method with tidy names renders on one line. */
  lemma FuncDeclSingleLine(d: FuncDecl)
    requires TidyText(d.name) && '\n' !in d.recvDebug
    requires TidyFieldList(d.recv) && TidySignature(d.sig)
    ensures '\n' !in FormatFuncDecl(d)
  {
    SingleLineTail(d.name, d.sig);
    if d.recv.List? && |d.recv.fields| == 1 {
      var f := d.recv.fields[0];
      assert TidyField(f);
      SingleLine(f.typ);
      if |f.names| > 0 {
        assert TidyText(f.names[0]);
      }
    }
  }

  /** A function with type parameters prints them in brackets right after its
      name, before the parameter list. */
  lemma GenericFuncPrefix(n: string, tps: seq<Field>, ps: seq<Field>, rs: FieldList, dbg: string)
    ensures HasPrefix(FormatFuncDecl(FuncDecl(NilList, n, Signature(List(tps), ps, rs), dbg)),
      "func " + n + "[" + FieldsText(tps) + "](")
  {
    var sig := Signature(List(tps), ps, rs);
    var lead := n + "[" + FieldsText(tps) + "]";
    TailPrefix(n, sig, lead);
    FreeFuncText(n, sig, dbg);
    PrefixFront("func ", SignatureTail(n, sig), lead + "(");
    BracketLead(n, FieldsText(tps));
  }

  /** Without type parameters, the parameter list follows the name directly: no
      brackets are printed. */
  lemma PlainFuncPrefix(n: string, ps: seq<Field>, rs: FieldList, dbg: string)
    ensures HasPrefix(FormatFuncDecl(FuncDecl(NilList, n, Signature(NilList, ps, rs), dbg)), "func " + n + "(")
  {
    var sig := Signature(NilList, ps, rs);
    assert n + "" == n;
    TailPrefix(n, sig, n);
    FreeFuncText(n, sig, dbg);
    PrefixFront("func ", SignatureTail(n, sig), n + "(");
    Assoc("func ", n, "(");
  }

  /** A function without a receiver is `func` and its signature tail. */
  lemma FreeFuncText(n: string, sig: Signature, dbg: string)
    ensures FormatFuncDecl(FuncDecl(NilList, n, sig, dbg)) == "func " + SignatureTail(n, sig)
  {
  }

  lemma BracketLead(n: string, f: string)
    ensures "func " + (n + "[" + f + "]" + "(") == "func " + n + "[" + f + "]("
  {
    assert "]" + "(" == "](";
  }

  /** The signature tail opens with the name and its bracket part, then `(`. */
  lemma TailPrefix(n: string, sig: Signature, lead: string)
    requires lead == n + (match sig.typeParams
       case NilList => ""
       case List(tps) => "[" + FieldsText(tps) + "]")
    ensures HasPrefix(SignatureTail(n, sig), lead + "(")
  {
    var x := lead + "(";
    assert HasPrefix(x, x);
    PrefixExtend(x, x, FieldsText(sig.params));
    PrefixExtend(x + FieldsText(sig.params), x, ")");
    PrefixExtend(x + FieldsText(sig.params) + ")", x, ResultsText(sig.results));
  }

  lemma Assoc(a: string, b: string, c: string)
    ensures a + (b + c) == a + b + c
  {
  }

  /** `func Map[T, U any](xs []T) []U`: a generic function is exported and printed
      with its type parameters. */
  lemma GenericFuncExample()
    ensures var d := FuncDecl(NilList, "Map",
      Signature(List([Field(["T", "U"], Ident("any"))]), [Field(["xs"], ArrayType(Nil, Ident("T")))],
        List([Field([], ArrayType(Nil, Ident("U")))])), "");
      ExportedDefined(d) && Exported(d) && FormatFuncDecl(d) == "func Map[T, U any](xs []T) []U"
  {
    PlainVerdict("Map");
    var tps := [Field(["T", "U"], Ident("any"))];
    var ps := [Field(["xs"], ArrayType(Nil, Ident("T")))];
    var rs := List([Field([], ArrayType(Nil, Ident("U")))]);
    MapTypeParams();
    MapParams();
    ResultSingleUnnamed(ArrayType(Nil, Ident("U")));
    assert FormatType(ArrayType(Nil, Ident("U"))) == "[]U";
    MapText();
    FuncText("Map", tps, ps, rs, "T, U any", "xs []T", " []U", "func Map[T, U any](xs []T) []U");
  }

  lemma MapText()
    ensures "func Map[T, U any](xs []T) []U" == "func " + ("Map" + ("[" + "T, U any" + "]") + "(" + "xs []T" + ")" + " []U")
  {
  }

  lemma MapTypeParams()
    ensures FieldsText([Field(["T", "U"], Ident("any"))]) == "T, U any"
  {
    assert Join(["T", "U"], ", ") == "T, U";
    assert FieldText(Field(["T", "U"], Ident("any"))) == "T, U any";
    assert FieldTexts([Field(["T", "U"], Ident("any"))]) == ["T, U any"];
  }

  lemma MapParams()
    ensures FieldsText([Field(["xs"], ArrayType(Nil, Ident("T")))]) == "xs []T"
  {
    assert Join(["xs"], ", ") == "xs";
    assert FormatType(ArrayType(Nil, Ident("T"))) == "[]T";
    assert FieldText(Field(["xs"], ArrayType(Nil, Ident("T")))) == "xs []T";
    assert FieldTexts([Field(["xs"], ArrayType(Nil, Ident("T")))]) == ["xs []T"];
  }

  /** A generic function's text from the texts of its parts. */
  lemma FuncText(n: string, tps: seq<Field>, ps: seq<Field>, rs: FieldList, a: string, b: string, c: string, text: string)
    requires FieldsText(tps) == a && FieldsText(ps) == b && ResultsText(rs) == c
    requires text == "func " + (n + ("[" + a + "]") + "(" + b + ")" + c)
    ensures FormatFuncDecl(FuncDecl(NilList, n, Signature(List(tps), ps, rs), "")) == text
  {
  }

  /** The part after the receiver is on one line. */
  lemma SingleLineTail(name: string, sig: Signature)
    requires TidyText(name) && TidySignature(sig)
    ensures '\n' !in SignatureTail(name, sig)
  {
    SingleLineFields(sig.params);
    if sig.typeParams.List? {
      SingleLineFields(sig.typeParams.fields);
    }
    if sig.results.List? {
      SingleLineFields(sig.results.fields);
    }
  }

  /** The usual receiver types: `T`, `T[X]`, `T[X, Y]`, optionally behind one `*`. */
  predicate ReceiverShape(e: Expr, base: string) {
    BaseShape(e, base) || (e.Star? && BaseShape(e.x, base))
  }

  predicate BaseShape(e: Expr, base: string) {
    e == Ident(base)
    || (e.Index? && e.x == Ident(base))
    || (e.IndexList? && e.x == Ident(base))
  }

  lemma BaseShapePrefix(e: Expr, base: string)
    requires BaseShape(e, base)
    ensures HasPrefix(FormatType(e), base)
  {
    if !e.Ident? {
      OperandPrefix(e);
    }
  }

  /** Receiver gating: a method with a receiver of the usual shape is exported
      exactly when both its name and the receiver's base type name are upper case,
      whether the receiver is a pointer or not. */
  lemma ReceiverGating(d: FuncDecl, base: string)
    requires d.recv.List? && |d.recv.fields| == 1
    requires ReceiverShape(d.recv.fields[0].typ, base)
    requires |base| > 0 && base[0] != '*' && Classifiable(d.name)
    ensures ExportedDefined(d)
    ensures Exported(d) <==> IsUpper(base[0]) && IsUpper0(d.name)
  {
    var e := d.recv.fields[0].typ;
    var text := FormatType(e);
    if BaseShape(e, base) {
      BaseShapePrefix(e, base);
      VerdictOfExtension(base, text);
    } else {
      var inner := FormatType(e.x);
      BaseShapePrefix(e.x, base);
      PointerMarkerIgnored(base);
      assert HasPrefix(text, "*" + base) by {
        assert text == "*" + inner;
        assert inner[..|base|] == base;
        assert text[..|base| + 1] == "*" + inner[..|base|];
      }
      VerdictOfExtension("*" + base, text);
    }
  }

  /** The receiver-gating examples: `Foo` on `bar` is hidden, `Foo` on `*Bar` is
      shown and rendered with its receiver. */
  lemma ReceiverExamples()
    ensures var d := FuncDecl(List([Field(["r"], Ident("bar"))]), "Foo", Signature(NilList, [], NilList), "");
      ExportedDefined(d) && !Exported(d)
    ensures var d := FuncDecl(List([Field(["r"], Star(Ident("Bar")))]), "Foo", Signature(NilList, [], NilList), "");
      ExportedDefined(d) && Exported(d) && FormatFuncDecl(d) == "func (r *Bar) Foo()"
  {
    assert FormatType(Ident("bar")) == "bar";
    PlainVerdict("bar");
    var shown := FuncDecl(List([Field(["r"], Star(Ident("Bar")))]), "Foo", Signature(NilList, [], NilList), "");
    assert FormatType(Star(Ident("Bar"))) == "*Bar";
    PlainVerdict("Foo");
    assert IsUpper0("*Bar") && IsUpper0("Foo");
    assert FieldsText([]) == "";
    assert SignatureTail("Foo", shown.sig) == "Foo()";
  }

  // ---------------------------------------------------------------------------
  // type, var and const groups
  // ---------------------------------------------------------------------------

  /** The word a group's lines start with; `import` groups produce no lines. */
  function KeyWord(tok: Token): string
  {
    match tok
    case Type => "type"
    case Var => "var"
    case Const => "const"
    case Import => "import"
  }

  /** The names a spec declares under the group's keyword: a type spec's name in a
      `type` group, a value spec's names in a `var`/`const` group, nothing else. */
  function SpecNames(tok: Token, sp: Spec): seq<string>
  {
    match sp
    case TypeSpec(n, _, _) => if tok == Type then [n] else []
    case ValueSpec(ns, _, _) => if tok == Var || tok == Const then ns else []
    case ImportSpec(_) => []
  }

  predicate AllClassifiable(names: seq<string>) {
    forall j :: 0 <= j < |names| ==> Classifiable(names[j])
  }

  /** `formatGenDecl` never panics when every name its group declares is classifiable. */
  predicate SpecsDefined(tok: Token, specs: seq<Spec>) {
    forall i :: 0 <= i < |specs| ==> AllClassifiable(SpecNames(tok, specs[i]))
  }

  predicate GenDeclDefined(g: GenDecl) {
    SpecsDefined(g.tok, g.specs)
  }

  /** The upper-case names among `names`, in order. */
  function UpperNames(names: seq<string>): (r: seq<string>)
    requires AllClassifiable(names)
    ensures |r| <= |names|
  {
    if |names| == 0 then []
    else (if IsUpper0(names[0]) then [names[0]] else []) + UpperNames(names[1..])
  }

  /** The exported names of a group, spec by spec and in source order. */
  function ExportedNames(tok: Token, specs: seq<Spec>): seq<string>
    requires SpecsDefined(tok, specs)
  {
    if |specs| == 0 then []
    else UpperNames(SpecNames(tok, specs[0])) + ExportedNames(tok, specs[1..])
  }

  /** Line `k` opens with the keyword, a space, name `k` and a space, for every `k`. */
  predicate LinesOpenWith(lines: seq<string>, key: string, names: seq<string>) {
    |lines| == |names|
    && forall k :: 0 <= k < |lines| ==> HasPrefix(lines[k], key + " " + names[k] + " ")
  }

  lemma LinesOpenWithConcat(a: seq<string>, b: seq<string>, key: string, na: seq<string>, nb: seq<string>)
    requires LinesOpenWith(a, key, na) && LinesOpenWith(b, key, nb)
    ensures LinesOpenWith(a + b, key, na + nb)
  {
    forall k | 0 <= k < |a + b|
      ensures HasPrefix((a + b)[k], key + " " + (na + nb)[k] + " ")
    {
      if k >= |a| {
        assert (a + b)[k] == b[k - |a|] && (na + nb)[k] == nb[k - |a|];
      }
    }
  }

  /** The type text of a value spec followed by one space, or nothing when it renders empty. */
  function TypePart(t: Expr): string
  {
    var typ := FormatType(t);
    if typ != "" then typ + " " else ""
  }

  /** One `var`/`const` line for the name at index `i`: keyword, name, the type
      part (which may leave a trailing space), and `= value` only when the spec
      has a value at that index. */
  function ValueLine(key: string, name: string, t: Expr, values: seq<Expr>, i: nat): string
  {
    key + " " + name + " " + TypePart(t) + (if |values| > i then "= " + FormatType(values[i]) else "")
  }

  /** The lines of a value spec for the names from index `i` on: one per
      upper-case name, in order. */
  function ValueLines(key: string, names: seq<string>, t: Expr, values: seq<Expr>, i: nat): (r: seq<string>)
    requires i <= |names| && AllClassifiable(names)
    ensures LinesOpenWith(r, key, UpperNames(names[i..]))
    decreases |names| - i
  {
    if i == |names| then []
    else
      var rest := ValueLines(key, names, t, values, i + 1);
      assert names[i..][1..] == names[i + 1..];
      var line := ValueLine(key, names[i], t, values, i);
      assert LinesOpenWith([line], key, [names[i]]) by {
        assert line == (key + " " + names[i] + " ") + (TypePart(t) + (if |values| > i then "= " + FormatType(values[i]) else ""));
      }
      if IsUpper0(names[i]) then
        LinesOpenWithConcat([line], rest, key, [names[i]], UpperNames(names[i + 1..]));
        [line] + rest
      else rest
  }

  /** A slice of classifiable names is classifiable. */
  lemma ClassifiableSlice(names: seq<string>, i: nat, j: nat)
    requires AllClassifiable(names) && i <= j <= |names|
    ensures AllClassifiable(names[i..j])
  {
    forall k | 0 <= k < j - i
      ensures Classifiable(names[i..j][k])
    {
      assert names[i..j][k] == names[i + k];
    }
  }

  /** `UpperNames` of a slice, taking off its first name. */
  lemma UpperNamesSliceStep(names: seq<string>, i: nat, j: nat)
    requires AllClassifiable(names) && i < j <= |names|
    ensures AllClassifiable(names[i..j]) && AllClassifiable(names[i + 1..j])
    ensures UpperNames(names[i..j]) == (if IsUpper0(names[i]) then [names[i]] else []) + UpperNames(names[i + 1..j])
  {
    ClassifiableSlice(names, i, j);
    ClassifiableSlice(names, i + 1, j);
    assert names[i..j][0] == names[i] && names[i..j][1..] == names[i + 1..j];
  }

  /** An upper-case name at index `i` gives the first of the lines from `i` on. */
  lemma ValueLinesHead(key: string, names: seq<string>, t: Expr, values: seq<Expr>, i: nat)
    requires AllClassifiable(names) && i < |names| && IsUpper0(names[i])
    ensures |ValueLines(key, names, t, values, i)| > 0
    ensures ValueLines(key, names, t, values, i)[0] == ValueLine(key, names[i], t, values, i)
  {
  }

  /** The lines from `i + 1` on follow the line of name `i`, if it has one. */
  lemma ValueLinesShift(key: string, names: seq<string>, t: Expr, values: seq<Expr>, i: nat, k: nat)
    requires AllClassifiable(names) && i < |names| && k < |ValueLines(key, names, t, values, i + 1)|
    ensures var d := if IsUpper0(names[i]) then 1 else 0;
      k + d < |ValueLines(key, names, t, values, i)|
      && ValueLines(key, names, t, values, i)[k + d] == ValueLines(key, names, t, values, i + 1)[k]
  {
  }

  /** Each upper-case name at index `j` is paired with the value at its own index
      `j`: its line is `ValueLine(.., j)`, placed after the lines of the upper-case
      names before it. */
  lemma {:induction false} ValueLinesPosition(key: string, names: seq<string>, t: Expr, values: seq<Expr>, i: nat, j: nat)
    requires AllClassifiable(names) && i <= j < |names| && IsUpper0(names[j])
    ensures AllClassifiable(names[i..j])
    ensures |UpperNames(names[i..j])| < |ValueLines(key, names, t, values, i)|
    ensures ValueLines(key, names, t, values, i)[|UpperNames(names[i..j])|] == ValueLine(key, names[j], t, values, j)
    decreases j - i
  {
    if i == j {
      assert names[i..j] == [];
      ValueLinesHead(key, names, t, values, i);
    } else {
      UpperNamesSliceStep(names, i, j);
      ValueLinesPosition(key, names, t, values, i + 1, j);
      ValueLinesShift(key, names, t, values, i, |UpperNames(names[i + 1..j])|);
    }
  }

  /** The lines one spec contributes to its group. */
  function SpecLines(tok: Token, sp: Spec): (r: seq<string>)
    requires AllClassifiable(SpecNames(tok, sp))
    ensures LinesOpenWith(r, KeyWord(tok), UpperNames(SpecNames(tok, sp)))
  {
    match sp
    case TypeSpec(n, _, t) =>
      if tok == Type then
        assert SpecNames(tok, sp)[0] == n;
        assert [n][1..] == [];
        if IsUpper0(n) then
          var line := "type " + n + " " + FormatType(t);
          assert line == ("type " + n + " ") + FormatType(t);
          [line]
        else []
      else []
    case ValueSpec(ns, t, vs) =>
      if tok == Var || tok == Const then
        assert ns[0..] == ns;
        ValueLines(KeyWord(tok), ns, t, vs, 0)
      else []
    case ImportSpec(_) => []
  }

  /** In a `var` or `const` spec, the upper-case name at index `j` gets the value
      at index `j`, not the value at its rank among the exported names; its line
      follows the lines of the upper-case names before it. */
  lemma ValueSpecPosition(tok: Token, names: seq<string>, t: Expr, values: seq<Expr>, j: nat)
    requires tok == Var || tok == Const
    requires AllClassifiable(names) && j < |names| && IsUpper0(names[j])
    ensures AllClassifiable(names[..j])
    ensures |UpperNames(names[..j])| < |SpecLines(tok, ValueSpec(names, t, values))|
    ensures SpecLines(tok, ValueSpec(names, t, values))[|UpperNames(names[..j])|]
      == ValueLine(KeyWord(tok), names[j], t, values, j)
  {
    assert names[0..j] == names[..j];
    assert SpecNames(tok, ValueSpec(names, t, values)) == names;
    ValueLinesPosition(KeyWord(tok), names, t, values, 0, j);
  }

  /** The lines of a group, spec by spec: exactly one line per exported name,
      in order, each opening with the keyword and that name. */
  function GenDeclLines(tok: Token, specs: seq<Spec>): (r: seq<string>)
    requires SpecsDefined(tok, specs)
    ensures LinesOpenWith(r, KeyWord(tok), ExportedNames(tok, specs))
  {
    if |specs| == 0 then []
    else
      var first := SpecLines(tok, specs[0]);
      var rest := GenDeclLines(tok, specs[1..]);
      LinesOpenWithConcat(first, rest, KeyWord(tok), UpperNames(SpecNames(tok, specs[0])), ExportedNames(tok, specs[1..]));
      first + rest
  }

  /** `formatGenDecl`: the group's lines joined by line breaks. It is empty
      exactly when the group declares no exported name (always, for `import`). */
  function FormatGenDecl(g: GenDecl): (r: string)
    requires GenDeclDefined(g)
    ensures r == "" <==> |ExportedNames(g.tok, g.specs)| == 0
  {
    var lines := GenDeclLines(g.tok, g.specs);
    if |lines| > 0 then
      JoinStartsWithFirst(lines, "\n");
      assert HasPrefix(lines[0], KeyWord(g.tok) + " " + ExportedNames(g.tok, g.specs)[0] + " ");
      Join(lines, "\n")
    else ""
  }

  /** Only upper-case names are exported, and an `import` group exports none. */
  lemma {:induction false} ExportedNamesAreUpper(tok: Token, specs: seq<Spec>)
    requires SpecsDefined(tok, specs)
    ensures tok == Import ==> ExportedNames(tok, specs) == []
    ensures forall k :: 0 <= k < |ExportedNames(tok, specs)| ==>
      Classifiable(ExportedNames(tok, specs)[k]) && IsUpper0(ExportedNames(tok, specs)[k])
  {
    if |specs| > 0 {
      ExportedNamesAreUpper(tok, specs[1..]);
      UpperNamesAreUpper(SpecNames(tok, specs[0]));
    }
  }

  lemma {:induction false} UpperNamesAreUpper(names: seq<string>)
    requires AllClassifiable(names)
    ensures forall k :: 0 <= k < |UpperNames(names)| ==>
      Classifiable(UpperNames(names)[k]) && IsUpper0(UpperNames(names)[k])
  {
    if |names| > 0 {
      UpperNamesAreUpper(names[1..]);
    }
  }

  /** No upper-case name of a group is lost: each one is among the exported names. */
  lemma {:induction false} UpperNamesComplete(names: seq<string>, j: int)
    requires AllClassifiable(names)
    requires 0 <= j < |names| && IsUpper0(names[j])
    ensures names[j] in UpperNames(names)
  {
    if j > 0 {
      UpperNamesComplete(names[1..], j - 1);
    }
  }

  lemma {:induction false} ExportedNamesComplete(tok: Token, specs: seq<Spec>, i: int, j: int)
    requires SpecsDefined(tok, specs)
    requires 0 <= i < |specs| && 0 <= j < |SpecNames(tok, specs[i])|
    requires IsUpper0(SpecNames(tok, specs[i])[j])
    ensures SpecNames(tok, specs[i])[j] in ExportedNames(tok, specs)
  {
    if i == 0 {
      UpperNamesComplete(SpecNames(tok, specs[0]), j);
    } else {
      ExportedNamesComplete(tok, specs[1..], i - 1, j);
    }
  }

  /** A group's text is its lines joined by line breaks. */
  lemma GenDeclText(g: GenDecl, lines: seq<string>, text: string)
    requires GenDeclDefined(g) && GenDeclLines(g.tok, g.specs) == lines
    requires text == Join(lines, "\n")
    ensures FormatGenDecl(g) == text
  {
  }

  /** Two lines joined by a line break. */
  lemma JoinTwoLines(a: string, b: string, text: string)
    requires text == a + "\n" + b
    ensures Join([a, b], "\n") == text
  {
    assert [a, b][1..] == [b];
  }

  /** A value spec declaring one exported name gives exactly that name's line. */
  lemma SingleNameSpec(tok: Token, n: string, t: Expr, vs: seq<Expr>)
    requires tok == Var || tok == Const
    requires |n| > 0 && IsUpper(n[0])
    ensures AllClassifiable(SpecNames(tok, ValueSpec([n], t, vs)))
    ensures SpecLines(tok, ValueSpec([n], t, vs)) == [ValueLine(KeyWord(tok), n, t, vs, 0)]
  {
    PlainVerdict(n);
    assert [n][1..] == [] && [n][0..] == [n];
  }

  /** A group of two specs gives the first spec's lines, then the second's. */
  lemma TwoSpecs(tok: Token, s1: Spec, s2: Spec)
    requires AllClassifiable(SpecNames(tok, s1)) && AllClassifiable(SpecNames(tok, s2))
    ensures SpecsDefined(tok, [s1, s2])
    ensures GenDeclLines(tok, [s1, s2]) == SpecLines(tok, s1) + SpecLines(tok, s2)
  {
    var specs := [s1, s2];
    assert specs[0] == s1 && specs[1..] == [s2];
    OneSpec(tok, s2);
    assert SpecsDefined(tok, specs);
    GenDeclLinesCons(tok, specs);
  }

  /** A group's lines are its first spec's lines, then those of the rest. */
  lemma GenDeclLinesCons(tok: Token, specs: seq<Spec>)
    requires SpecsDefined(tok, specs) && |specs| > 0
    ensures SpecsDefined(tok, specs[1..])
    ensures GenDeclLines(tok, specs) == SpecLines(tok, specs[0]) + GenDeclLines(tok, specs[1..])
  {
  }

  /** `const ( A = iota; B )`, for any two exported names: a name without a type
      or value keeps the space meant to precede them. */
  lemma ConstIotaExample(a: string, b: string)
    requires |a| > 0 && IsUpper(a[0]) && |b| > 0 && IsUpper(b[0])
    ensures var g := GenDecl(Const, [ValueSpec([a], Nil, [Ident("iota")]), ValueSpec([b], Nil, [])]);
      GenDeclDefined(g) && FormatGenDecl(g) == "const " + a + " = iota\nconst " + b + " "
  {
    var la := "const " + a + " = iota";
    var lb := "const " + b + " ";
    JoinTwoLines(la, lb, "const " + a + " = iota\nconst " + b + " ");
    ConstIotaLines(a, b);
    GenDeclText(GenDecl(Const, [ValueSpec([a], Nil, [Ident("iota")]), ValueSpec([b], Nil, [])]), [la, lb],
      "const " + a + " = iota\nconst " + b + " ");
  }

  lemma ConstIotaLines(a: string, b: string)
    requires |a| > 0 && IsUpper(a[0]) && |b| > 0 && IsUpper(b[0])
    ensures SpecsDefined(Const, [ValueSpec([a], Nil, [Ident("iota")]), ValueSpec([b], Nil, [])])
    ensures GenDeclLines(Const, [ValueSpec([a], Nil, [Ident("iota")]), ValueSpec([b], Nil, [])])
      == ["const " + a + " = iota", "const " + b + " "]
  {
    SingleNameSpec(Const, a, Nil, [Ident("iota")]);
    SingleNameSpec(Const, b, Nil, []);
    TwoSpecs(Const, ValueSpec([a], Nil, [Ident("iota")]), ValueSpec([b], Nil, []));
    assert KeyWord(Const) == "const";
    IotaLine(a);
    BareLine("const", "const ", b, [], 0);
  }

  lemma IotaLine(a: string)
    ensures ValueLine("const", a, Nil, [Ident("iota")], 0) == "const " + a + " = iota"
  {
    ValueLineWithValue("const", a, Nil, [Ident("iota")], 0, "iota");
    assert "const" + " " == "const ";
  }

  /** A bare line, with the keyword's space written into the text `lead`. */
  lemma BareLine(key: string, lead: string, n: string, vs: seq<Expr>, i: nat)
    requires lead == key + " " && i >= |vs|
    ensures ValueLine(key, n, Nil, vs, i) == lead + n + " "
  {
    ValueLineBare(key, n, Nil, vs, i);
  }

  /** A line with a value, with the keyword's space written into the text `lead`. */
  lemma ValuedLine(key: string, lead: string, n: string, vs: seq<Expr>, i: nat)
    requires lead == key + " " && i < |vs|
    ensures ValueLine(key, n, Nil, vs, i) == lead + n + " = " + FormatType(vs[i])
  {
    ValueLineWithValue(key, n, Nil, vs, i, FormatType(vs[i]));
  }

  /** The line of a name without a type, paired with a value that renders as `v`. */
  lemma ValueLineWithValue(key: string, n: string, t: Expr, vs: seq<Expr>, i: nat, v: string)
    requires FormatType(t) == "" && i < |vs| && FormatType(vs[i]) == v
    ensures ValueLine(key, n, t, vs, i) == key + " " + n + " = " + v
  {
  }

  /** The line of a name without a type or a value keeps its trailing space. */
  lemma ValueLineBare(key: string, n: string, t: Expr, vs: seq<Expr>, i: nat)
    requires FormatType(t) == "" && i >= |vs|
    ensures ValueLine(key, n, t, vs, i) == key + " " + n + " "
  {
  }

  /** A lower-case name is dropped and the value is paired by position (`var a, B int = 1, 2`). */
  lemma VarPositionExample()
    ensures FormatGenDecl(GenDecl(Var, [
      ValueSpec(["a", "B"], Ident("int"), [BasicLit("1"), BasicLit("2")])])) == "var B int = 2"
  {
    var sp := ValueSpec(["a", "B"], Ident("int"), [BasicLit("1"), BasicLit("2")]);
    PlainVerdict("a");
    PlainVerdict("B");
    assert !IsUpper0("a") && IsUpper0("B");
    assert ["a", "B"][1..] == ["B"] && ["B"][1..] == [];
    assert ValueLine("var", "B", Ident("int"), [BasicLit("1"), BasicLit("2")], 1) == "var B int = 2";
    assert ValueLines("var", ["a", "B"], Ident("int"), [BasicLit("1"), BasicLit("2")], 2) == [];
    assert ValueLines("var", ["a", "B"], Ident("int"), [BasicLit("1"), BasicLit("2")], 1) == ["var B int = 2"];
    assert SpecLines(Var, sp) == ["var B int = 2"];
    assert [sp][1..] == [];
    assert GenDeclLines(Var, [sp]) == ["var B int = 2"];
  }

  /** Names beyond the initialisers get no `=`: `var A, B = v`, for any two
      exported names and any one initialiser `v`, such as a call `f()`. */
  lemma VarMissingValueExample(a: string, b: string, v: Expr)
    requires |a| > 0 && IsUpper(a[0]) && |b| > 0 && IsUpper(b[0])
    ensures var g := GenDecl(Var, [ValueSpec([a, b], Nil, [v])]);
      GenDeclDefined(g) && FormatGenDecl(g) == "var " + a + " = " + FormatType(v) + "\nvar " + b + " "
  {
    var x := FormatType(v);
    VarTwoLines(a, b, x);
    VarMissingValueLines(a, b, v);
    GenDeclText(GenDecl(Var, [ValueSpec([a, b], Nil, [v])]), ["var " + a + " = " + x, "var " + b + " "],
      "var " + a + " = " + x + "\nvar " + b + " ");
  }

  lemma VarTwoLines(a: string, b: string, x: string)
    ensures Join(["var " + a + " = " + x, "var " + b + " "], "\n") == "var " + a + " = " + x + "\nvar " + b + " "
  {
    JoinTwoLines("var " + a + " = " + x, "var " + b + " ", "var " + a + " = " + x + "\nvar " + b + " ");
  }

  lemma VarMissingValueLines(a: string, b: string, v: Expr)
    requires |a| > 0 && IsUpper(a[0]) && |b| > 0 && IsUpper(b[0])
    ensures SpecsDefined(Var, [ValueSpec([a, b], Nil, [v])])
    ensures GenDeclLines(Var, [ValueSpec([a, b], Nil, [v])]) == ["var " + a + " = " + FormatType(v), "var " + b + " "]
  {
    var sp := ValueSpec([a, b], Nil, [v]);
    VarSpecLines(a, b, v);
    assert SpecNames(Var, sp) == [a, b];
    OneSpec(Var, sp);
  }

  lemma VarSpecLines(a: string, b: string, v: Expr)
    requires |a| > 0 && IsUpper(a[0]) && |b| > 0 && IsUpper(b[0])
    ensures AllClassifiable([a, b])
    ensures SpecLines(Var, ValueSpec([a, b], Nil, [v])) == ["var " + a + " = " + FormatType(v), "var " + b + " "]
  {
    PlainVerdict(a);
    PlainVerdict(b);
    var ns := [a, b];
    assert ns[0] == a && ns[1] == b;
    ValueSpecLines(ns, v);
    ValuedLine("var", "var ", a, [v], 0);
    BareLine("var", "var ", b, [v], 1);
  }

  /** A group of one spec gives that spec's lines. */
  lemma OneSpec(tok: Token, sp: Spec)
    requires AllClassifiable(SpecNames(tok, sp))
    ensures SpecsDefined(tok, [sp])
    ensures GenDeclLines(tok, [sp]) == SpecLines(tok, sp)
  {
    assert [sp][1..] == [];
  }

  /** The lines of `var A, B = v`, name by name. */
  lemma ValueSpecLines(names: seq<string>, v: Expr)
    requires |names| == 2 && AllClassifiable(names) && IsUpper0(names[0]) && IsUpper0(names[1])
    ensures SpecLines(Var, ValueSpec(names, Nil, [v]))
      == [ValueLine("var", names[0], Nil, [v], 0), ValueLine("var", names[1], Nil, [v], 1)]
  {
    assert ValueLines("var", names, Nil, [v], 2) == [];
    assert ValueLines("var", names, Nil, [v], 1) == [ValueLine("var", names[1], Nil, [v], 1)];
  }

  /** `type` quirks: type parameters are not printed and struct bodies are
      opaque; a lower-case type and an `import` group print nothing. */
  lemma TypeExamples()
    // type List[T any] struct { ... }
    ensures FormatGenDecl(GenDecl(Type, [
      TypeSpec("List", List([Field(["T"], Ident("any"))]), StructType)])) == "type List struct{}"
    ensures FormatGenDecl(GenDecl(Type, [TypeSpec("list", NilList, Ident("int"))])) == ""
    ensures FormatGenDecl(GenDecl(Import, [ImportSpec("\"fmt\"")])) == ""
  {
    var sp := TypeSpec("List", List([Field(["T"], Ident("any"))]), StructType);
    PlainVerdict("List");
    PlainVerdict("list");
    assert IsUpper0("List") && !IsUpper0("list");
    assert FormatType(StructType) == "struct{}";
    assert "type " + "List" + " " + "struct{}" == "type List struct{}";
    assert SpecLines(Type, sp) == ["type List struct{}"];
    assert [sp][1..] == [];
    assert GenDeclLines(Type, [sp]) == ["type List struct{}"];
  }
}
