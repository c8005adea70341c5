/** The file exporter: the line collection of `printGoFileExport` and the
    source-file filter of `printExported`. Parsing and printing are not
    modelled: a file is its list of top-level declarations, and the output is
    the sequence of lines the exporter prints for it. */
module Exporter {
  import opened Ast
  import opened Strings
  import opened Visibility
  import opened Decls
  import opened FileTree

  // ---------------------------------------------------------------------------
  // Collecting the lines of one file
  // ---------------------------------------------------------------------------

  /** A declaration the exporter can visit without panicking. */
  predicate DeclDefined(d: Decl) {
    match d
    case Func(f) => ExportedDefined(f)
    case Gen(g) => GenDeclDefined(g)
    case Bad => true
  }

  predicate AllDefined(ds: seq<Decl>) {
    forall i :: 0 <= i < |ds| ==> DeclDefined(ds[i])
  }

  /** Whether a declaration adds a line to its file's output: an exported
      function or method, or a group declaring at least one exported name. */
  predicate Contributes(d: Decl)
    requires DeclDefined(d)
  {
    match d
    case Func(f) => Exported(f)
    case Gen(g) => |ExportedNames(g.tok, g.specs)| > 0
    case Bad => false
  }

  /** What one declaration appends to the collected lines: at most one entry,
      present exactly when it contributes. A group's entry is never empty; a
      function's entry may be (a method whose receiver has no name). */
  function DeclLines(d: Decl): (r: seq<string>)
    requires DeclDefined(d)
    ensures |r| <= 1
    ensures |r| == 1 <==> Contributes(d)
    ensures d.Gen? && |r| == 1 ==> r[0] != ""
    ensures d.Func? && |r| == 1 ==> r[0] == FormatFuncDecl(d.f)
  {
    match d
    case Func(f) => if Exported(f) then [FormatFuncDecl(f)] else []
    case Gen(g) =>
      var s := FormatGenDecl(g);
      if s != "" then [s] else []
    case Bad => []
  }

  /** The collected lines of a file, declaration by declaration in source order.
      The collection is empty exactly when no declaration contributes. */
  function Collected(ds: seq<Decl>): (r: seq<string>)
    requires AllDefined(ds)
    ensures |r| <= |ds|
    ensures r == [] <==> forall i :: 0 <= i < |ds| ==> !Contributes(ds[i])
  {
    if |ds| == 0 then []
    else
      var rest := Collected(ds[1..]);
      assert forall i :: 1 <= i < |ds| ==> ds[i] == ds[1..][i - 1];
      DeclLines(ds[0]) + rest
  }

  /** Collecting distributes over the concatenation of declaration lists. */
  lemma {:induction false} CollectedAppend(a: seq<Decl>, b: seq<Decl>)
    requires AllDefined(a) && AllDefined(b)
    ensures AllDefined(a + b)
    ensures Collected(a + b) == Collected(a) + Collected(b)
  {
    if |a| == 0 {
      assert a + b == b;
    } else {
      assert (a + b)[1..] == a[1..] + b;
      CollectedAppend(a[1..], b);
    }
  }

  /** Source order: a contributing declaration's line sits right after the
      lines of the declarations before it. */
  lemma CollectedOrder(ds: seq<Decl>, i: nat)
    requires AllDefined(ds) && i < |ds| && Contributes(ds[i])
    ensures |Collected(ds[..i])| < |Collected(ds)|
    ensures Collected(ds)[|Collected(ds[..i])|] == DeclLines(ds[i])[0]
  {
    assert ds == ds[..i] + ([ds[i]] + ds[i + 1..]);
    CollectedAppend([ds[i]], ds[i + 1..]);
    CollectedAppend(ds[..i], [ds[i]] + ds[i + 1..]);
    assert Collected([ds[i]]) == DeclLines(ds[i]) by {
      assert [ds[i]][1..] == [];
    }
  }

  /** One more declaration appends its entry to the collected lines. */
  lemma CollectedSnoc(ds: seq<Decl>, i: nat)
    requires AllDefined(ds) && i < |ds|
    ensures AllDefined(ds[..i]) && AllDefined(ds[..i + 1])
    ensures Collected(ds[..i + 1]) == Collected(ds[..i]) + DeclLines(ds[i])
  {
    assert ds[..i + 1] == ds[..i] + [ds[i]];
    CollectedAppend(ds[..i], [ds[i]]);
    assert Collected([ds[i]]) == DeclLines(ds[i]) by {
      assert [ds[i]][1..] == [];
    }
  }

  /** The loop of `printGoFileExport`: append each declaration's entry in turn. */
  method CollectLines(ds: seq<Decl>) returns (res: seq<string>)
    requires AllDefined(ds)
    ensures res == Collected(ds)
  {
    res := [];
    var i := 0;
    while i < |ds|
      invariant 0 <= i <= |ds|
      invariant res == Collected(ds[..i])
    {
      CollectedSnoc(ds, i);
      match ds[i] {
        case Func(f) =>
          if Exported(f) {
            res := res + [FormatFuncDecl(f)];
          }
        case Gen(g) =>
          var s := FormatGenDecl(g);
          if s != "" {
            res := res + [s];
          }
        case Bad =>
      }
      i := i + 1;
    }
    assert ds[..|ds|] == ds;
  }

  /** `printGoFileExport` for a file with base name `fileName`: nothing at all
      when no declaration contributes; otherwise a `// name:` header, the
      collected lines in source order, and one blank line. */
  method PrintGoFileExport(fileName: string, ds: seq<Decl>) returns (out: seq<string>)
    requires AllDefined(ds)
    ensures out == [] <==> forall i :: 0 <= i < |ds| ==> !Contributes(ds[i])
    ensures out != [] ==> out == ["// " + fileName + ":"] + Collected(ds) + [""]
  {
    var res := CollectLines(ds);
    if |res| == 0 {
      return [];
    }
    out := ["// " + fileName + ":"] + res + [""];
  }

  /** A method whose receiver field has no name is exported but renders as the
      empty text, and is still printed as an empty line. */
  lemma UnnamedReceiverExample()
    ensures var f := FuncDecl(List([Field([], Ident("T"))]), "M", Signature(NilList, [], NilList), "");
      AllDefined([Func(f)]) && Collected([Func(f)]) == [""]
  {
    var f := FuncDecl(List([Field([], Ident("T"))]), "M", Signature(NilList, [], NilList), "");
    assert Render.FormatType(Ident("T")) == "T";
    PlainVerdict("T");
    PlainVerdict("M");
    assert IsUpper0("T") && IsUpper0("M");
    assert Exported(f);
    assert [Func(f)][1..] == [];
  }

  /** A file declaring only unexported names prints nothing, while an import
      group next to an exported function leaves only the function's line. */
  lemma FileExamples()
    ensures var d := Func(FuncDecl(NilList, "helper", Signature(NilList, [], NilList), ""));
      AllDefined([d]) && Collected([d]) == []
    ensures var imp := Gen(GenDecl(Import, [ImportSpec("\"fmt\"")]));
      var run := Func(FuncDecl(NilList, "Run", Signature(NilList, [], NilList), ""));
      AllDefined([imp, run]) && Collected([imp, run]) == ["func Run()"]
  {
    var d := Func(FuncDecl(NilList, "helper", Signature(NilList, [], NilList), ""));
    PlainVerdict("helper");
    assert !IsUpper0("helper");
    assert [d][1..] == [];
    var imp := Gen(GenDecl(Import, [ImportSpec("\"fmt\"")]));
    var run := Func(FuncDecl(NilList, "Run", Signature(NilList, [], NilList), ""));
    assert ExportedNames(Import, [ImportSpec("\"fmt\"")]) == [] by {
      assert [ImportSpec("\"fmt\"")][1..] == [];
    }
    PlainVerdict("Run");
    assert IsUpper0("Run");
    assert Render.FieldsText([]) == "";
    assert SignatureTail("Run", Signature(NilList, [], NilList)) == "Run()";
    assert FormatFuncDecl(run.f) == "func Run()";
    assert DeclLines(imp) == [] && DeclLines(run) == ["func Run()"];
    assert [imp, run][1..] == [run] && [run][1..] == [];
    assert Collected([run]) == ["func Run()"];
  }

  // ---------------------------------------------------------------------------
  // Which directory entries are read as source files
  // ---------------------------------------------------------------------------

  /** The filter of `printExported`: not a directory, a `.go` suffix, and not a
      `_test.go` suffix. */
  predicate IsGoSource(e: DirEntry) {
    !e.isDir && HasSuffix(e.name, ".go") && !HasSuffix(e.name, "_test.go")
  }

  /** The entries of a listing the exporter reads, in listing order. */
  function SourceFiles(entries: seq<DirEntry>): (r: seq<DirEntry>)
    ensures |r| <= |entries|
    ensures forall e :: e in r <==> e in entries && IsGoSource(e)
  {
    if |entries| == 0 then []
    else
      var rest := SourceFiles(entries[1..]);
      assert forall e :: e in entries <==> e == entries[0] || e in entries[1..];
      (if IsGoSource(entries[0]) then [entries[0]] else []) + rest
  }

  /** Filtering keeps listing order: the sources of two consecutive runs of a
      listing are the sources of each run, in turn. */
  lemma {:induction false} SourceFilesAppend(a: seq<DirEntry>, b: seq<DirEntry>)
    ensures SourceFiles(a + b) == SourceFiles(a) + SourceFiles(b)
  {
    if |a| == 0 {
      assert a + b == b;
    } else {
      assert (a + b)[0] == a[0] && (a + b)[1..] == a[1..] + b;
      SourceFilesAppend(a[1..], b);
    }
  }

  /** Ordinary sources pass; tests, directories, other suffixes and a bare
      `_test.go` do not, while a bare `.go` does. */
  lemma SourceFilterExamples()
    ensures IsGoSource(DirEntry("main.go", false))
    ensures !IsGoSource(DirEntry("main_test.go", false))
    ensures !IsGoSource(DirEntry("vendor.go", true))
    ensures !IsGoSource(DirEntry("go.mod", false))
    ensures !IsGoSource(DirEntry("_test.go", false))
    ensures IsGoSource(DirEntry(".go", false))
  {
    assert "main.go"[4..] == ".go";
    assert "main_test.go"[4..] == "_test.go";
    assert "go.mod"[3..] != ".go" by {
      assert "go.mod"[3] == 'm';
    }
    assert ".go"[0..] == ".go";
  }
}
