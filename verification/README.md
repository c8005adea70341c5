# go-list-export in Dafny

`go-list-export` prints the exported API of Go packages. Given an import path,
it finds the package directory. It first asks the Go build system, and falls
back to a search of the module cache. It then reads each non-test `.go` file
in that directory. For each file it prints the signatures of the exported
functions and methods, and the exported `type`, `var` and `const` names, under
a `// file.go:` header.

This project models the pure core of `main.go`, in four parts.

- **Signature renderer** (`render.dfy`, module `Render`): `formatType`, `formatFields`
  and `formatFuncResults`. The syntax tree they read is the `Ast` module (`ast.dfy`).
  - It has one constructor per node kind the renderer handles.
  - `Nil` is the absent node.
  - `Unsupported` carries the debug text of any other kind.
- **Visibility** (`visibility.dfy`, module `Visibility`): `isUpper0`, which
  classifies a name by its first character, or by its second when the first is `*`.
- **Declaration formatter and file exporter**:
  - `decls.dfy` (module `Decls`) holds `exported`, `formatFuncDecl` and `formatGenDecl`.
  - `exporter.dfy` (module `Exporter`) holds the line collection of
    `printGoFileExport`, and the file-name filter of `printExported`.
- **Module-cache resolver** (`resolver.dfy`, module `Resolver`):
  `searchPackagePathFromGoModCache` and `main`'s choice between the primary
  lookup and that fallback.
  - The module cache is an abstract directory tree (`filetree.dfy`, module `FileTree`).
    It maps each directory path to its listing, in listing order.
  - The cache root and the path separator are parameters.

`strings.dfy` (module `Strings`) models the parts of Go's `strings` package that
the program uses: `Join`, `Split` on one character, `HasPrefix` and `HasSuffix`.

Some behaviour is modelled exactly as the code has it, because it is what the
program prints:

- `formatType` picks the channel word by the numeric direction (main.go:237-246).
  - `ast.SEND` is 1, so a send-only channel `chan<- T` prints as `<-chan T`.
  - `ast.RECV` is 2, so a receive-only channel prints as `chan<- T`.
  - `Render.ChanRendering` states this.
- A `var` or `const` name without an initialiser keeps a trailing space: `var X int ` and `const B `.
- A method whose receiver field has no name, as in `func (T) String() string`, is still
  collected, as an empty line.
- `formatFuncDecl`'s "strange receiver" diagnostic for a receiver list whose
  length is not one can never be printed. `exported` panics on that same input
  first (main.go:323-325).
- The import path is split on the host's path separator (main.go:52). On a host
  whose separator is not `/`, a multi-segment import path is therefore looked up
  as a single segment (`Resolver.SeparatorExample`).

Panics in the source become preconditions:

- `isUpper0` needs a non-empty name, with a character after a leading `*`.
- `exported` needs exactly one receiver field.
- `os.ReadDir` in the fallback search must not fail, so the tree is `Closed`.

`main`'s "module not found" abort is the `None` result of `Resolver.PackageDir`.

## Model

| member | source | states |
|---|---|---|
| `Strings.Split` | main.go:52 | Splitting gives one more piece than there are separators. No piece contains the separator. Joining the pieces with the separator gives back the input. |
| `Strings.SplitJoin` | main.go:52 | Splitting a join of separator-free pieces gives back exactly those pieces. |
| `Render.ExprTexts` | main.go:266-271 | The type-argument texts of an instantiation are the renderings of the arguments, one per argument, in order. |
| `Render.FormatFields` | main.go:201-217 | The nested loop gives each field's names joined by ", " plus one space (nothing for an unnamed field), then its type. Fields are separated by ", ", with no trailing separator. |
| `Render.NamesPart` | main.go:204-210 | The inner loop of the field formatter writes a comma after every name but the last and a space after each. This gives the names joined by ", " plus a single space. |
| `Render.FormatType` | main.go:219-297 | One template per node kind. Its properties are stated by `Render.SingleLine` (no line break for tidy input), `Render.EmptyIffNil` (only the absent node is empty), `Render.ChanRendering`, `Render.IndexListSingle`, `Render.FuncLitAsType` and `Render.OperandPrefix`. |
| `Render.SingleLine` | main.go:219-297 | A tree whose names, operators and literals contain no line break renders on one line. This holds for every node kind. |
| `Render.SingleLineFields` | main.go:201-217 | A parameter list with tidy names and types renders on one line. |
| `Render.SingleLineSignature` | main.go:233-234 | A function type's rendering (parameters and results) is on one line when its parts are tidy. |
| `Render.EmptyIffNil` | main.go:219-297 | Only the absent node renders as the empty text, so the `var`/`const` formatter's empty-type test means "no type". |
| `Render.ChanRendering` | main.go:237-246 | Direction 1 (`SEND`) prints `<-chan `, direction 2 (`RECV`) prints `chan<- ` and direction 3 prints `chan `. Any other direction prints only the separating space before the element. |
| `Render.IndexListSingle` | main.go:264-271 | A one-argument `IndexListExpr` prints the same as the `IndexExpr` with that argument. |
| `Render.FuncLitAsType` | main.go:262-263 | A function literal prints as its function type, without the body. |
| `Render.OperandPrefix` | main.go:225-293 | Selector, call, composite literal, index, index list, slice, type assertion and binary nodes print their operand's text first. |
| `Render.SliceExamples` | main.go:274-291 | `x[:3]` and `x[1:2:3]`: an absent bound prints as nothing, and the third colon appears only for a three-index slice. |
| `Render.ArrayExamples` | main.go:229-230 | `[4]int`, and `[]int` for an absent length. |
| `Render.ResultsText` | main.go:299-313 | `formatFuncResults`. Its rule is stated by `Render.ResultsParenthesised` and `Render.ResultsBare`, which together cover every non-nil list. |
| `Render.ResultsParenthesised` | main.go:301-310 | A result list with several fields, or one field with at least one name, prints as a space and the fields in parentheses. |
| `Render.ResultsBare` | main.go:301-310 | An empty result list, or one unnamed field, prints as a space and the fields with no parentheses. |
| `Render.ResultSingleUnnamed` | main.go:299-313 | One unnamed result of type `t` prints as a space and the type of `t`. |
| `Render.ResultSingleNamed` | main.go:299-313 | One result with one name `n` prints as ` (n t)`, as in ` (err error)`. |
| `Render.ResultExamples` | main.go:299-313 | A nil result list prints nothing. One unnamed result is bare (` error`). ` (err error)`, ` (n int, err error)` and ` (a, b int)` are parenthesised. An empty non-nil list leaves a lone space. |
| `Visibility.IsUpper0` | main.go:315-320 | `isUpper0`. Its behaviour is stated by `Visibility.PointerMarkerIgnored`, `Visibility.SecondMarkerNotStripped` and `Visibility.VerdictOfExtension`. |
| `Visibility.PointerMarkerIgnored` | main.go:315-320 | A single leading `*` does not change whether a name counts as upper case. |
| `Visibility.SecondMarkerNotStripped` | main.go:315-320 | Only one `*` is looked past: `**T` is never upper case. |
| `Visibility.VerdictOfExtension` | main.go:315-320 | The verdict depends only on the first one or two characters, so a text that extends a classified prefix gets the same verdict. |
| `Decls.FormatFuncDecl` | main.go:177-199 | The text is empty exactly when the receiver is one field without a name, as in `func (T) String() string`. Every other declaration gives a signature or a diagnostic. |
| `Decls.StrangeReceiverUnreachable` | main.go:180-181 | For every declaration `exported` accepts without panicking, the receiver-count diagnostic is not produced. |
| `Decls.GenericFuncPrefix` | main.go:192-196 | A function with type parameters prints `func name[params](`: the type parameters come in brackets right after the name. |
| `Decls.PlainFuncPrefix` | main.go:192-196 | A function without type parameters prints `func name(`, with no brackets. |
| `Decls.GenericFuncExample` | main.go:177-199 | `func Map[T, U any](xs []T) []U` is exported and prints exactly that text. |
| `Decls.FuncDeclSingleLine` | main.go:177-199 | A function or method with tidy parts renders on one line. |
| `Decls.Exported` | main.go:322-331 | `exported`. Its verdict is stated by `Decls.ReceiverGating` for the receiver shapes `T`, `T[...]` and their pointers, with `Visibility.IsUpper0` for plain functions. |
| `Decls.ReceiverGating` | main.go:322-331 | Take a method whose receiver is `T`, `T[...]`, or a pointer to one of those. It is exported exactly when both the base type name and the method name start upper case. |
| `Decls.ReceiverExamples` | main.go:322-331 | `Foo` on receiver `bar` is hidden. `Foo` on `*Bar` is shown as `func (r *Bar) Foo()`. |
| `Decls.ValueLines` | main.go:154-167 | A value spec gives one line per upper-case name, in order. Each line opens with the keyword, the name and a space. Which value each line carries is stated by `Decls.ValueLinesPosition`. |
| `Decls.ValueLinesPosition` | main.go:158-165 | The upper-case name at index `j` has the line at position "number of upper-case names before `j`". That line carries `= values[j]`, the value at the name's own index, and only when `j < len(Values)`. |
| `Decls.ValueSpecPosition` | main.go:144-166 | The same pairing holds for the lines a `var` or `const` spec contributes to its group. |
| `Decls.SpecLines` | main.go:136-167 | A spec contributes one line per exported name it declares under the group's keyword. A spec of the wrong kind for the keyword contributes none. |
| `Decls.GenDeclLines` | main.go:134-171 | A group gives exactly one line per exported name, in source order, each opening with the keyword and that name. The value on a `var`/`const` line is given by `Decls.ValueSpecPosition`. |
| `Decls.FormatGenDecl` | main.go:134-171 | The group's text is empty exactly when it declares no exported name. |
| `Decls.ExportedNamesAreUpper` | main.go:134-171 | Every name a group exports is upper case, and an `import` group exports nothing. |
| `Decls.ExportedNamesComplete` | main.go:134-171 | Every upper-case name that a group declares under its keyword is exported. |
| `Decls.ConstIotaExample` | main.go:154-166 | For any two exported names `A` and `B`, `const ( A = iota; B )` prints `const A = iota` and `const B `. The second line keeps its trailing space. |
| `Decls.VarPositionExample` | main.go:160-166 | In `var a, B int = 1, 2`, `a` is dropped and `B` is paired with the value at its own position: `var B int = 2`. |
| `Decls.VarMissingValueExample` | main.go:160-166 | For any two exported names and one initialiser `v` (a call `f()`, say), `var A, B = v` prints `var A = ` followed by the rendering of `v`, then the line `var B `. The name beyond the initialisers gets no `=` and keeps its trailing space. |
| `Decls.TypeExamples` | main.go:136-142 | Type parameters are not printed and struct bodies print as `struct{}`. A lower-case type and an import group print nothing. |
| `Exporter.DeclLines` | main.go:112-122 | Each declaration adds at most one entry, and adds one exactly when it contributes. A group's entry is never empty. A function's entry is its formatted declaration. |
| `Exporter.Collected` | main.go:110-124 | A file yields at most one line per declaration. It yields no line exactly when no declaration contributes. |
| `Exporter.CollectedAppend` | main.go:110-124 | Collecting the lines of two consecutive runs of declarations is collecting each run and concatenating. |
| `Exporter.CollectedOrder` | main.go:111-122 | Source order: a contributing declaration's line comes right after the lines of all declarations before it. |
| `Exporter.CollectLines` | main.go:110-124 | The append loop produces exactly the collected lines. |
| `Exporter.PrintGoFileExport` | main.go:109-132 | A file prints nothing when no declaration contributes. Otherwise it prints a `// name:` header, the collected lines and one blank line. |
| `Exporter.UnnamedReceiverExample` | main.go:113-115 | An exported method whose receiver has no name is collected as an empty line. |
| `Exporter.FileExamples` | main.go:109-124 | A file of unexported names prints nothing. An import group beside `func Run()` leaves only `func Run()`. |
| `Exporter.IsGoSource` | main.go:96 | The file filter. Its behaviour is stated by `Exporter.SourceFiles`, `Exporter.SourceFilesAppend` and `Exporter.SourceFilterExamples`. |
| `Exporter.SourceFiles` | main.go:95-98 | The files read are exactly the entries that are not directories, end in `.go`, and do not end in `_test.go`. |
| `Exporter.SourceFilesAppend` | main.go:95-104 | Filtering keeps listing order: the files read from two consecutive runs of a listing are those of the first run, then those of the second. |
| `Exporter.SourceFilterExamples` | main.go:96 | These are skipped: test files, directories, other suffixes and a bare `_test.go`. A bare `.go` is read. |
| `Resolver.SearchPackagePath` | main.go:49-67 | `searchPackagePathFromGoModCache`. Its result is stated by `Resolver.SearchMeetsChosen` against the independent `Chosen` description. |
| `Resolver.FirstMatch` | main.go:57-62 | Returns the first entry in listing order that is a directory named the segment or starting with the segment and `@`. Earlier entries do not match. None means no entry matches. |
| `Resolver.Descend` | main.go:51-66 | A successful descent picks exactly one name per segment. |
| `Resolver.DescendMeetsChosen` | main.go:49-67 | The descent returns exactly the chosen names when, at every level, each name is the first match in the directory reached so far. It fails only when no such names exist. |
| `Resolver.SearchMeetsChosen` | main.go:49-67 | The search succeeds exactly when a chosen descent through every segment exists. Its result is then the root followed by one chosen name per segment. |
| `Resolver.PackageDir` | main.go:24-31 | A non-empty primary directory is used as is. Otherwise the result is `Some` exactly when a chosen descent through every segment exists, and then it is the root followed by the chosen names. `None` is the "module not found" abort. The directory used is never empty. |
| `Resolver.VersionedExample` | main.go:49-67 | `a/b` resolves to `a/b@1.2.3` in the cache. |
| `Resolver.FirstInListingExample` | main.go:57-62 | In the name-ordered listing `b` (a file), `b@v1`, `b@v2`, `bc`, the file is passed over and `b@v1` wins. |
| `Resolver.MatchExamples` | main.go:58 | A directory named `b` or `b@v1` matches the segment `b`. A file `b` and a directory `bc` do not. |
| `Resolver.MissingExample` | main.go:24-31 | With no match the run aborts. A directory from the primary lookup is used as is. |
| `Resolver.SeparatorExample` | main.go:52 | On a host whose separator is `\`, the import path `a/b` is a single segment. |

## Left out

- Printing: the model returns the lines `printGoFileExport` would print, and
  `Exporter.PrintGoFileExport` takes the header's base name as a parameter.
  The notice line `main` prints after the fallback search, with its result (main.go:26-27), is not modelled.
- `main`'s argument loop and `os.Getwd`. These are I/O; each import path is one call of `Resolver.PackageDir`.
- `getPackagePath` (main.go:69-75) calls `build.Default.Import`, a foreign
  build-system lookup. Its answer is the `primary` parameter of `Resolver.PackageDir`.
- `goModCache` (main.go:36-47) reads the environment. The cache root is a parameter.
- `os.ReadDir`, its sort by name, `parser.ParseFile`, parse-error skipping and
  the `main`-package skip in `printExported` (main.go:77-107). A file is given as its
  already-parsed declarations, and a directory as an already-ordered listing.
- Listing order: `os.ReadDir` returns a directory's entries sorted by name, while a
  `FileTree` listing may be in any order. The results hold for every order, and the
  worked example listings are written in name order.
- `filepath.Join`: it is modelled as `dir + "/" + name`, without path cleaning.
  `filepath.Base` of the header is the base name passed in.
- `unicode.IsUpper`: it is restricted to ASCII `A`–`Z`, not the full Unicode tables.
- `%#v` debug formatting: it is an opaque string. An unsupported node carries its own.
  A function declaration carries one text (`recvDebug`), used by both receiver diagnostics.
- Panics (index out of range in `isUpper0`, the receiver-count panic in
  `exported`, a failing `os.ReadDir` in the search) are preconditions, not behaviour.
- Go's byte and rune distinction: a string is a sequence of characters, and
  `isUpper0` indexes runes, as the source does.
