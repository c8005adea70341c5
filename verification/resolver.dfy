/** The package path resolver: `searchPackagePathFromGoModCache` and the choice
    between the primary lookup and that fallback in `main`. The module cache is
    an abstract directory tree; its root and the path separator are parameters. */
module Resolver {
  import opened Strings
  import opened FileTree

  datatype Option<+T> = None | Some(value: T)

  /** A listing entry a segment selects: a directory named exactly the segment, or
      the segment followed by `@` and a version. */
  predicate Matches(e: DirEntry, seg: string) {
    e.isDir && (e.name == seg || HasPrefix(e.name, seg + "@"))
  }

  /** The index of the first entry, in listing order, that the segment selects. */
  function FirstMatch(entries: seq<DirEntry>, seg: string): (r: Option<nat>)
    ensures r.Some? ==> r.value < |entries| && Matches(entries[r.value], seg)
    ensures r.Some? ==> forall k :: 0 <= k < r.value ==> !Matches(entries[k], seg)
    ensures r.None? ==> forall k :: 0 <= k < |entries| ==> !Matches(entries[k], seg)
  {
    if |entries| == 0 then None
    else if Matches(entries[0], seg) then Some(0)
    else match FirstMatch(entries[1..], seg)
      case None => None
      case Some(j) => Some(j + 1)
  }

  /** The loop of `searchPackagePathFromGoModCache`, from directory `pa`: for each
      segment, descend into the first matching entry; the names chosen, or `None`
      as soon as a segment matches nothing. */
  function Descend(fs: Tree, pa: string, segs: seq<string>): (r: Option<seq<string>>)
    requires pa in fs && Closed(fs)
    ensures r.Some? ==> |r.value| == |segs|
    decreases |segs|
  {
    if |segs| == 0 then Some([])
    else match FirstMatch(fs[pa], segs[0])
      case None => None
      case Some(j) =>
        var name := fs[pa][j].name;
        match Descend(fs, PathJoin(pa, name), segs[1..])
        case None => None
        case Some(rest) => Some([name] + rest)
  }

  /** The path reached from `root` through `names`. */
  function PathFrom(root: string, names: seq<string>): string
  {
    if |names| == 0 then root else root + "/" + Join(names, "/")
  }

  /** `searchPackagePathFromGoModCache`: split the import path on the separator and
      descend from the cache root; the empty text when some segment has no match. */
  function SearchPackagePath(fs: Tree, root: string, sep: char, importPath: string): string
    requires root in fs && Closed(fs)
  {
    match Descend(fs, root, Split(importPath, sep))
    case None => ""
    case Some(names) => PathFrom(root, names)
  }

  /** `main`'s choice: the primary lookup's directory when it found one, else the
      fallback search; `None` is the "module not found" abort. The fallback
      succeeds exactly when a chosen descent exists, and then gives its path. */
  function PackageDir(primary: string, fs: Tree, root: string, sep: char, importPath: string): (r: Option<string>)
    requires primary == "" ==> root in fs && Closed(fs)
    ensures r.Some? ==> r.value != ""
    ensures primary != "" ==> r == Some(primary)
    ensures primary == "" ==> (r.Some? <==> exists names :: Chosen(fs, root, Split(importPath, sep), names))
    ensures primary == "" ==> forall names :: Chosen(fs, root, Split(importPath, sep), names) ==>
      r == Some(root + "/" + Join(names, "/"))
  {
    if primary != "" then Some(primary)
    else
      SearchMeetsChosen(fs, root, sep, importPath);
      var found := SearchPackagePath(fs, root, sep, importPath);
      if found == "" then None else Some(found)
  }

  // ---------------------------------------------------------------------------
  // Reference description of a successful search
  // ---------------------------------------------------------------------------

  /** `name` is the name of the first entry in the listing that `seg` selects. */
  ghost predicate FirstMatchName(entries: seq<DirEntry>, seg: string, name: string) {
    exists j :: 0 <= j < |entries| && entries[j].name == name && Matches(entries[j], seg)
      && forall k :: 0 <= k < j ==> !Matches(entries[k], seg)
  }

  /** The directory visited before segment `i`: the root, then the root with the
      first `i` chosen names appended. */
  function DirAt(root: string, names: seq<string>, i: nat): string
    requires i <= |names|
  {
    PathFrom(root, names[..i])
  }

  /** `names` is the deterministic descent for `segs`: one name per segment, each
      the first entry selected by its segment in the directory reached so far. */
  ghost predicate Chosen(fs: Tree, root: string, segs: seq<string>, names: seq<string>) {
    |names| == |segs|
    && forall i :: 0 <= i < |segs| ==>
         DirAt(root, names, i) in fs && FirstMatchName(fs[DirAt(root, names, i)], segs[i], names[i])
  }

  /** Descending one level turns the directories after the first into those seen
      from the first chosen sub-directory. */
  lemma DirAtStep(root: string, names: seq<string>, i: nat)
    requires |names| > 0 && i < |names|
    ensures DirAt(root, names, i + 1) == DirAt(PathJoin(root, names[0]), names[1..], i)
  {
    if i > 0 {
      assert names[..i + 1][1..] == names[1..][..i];
      assert Join(names[..i + 1], "/") == names[0] + "/" + Join(names[1..][..i], "/");
    }
  }

  /** `Chosen` unfolds one segment at a time. */
  lemma ChosenStep(fs: Tree, root: string, segs: seq<string>, names: seq<string>)
    requires |segs| > 0 && |names| == |segs|
    ensures Chosen(fs, root, segs, names) <==>
      root in fs && FirstMatchName(fs[root], segs[0], names[0])
      && Chosen(fs, PathJoin(root, names[0]), segs[1..], names[1..])
  {
    var sub := PathJoin(root, names[0]);
    forall i | 0 <= i < |segs| - 1
      ensures DirAt(root, names, i + 1) == DirAt(sub, names[1..], i)
    {
      DirAtStep(root, names, i);
    }
    if Chosen(fs, root, segs, names) {
      assert DirAt(root, names, 0) == root;
      forall i | 0 <= i < |segs| - 1
        ensures DirAt(sub, names[1..], i) in fs
          && FirstMatchName(fs[DirAt(sub, names[1..], i)], segs[1..][i], names[1..][i])
      {
        assert segs[1..][i] == segs[i + 1] && names[1..][i] == names[i + 1];
      }
    }
    if root in fs && FirstMatchName(fs[root], segs[0], names[0])
      && Chosen(fs, sub, segs[1..], names[1..])
    {
      forall i | 0 <= i < |segs|
        ensures DirAt(root, names, i) in fs && FirstMatchName(fs[DirAt(root, names, i)], segs[i], names[i])
      {
        if i > 0 {
          assert segs[1..][i - 1] == segs[i] && names[1..][i - 1] == names[i];
        }
      }
    }
  }

  /** The descent finds exactly the `Chosen` names: what it returns is chosen, and
      when some names are chosen it returns them (so it fails only when none are). */
  lemma {:induction false} DescendMeetsChosen(fs: Tree, pa: string, segs: seq<string>)
    requires pa in fs && Closed(fs)
    ensures Descend(fs, pa, segs).Some? ==> Chosen(fs, pa, segs, Descend(fs, pa, segs).value)
    ensures forall names :: Chosen(fs, pa, segs, names) ==> Descend(fs, pa, segs) == Some(names)
    decreases |segs|
  {
    if |segs| > 0 {
      var entries := fs[pa];
      var m := FirstMatch(entries, segs[0]);
      if m.Some? {
        var name := entries[m.value].name;
        var sub := PathJoin(pa, name);
        DescendMeetsChosen(fs, sub, segs[1..]);
        var r := Descend(fs, pa, segs);
        if r.Some? {
          ChosenStep(fs, pa, segs, r.value);
          assert r.value[1..] == Descend(fs, sub, segs[1..]).value;
        }
        forall names | Chosen(fs, pa, segs, names)
          ensures r == Some(names)
        {
          ChosenStep(fs, pa, segs, names);
          var j :| 0 <= j < |entries| && entries[j].name == names[0] && Matches(entries[j], segs[0])
            && forall k :: 0 <= k < j ==> !Matches(entries[k], segs[0]);
          assert j == m.value;
          assert names == [name] + names[1..];
        }
      } else {
        forall names | Chosen(fs, pa, segs, names)
          ensures false
        {
          ChosenStep(fs, pa, segs, names);
        }
      }
    }
  }

  /** The fallback search in full: it succeeds exactly when a deterministic descent
      through every segment exists, and then returns the root followed by one
      chosen name per segment, separated by "/". */
  lemma SearchMeetsChosen(fs: Tree, root: string, sep: char, importPath: string)
    requires root in fs && Closed(fs)
    ensures SearchPackagePath(fs, root, sep, importPath) != ""
      <==> exists names :: Chosen(fs, root, Split(importPath, sep), names)
    ensures forall names :: Chosen(fs, root, Split(importPath, sep), names) ==>
      SearchPackagePath(fs, root, sep, importPath) == root + "/" + Join(names, "/")
  {
    var segs := Split(importPath, sep);
    DescendMeetsChosen(fs, root, segs);
    var r := Descend(fs, root, segs);
    if r.Some? {
      var names := r.value;
      assert Chosen(fs, root, segs, names);
      assert |names| > 0;
      var path := root + "/" + Join(names, "/");
      assert SearchPackagePath(fs, root, sep, importPath) == path;
      assert path[|root|] == '/';
      assert SearchPackagePath(fs, root, sep, importPath) != "";
      assert exists n :: Chosen(fs, root, Split(importPath, sep), n);
      forall other | Chosen(fs, root, segs, other)
        ensures SearchPackagePath(fs, root, sep, importPath) == root + "/" + Join(other, "/")
      {
        assert other == names;
      }
    } else {
      assert SearchPackagePath(fs, root, sep, importPath) == "";
    }
  }

  /** A module cache holding `a/b@1.2.3`. */
  function VersionedCache(): Tree
  {
    map["/cache" := [DirEntry("a", true)],
        "/cache/a" := [DirEntry("b@1.2.3", true)],
        "/cache/a/b@1.2.3" := []]
  }

  /** A module cache whose `a` lists, in name order, a file `b`, the directories
      `b@v1` and `b@v2`, and a directory `bc`. */
  function CrowdedCache(): Tree
  {
    map["/cache" := [DirEntry("a", true)],
        "/cache/a" := [DirEntry("b", false), DirEntry("b@v1", true), DirEntry("b@v2", true), DirEntry("bc", true)],
        "/cache/a/bc" := [], "/cache/a/b@v1" := [], "/cache/a/b@v2" := []]
  }

  /** A module cache whose `a` is empty. */
  function MissingCache(): Tree
  {
    map["/cache" := [DirEntry("a", true)], "/cache/a" := []]
  }

  /** One successful step of the descent, for the worked examples below. */
  lemma DescendOne(fs: Tree, pa: string, segs: seq<string>, j: nat, tail: seq<string>)
    requires pa in fs && Closed(fs) && |segs| > 0
    requires FirstMatch(fs[pa], segs[0]) == Some(j)
    requires Descend(fs, PathJoin(pa, fs[pa][j].name), segs[1..]) == Some(tail)
    ensures Descend(fs, pa, segs) == Some([fs[pa][j].name] + tail)
  {
  }

  /** A successful descent, read back as the search result. */
  lemma SearchFound(fs: Tree, root: string, sep: char, importPath: string, names: seq<string>)
    requires root in fs && Closed(fs)
    requires Descend(fs, root, Split(importPath, sep)) == Some(names)
    ensures SearchPackagePath(fs, root, sep, importPath) == PathFrom(root, names)
  {
  }

  lemma SplitAB()
    ensures Split("a/b", '/') == ["a", "b"]
  {
    SplitJoin(["a", "b"], '/');
    assert Join(["a", "b"], "/") == "a/b";
  }

  lemma VersionedCacheClosed()
    ensures "/cache" in VersionedCache() && Closed(VersionedCache())
  {
    var fs := VersionedCache();
    assert PathJoin("/cache", "a") == "/cache/a";
    assert PathJoin("/cache/a", "b@1.2.3") == "/cache/a/b@1.2.3";
  }

  lemma VersionedDescent()
    ensures "/cache" in VersionedCache() && Closed(VersionedCache())
      && Descend(VersionedCache(), "/cache", ["a", "b"]) == Some(["a", "b@1.2.3"])
  {
    VersionedCacheClosed();
    var fs := VersionedCache();
    assert PathJoin("/cache", "a") == "/cache/a";
    assert PathJoin("/cache/a", "b@1.2.3") == "/cache/a/b@1.2.3";
    assert Matches(DirEntry("b@1.2.3", true), "b") by {
      assert "b@1.2.3"[..2] == "b@";
    }
    assert FirstMatch(fs["/cache/a"], "b") == Some(0);
    assert FirstMatch(fs["/cache"], "a") == Some(0);
    assert ["a", "b"][1..] == ["b"] && ["b"][1..] == [];
    assert Descend(fs, "/cache/a/b@1.2.3", []) == Some([]);
    assert fs["/cache"][0].name == "a" && fs["/cache/a"][0].name == "b@1.2.3";
    DescendOne(fs, "/cache/a", ["b"], 0, []);
    assert ["b@1.2.3"] + [] == ["b@1.2.3"];
    DescendOne(fs, "/cache", ["a", "b"], 0, ["b@1.2.3"]);
    assert ["a"] + ["b@1.2.3"] == ["a", "b@1.2.3"];
  }

  /** With `a/b@1.2.3` under the cache root, `a/b` resolves to that directory. */
  lemma VersionedExample()
    ensures "/cache" in VersionedCache() && Closed(VersionedCache())
    ensures SearchPackagePath(VersionedCache(), "/cache", '/', "a/b") == "/cache/a/b@1.2.3"
  {
    VersionedDescent();
    FoundAB(VersionedCache(), "b@1.2.3", "/cache/a/b@1.2.3");
  }

  lemma CrowdedCacheClosed()
    ensures "/cache" in CrowdedCache() && Closed(CrowdedCache())
  {
    var fs := CrowdedCache();
    assert PathJoin("/cache", "a") == "/cache/a";
    assert PathJoin("/cache/a", "bc") == "/cache/a/bc";
    assert PathJoin("/cache/a", "b@v1") == "/cache/a/b@v1";
    assert PathJoin("/cache/a", "b@v2") == "/cache/a/b@v2";
  }

  /** Inside `a` of the crowded cache, `b` selects `b@v1`. */
  lemma CrowdedInner()
    ensures "/cache/a" in CrowdedCache() && Closed(CrowdedCache())
      && Descend(CrowdedCache(), "/cache/a", ["b"]) == Some(["b@v1"])
  {
    CrowdedCacheClosed();
    var fs := CrowdedCache();
    var list := fs["/cache/a"];
    assert PathJoin("/cache/a", "b@v1") == "/cache/a/b@v1";
    assert !Matches(list[0], "b");
    assert Matches(list[1], "b") by {
      assert "b@v1"[..2] == "b@";
    }
    assert FirstMatch(list, "b") == Some(1);
    assert ["b"][1..] == [];
    assert Descend(fs, "/cache/a/b@v1", []) == Some([]);
    assert list[1].name == "b@v1";
    DescendOne(fs, "/cache/a", ["b"], 1, []);
    assert ["b@v1"] + [] == ["b@v1"];
  }

  lemma CrowdedOuter()
    ensures "/cache" in CrowdedCache() && Closed(CrowdedCache())
      && Descend(CrowdedCache(), "/cache", ["a", "b"]) == Some(["a", "b@v1"])
  {
    CrowdedInner();
    var fs := CrowdedCache();
    assert PathJoin("/cache", "a") == "/cache/a";
    assert FirstMatch(fs["/cache"], "a") == Some(0);
    assert fs["/cache"][0].name == "a";
    assert ["a", "b"][1..] == ["b"];
    DescendOne(fs, "/cache", ["a", "b"], 0, ["b@v1"]);
    assert ["a"] + ["b@v1"] == ["a", "b@v1"];
  }

  /** The first matching directory in listing order wins, and a file named `b`
      does not match the segment `b`. */
  lemma FirstInListingExample()
    ensures "/cache" in CrowdedCache() && Closed(CrowdedCache())
    ensures SearchPackagePath(CrowdedCache(), "/cache", '/', "a/b") == "/cache/a/b@v1"
  {
    assert "/cache" + "/" + ("a" + "/" + "b@v1") == "/cache/a/b@v1";
    CrowdedOuter();
    FoundAB(CrowdedCache(), "b@v1", "/cache/a/b@v1");
  }

  /** The matching rule on single entries: a directory named exactly the segment
      or the segment and `@` matches; a file of that name and a directory whose
      name merely starts with the segment do not. */
  lemma MatchExamples()
    ensures Matches(DirEntry("b", true), "b")
    ensures Matches(DirEntry("b@v1", true), "b")
    ensures !Matches(DirEntry("b", false), "b")
    ensures !Matches(DirEntry("bc", true), "b")
  {
    assert "b@v1"[..2] == "b@";
    assert "bc"[..2][1] == 'c';
  }

  /** A descent through `a` and then `v` reads back as the path `/cache/a/v`. */
  lemma FoundAB(fs: Tree, v: string, path: string)
    requires "/cache" in fs && Closed(fs)
    requires Descend(fs, "/cache", ["a", "b"]) == Some(["a", v])
    requires path == "/cache" + "/" + ("a" + "/" + v)
    ensures SearchPackagePath(fs, "/cache", '/', "a/b") == path
  {
    SplitAB();
    SearchFound(fs, "/cache", '/', "a/b", ["a", v]);
    assert ["a", v][1..] == [v];
  }

  lemma MissingCacheClosed()
    ensures "/cache" in MissingCache() && Closed(MissingCache())
      && Descend(MissingCache(), "/cache/a", ["b"]) == None
  {
    var fs := MissingCache();
    assert PathJoin("/cache", "a") == "/cache/a";
    assert fs["/cache/a"] == [];
  }

  /** With no `b` under `a` the search fails, and the run aborts; a directory from
      the primary lookup is used as is. */
  lemma MissingExample()
    ensures "/cache" in MissingCache() && Closed(MissingCache())
      && PackageDir("", MissingCache(), "/cache", '/', "a/b") == None
    ensures PackageDir("/src/a/b", map[], "/cache", '/', "a/b") == Some("/src/a/b")
  {
    MissingCacheClosed();
    var fs := MissingCache();
    assert PathJoin("/cache", "a") == "/cache/a";
    SplitAB();
    assert ["a", "b"][1..] == ["b"];
    assert FirstMatch(fs["/cache"], "a") == Some(0);
    assert fs["/cache"][0].name == "a";
    assert Descend(fs, "/cache", ["a", "b"]) == None;
  }

  /** The import path is split on the host separator, so on a host whose separator
      is not "/" a multi-segment import path is looked up as one segment. */
  lemma SeparatorExample()
    ensures Split("a/b", '\\') == ["a/b"]
  {
    SplitWhole("a/b", '\\');
  }
}
