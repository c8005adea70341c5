/** Text helpers mirroring the parts of Go's `strings` package the tool uses:
    `Join`, `Split` with a one-character separator, `HasPrefix` and `HasSuffix`. */
module Strings {

  predicate HasPrefix(s: string, prefix: string) {
    |prefix| <= |s| && s[..|prefix|] == prefix
  }

  predicate HasSuffix(s: string, suffix: string) {
    |suffix| <= |s| && s[|s| - |suffix|..] == suffix
  }

  /** A prefix stays a prefix when text is appended. */
  lemma PrefixExtend(s: string, p: string, t: string)
    requires HasPrefix(s, p)
    ensures HasPrefix(s + t, p)
  {
    assert (s + t)[..|p|] == s[..|p|];
  }

  /** Putting the same text in front keeps a prefix. */
  lemma PrefixFront(a: string, s: string, p: string)
    requires HasPrefix(s, p)
    ensures HasPrefix(a + s, a + p)
  {
    assert (a + s)[..|a + p|] == a + s[..|p|];
  }

  /** `strings.Join`: the parts in order, `sep` between neighbours. */
  function Join(parts: seq<string>, sep: string): (r: string)
    ensures |parts| == 0 ==> r == ""
    ensures |parts| == 1 ==> r == parts[0]
  {
    if |parts| == 0 then ""
    else if |parts| == 1 then parts[0]
    else parts[0] + sep + Join(parts[1..], sep)
  }

  /** Appending one part to a non-empty list adds exactly one separator. */
  lemma {:induction false} JoinSnoc(parts: seq<string>, x: string, sep: string)
    requires |parts| > 0
    ensures Join(parts + [x], sep) == Join(parts, sep) + sep + x
  {
    if |parts| == 1 {
      assert parts + [x] == [parts[0], x];
    } else {
      assert (parts + [x])[1..] == parts[1..] + [x];
      JoinSnoc(parts[1..], x, sep);
    }
  }

  /** A character absent from every part and from the separator is absent from the join. */
  lemma {:induction false} JoinExcludes(parts: seq<string>, sep: string, c: char)
    requires c !in sep
    requires forall i :: 0 <= i < |parts| ==> c !in parts[i]
    ensures c !in Join(parts, sep)
  {
    if |parts| > 1 {
      JoinExcludes(parts[1..], sep, c);
    }
  }

  /** The join starts with the first part. */
  lemma JoinStartsWithFirst(parts: seq<string>, sep: string)
    requires |parts| > 0
    ensures HasPrefix(Join(parts, sep), parts[0])
  {
    if |parts| > 1 {
      assert Join(parts, sep) == parts[0] + (sep + Join(parts[1..], sep));
    }
  }

  /** `strings.Split(s, string(sep))`: the maximal runs of `s` between occurrences of
      `sep`, so one more piece than there are separators, and never an empty list. */
  function Split(s: string, sep: char): (r: seq<string>)
    ensures |r| == multiset(s)[sep] + 1
    ensures forall i :: 0 <= i < |r| ==> sep !in r[i]
    ensures Join(r, [sep]) == s
  {
    if |s| == 0 then [""]
    else
      var rest := Split(s[1..], sep);
      SplitStep(s, sep, rest);
      if s[0] == sep then [""] + rest
      else [[s[0]] + rest[0]] + rest[1..]
  }

  /** The inductive step of `Split`: prepending one character either opens a new
      empty piece (the separator) or extends the first piece. */
  lemma SplitStep(s: string, sep: char, rest: seq<string>)
    requires |s| > 0 && |rest| > 0
    requires |rest| == multiset(s[1..])[sep] + 1
    requires forall i :: 0 <= i < |rest| ==> sep !in rest[i]
    requires Join(rest, [sep]) == s[1..]
    ensures s[0] == sep ==>
      var r := [""] + rest;
      |r| == multiset(s)[sep] + 1 && (forall i :: 0 <= i < |r| ==> sep !in r[i]) && Join(r, [sep]) == s
    ensures s[0] != sep ==>
      var r := [[s[0]] + rest[0]] + rest[1..];
      |r| == multiset(s)[sep] + 1 && (forall i :: 0 <= i < |r| ==> sep !in r[i]) && Join(r, [sep]) == s
  {
    assert s == [s[0]] + s[1..];
    assert multiset(s) == multiset{s[0]} + multiset(s[1..]);
    if s[0] == sep {
      SplitStepSep(s, sep, rest);
    } else {
      SplitStepOther(s, sep, rest);
    }
  }

  lemma SplitStepSep(s: string, sep: char, rest: seq<string>)
    requires |s| > 0 && |rest| > 0 && s[0] == sep
    requires forall i :: 0 <= i < |rest| ==> sep !in rest[i]
    requires Join(rest, [sep]) == s[1..]
    ensures forall i :: 0 <= i < |[""] + rest| ==> sep !in ([""] + rest)[i]
    ensures Join([""] + rest, [sep]) == s
  {
    var r := [""] + rest;
    assert r[1..] == rest;
    assert forall i :: 1 <= i < |r| ==> r[i] == rest[i - 1];
    assert s == [s[0]] + s[1..];
  }

  lemma SplitStepOther(s: string, sep: char, rest: seq<string>)
    requires |s| > 0 && |rest| > 0 && s[0] != sep
    requires forall i :: 0 <= i < |rest| ==> sep !in rest[i]
    requires Join(rest, [sep]) == s[1..]
    ensures var r := [[s[0]] + rest[0]] + rest[1..];
      (forall i :: 0 <= i < |r| ==> sep !in r[i]) && Join(r, [sep]) == s
  {
    var r := [[s[0]] + rest[0]] + rest[1..];
    if |rest| > 1 {
      assert r[1..] == rest[1..];
      assert Join(rest, [sep]) == rest[0] + [sep] + Join(rest[1..], [sep]);
    }
    assert forall i :: 1 <= i < |r| ==> r[i] == rest[i];
    assert s == [s[0]] + s[1..];
  }

  /** A separator-free prefix followed by the separator is split off as the first piece. */
  lemma {:induction false} SplitAfterPiece(x: string, sep: char, y: string)
    requires sep !in x
    ensures Split(x + [sep] + y, sep) == [x] + Split(y, sep)
  {
    if |x| == 0 {
      assert x + [sep] + y == [sep] + y;
      SplitAfterSep(sep, y);
    } else {
      SplitAfterPiece(x[1..], sep, y);
      SplitAfterLonger(x, sep, y);
    }
  }

  /** One more leading character before the separator extends the first piece. */
  lemma SplitAfterLonger(x: string, sep: char, y: string)
    requires |x| > 0 && sep !in x
    requires Split(x[1..] + [sep] + y, sep) == [x[1..]] + Split(y, sep)
    ensures Split(x + [sep] + y, sep) == [x] + Split(y, sep)
  {
    ConsAppend(x, sep, y);
    assert x[0] in x;
    ConsOntoPiece(x[0], x[1..] + [sep] + y, sep, x[1..], Split(y, sep));
    assert [x[0]] + x[1..] == x;
  }

  /** A character other than the separator joins the first piece. */
  lemma ConsOntoPiece(c: char, t: string, sep: char, p: string, rest: seq<string>)
    requires c != sep && Split(t, sep) == [p] + rest
    ensures Split([c] + t, sep) == [[c] + p] + rest
  {
    SplitCons(c, t, sep);
    assert ([p] + rest)[0] == p && ([p] + rest)[1..] == rest;
  }

  lemma ConsAppend(x: string, sep: char, y: string)
    requires |x| > 0
    ensures x + [sep] + y == [x[0]] + (x[1..] + [sep] + y)
  {
    assert x == [x[0]] + x[1..];
  }

  /** `Split` of a text given by its first character and the rest. */
  lemma SplitCons(c: char, t: string, sep: char)
    ensures Split([c] + t, sep)
      == if c == sep then [""] + Split(t, sep) else [[c] + Split(t, sep)[0]] + Split(t, sep)[1..]
  {
    assert ([c] + t)[0] == c && ([c] + t)[1..] == t;
  }

  lemma SplitAfterSep(sep: char, y: string)
    ensures Split([sep] + y, sep) == [""] + Split(y, sep)
  {
    assert ([sep] + y)[1..] == y;
  }

  /** Text without the separator is a single piece. */
  lemma {:induction false} SplitWhole(x: string, sep: char)
    requires sep !in x
    ensures Split(x, sep) == [x]
  {
    if |x| > 0 {
      SplitWhole(x[1..], sep);
      assert [x[0]] + x[1..] == x;
    }
  }

  /** Splitting undoes joining when no part contains the separator. */
  lemma {:induction false} SplitJoin(parts: seq<string>, sep: char)
    requires |parts| > 0
    requires forall i :: 0 <= i < |parts| ==> sep !in parts[i]
    ensures Split(Join(parts, [sep]), sep) == parts
  {
    if |parts| == 1 {
      SplitWhole(parts[0], sep);
    } else {
      SplitJoin(parts[1..], sep);
      SplitAfterPiece(parts[0], sep, Join(parts[1..], [sep]));
      assert [parts[0]] + parts[1..] == parts;
    }
  }
}
