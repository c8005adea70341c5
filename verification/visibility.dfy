/** The visibility classifier `isUpper0`: a Go name is exported when its first
    character is upper case, looking past one leading `*` so that a rendered
    pointer receiver such as `*Bar` classifies as `Bar` does. */
module Visibility {
  import opened Strings

  /** The upper-case test on one character; `unicode.IsUpper` restricted to ASCII. */
  predicate IsUpper(c: char) {
    'A' <= c <= 'Z'
  }

  /** The inputs `isUpper0` accepts without an index-out-of-range panic: a
      non-empty text, with a character after a leading `*`. */
  predicate Classifiable(s: string) {
    |s| > 0 && (s[0] == '*' ==> |s| >= 2)
  }

  /** `isUpper0`: the first character, or the second after a leading `*`, is upper case. */
  predicate IsUpper0(s: string)
    requires Classifiable(s)
  {
    if HasPrefix(s, "*") then IsUpper(s[1]) else IsUpper(s[0])
  }

  /** Without a leading `*`, the verdict is the case of the first character. */
  lemma PlainVerdict(s: string)
    requires |s| > 0 && s[0] != '*'
    ensures Classifiable(s)
    ensures IsUpper0(s) <==> IsUpper(s[0])
  {
    assert s[..1][0] == s[0];
  }

  /** One leading `*` does not change the verdict. */
  lemma PointerMarkerIgnored(s: string)
    requires |s| > 0 && s[0] != '*'
    ensures Classifiable("*" + s) && Classifiable(s)
    ensures IsUpper0("*" + s) <==> IsUpper0(s)
  {
    assert ("*" + s)[1] == s[0];
  }

  /** Only one `*` is looked past: a second one is not upper case. */
  lemma SecondMarkerNotStripped(s: string)
    ensures Classifiable("**" + s)
    ensures !IsUpper0("**" + s)
  {
    assert ("**" + s)[1] == '*';
  }

  /** The verdict depends only on the first one or two characters, so any
      extension of a classifiable text gets the same verdict. */
  lemma VerdictOfExtension(s: string, t: string)
    requires Classifiable(s) && HasPrefix(t, s)
    ensures Classifiable(t)
    ensures IsUpper0(t) <==> IsUpper0(s)
  {
    assert t[0] == s[0];
    if s[0] == '*' {
      assert t[1] == s[1];
    }
  }
}
