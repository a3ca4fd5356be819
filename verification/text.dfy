/** Small string utilities used to read diagnostics back: prefix and suffix
    removal and the first and last position of a character. */
module Text {
  import opened Wrappers

  function StripPrefix(s: string, p: string): (r: Option<string>)
    ensures r.Some? <==> |p| <= |s| && s[..|p|] == p
    ensures r.Some? ==> s == p + r.value
  {
    if |p| <= |s| && s[..|p|] == p then Some(s[|p|..]) else None
  }

  function StripSuffix(s: string, p: string): (r: Option<string>)
    ensures r.Some? <==> |p| <= |s| && s[|s| - |p|..] == p
    ensures r.Some? ==> s == r.value + p
  {
    if |p| <= |s| && s[|s| - |p|..] == p then Some(s[..|s| - |p|]) else None
  }

  /** The position of the first `ch` in `s`, if any. */
  function FirstIndexOf(s: string, ch: char): (r: Option<nat>)
    ensures r.Some? ==> r.value < |s|
  {
    if |s| == 0 then None
    else if s[0] == ch then Some(0)
    else match FirstIndexOf(s[1..], ch)
      case None => None
      case Some(i) => Some(i + 1)
  }

  /** The position of the last `ch` in `s`, if any. */
  function LastIndexOf(s: string, ch: char): (r: Option<nat>)
    ensures r.Some? ==> r.value < |s|
  {
    if |s| == 0 then None
    else if s[|s| - 1] == ch then Some(|s| - 1)
    else LastIndexOf(s[..|s| - 1], ch)
  }

  lemma StripPrefixOfConcat(p: string, x: string)
    ensures StripPrefix(p + x, p) == Some(x)
  {
    assert (p + x)[..|p|] == p;
  }

  lemma StripSuffixOfConcat(x: string, p: string)
    ensures StripSuffix(x + p, p) == Some(x)
  {
    assert (x + p)[|x + p| - |p|..] == p;
  }

  /** The first `ch` of `a + ([ch] + b)` is the one after `a` when `a` has none. */
  lemma {:induction false} FirstIndexOfSplit(a: string, ch: char, b: string)
    requires ch !in a
    ensures FirstIndexOf(a + ([ch] + b), ch) == Some(|a|)
  {
    var s := a + ([ch] + b);
    if |a| > 0 {
      assert s[0] == a[0] && s[1..] == a[1..] + ([ch] + b);
      FirstIndexOfSplit(a[1..], ch, b);
    }
  }

  /** The last `ch` of `a + ([ch] + b)` is the one after `a` when `b` has none. */
  lemma {:induction false} LastIndexOfSplit(a: string, ch: char, b: string)
    requires ch !in b
    ensures LastIndexOf(a + ([ch] + b), ch) == Some(|a|)
  {
    var s := a + ([ch] + b);
    if |b| > 0 {
      assert s[|s| - 1] == b[|b| - 1] && s[..|s| - 1] == a + ([ch] + b[..|b| - 1]);
      LastIndexOfSplit(a, ch, b[..|b| - 1]);
    }
  }

  /** The two sides of a split at position `|a|`. */
  lemma SplitAround(a: string, ch: char, b: string)
    ensures (a + ([ch] + b))[..|a|] == a
    ensures (a + ([ch] + b))[|a| + 1..] == b
  {
  }

  lemma SplitAt(a: string, b: string)
    ensures (a + b)[..|a|] == a
    ensures (a + b)[|a|..] == b
  {
  }
}
