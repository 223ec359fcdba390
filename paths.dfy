/** File names as the scripts see them through `pathlib`: the suffix rule of
    `PurePath.suffix`, `with_suffix`, `str.lower()` on a suffix, and directory
    entries (a regular file with its content, or a sub-directory). */
module Paths {

  /** One entry of a directory listing. */
  datatype Entry = File(data: string) | Dir

  /** `s.rfind(c)`: the last index holding `c`, or -1. */
  function LastIndexOf(s: string, c: char): (i: int)
    ensures -1 <= i < |s|
    ensures i >= 0 ==> s[i] == c
    ensures forall k :: i < k < |s| ==> s[k] != c
  {
    if s == [] then -1
    else if s[|s| - 1] == c then |s| - 1
    else LastIndexOf(s[..|s| - 1], c)
  }

  /** A suffix as `PurePath.suffix` yields it: a dot, at least one more character, no further dot. */
  predicate IsSuffixText(r: string)
  {
    2 <= |r| && r[0] == '.' && '.' !in r[1..]
  }

  /** `PurePath(name).suffix`: from the last dot on, when that dot is neither the
      first nor the last character of the name; otherwise empty. Its shape is
      stated by `SuffixShape`, not here, so that a name does not bring it into
      every proof that mentions one. */
  function Suffix(name: string): string
  {
    var i := LastIndexOf(name, '.');
    if 0 < i < |name| - 1 then name[i..] else ""
  }

  /** A suffix is empty or a dot and a dot-free tail that ends the name. */
  lemma SuffixShape(name: string)
    ensures var r := Suffix(name);
      && (r == "" || (IsSuffixText(r) && |r| < |name| && name[|name| - |r|..] == r))
      && (r == "" <==> (LastIndexOf(name, '.') <= 0 || LastIndexOf(name, '.') == |name| - 1))
  {
  }

  /** `PurePath(name).stem`: the name without its suffix. */
  function Stem(name: string): string
  {
    var i := LastIndexOf(name, '.');
    if 0 < i < |name| - 1 then name[..i] else name
  }

  /** The stem followed by the suffix is the name. */
  lemma StemAndSuffix(name: string)
    ensures Stem(name) + Suffix(name) == name
  {
  }

  /** `PurePath(name).with_suffix(suffix).name`. */
  function WithSuffix(name: string, suffix: string): string
  {
    Stem(name) + suffix
  }

  /** A dot-free, non-empty prefix in front of a suffix keeps that suffix. */
  lemma {:induction false} SuffixOfPrefixed(prefix: string, suffix: string)
    requires |prefix| >= 1 && '.' !in prefix && IsSuffixText(suffix)
    ensures Suffix(prefix + suffix) == suffix
  {
    var name := prefix + suffix;
    var i := LastIndexOf(name, '.');
    assert name[|prefix|] == '.';
    assert i >= |prefix|;
    assert name[i..] == suffix;
  }

  function LowerChar(c: char): (r: char)
    ensures 'A' <= c <= 'Z' ==> r as int == c as int + 32
    ensures !('A' <= c <= 'Z') ==> r == c
  {
    if 'A' <= c <= 'Z' then (c as int + 32) as char else c
  }

  /** `s.lower()` restricted to ASCII letters. */
  function Lower(s: string): (r: string)
    ensures |r| == |s|
    ensures forall k :: 0 <= k < |s| ==> r[k] == LowerChar(s[k])
  {
    seq(|s|, k requires 0 <= k < |s| => LowerChar(s[k]))
  }

  /** `PurePath(name).suffix.lower() in extensions`. */
  predicate HasSuffixIn(name: string, extensions: set<string>)
  {
    Lower(Suffix(name)) in extensions
  }
}
