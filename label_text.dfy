/** Text of YOLO label files as Python reads and writes it: `readlines()` (lines
    keep their "\n"), `writelines` (plain concatenation), `str.split()` (tokens
    separated by runs of whitespace) and `" ".join(...)`. File text is taken as
    Python reads it in text mode, after newline translation. */
module LabelText {
  import opened Seqs

  /** `c.isspace()`: the characters `str.split()` separates on. */
  predicate IsSpace(c: char)
  {
    c == ' ' || c == '\t' || c == '\n' || c == '\r' || c == '\U{0B}' || c == '\U{0C}'
    || ('\U{1C}' <= c <= '\U{1F}') || c == '\U{85}' || c == '\U{A0}' || c == '\U{1680}'
    || ('\U{2000}' <= c <= '\U{200A}') || c == '\U{2028}' || c == '\U{2029}'
    || c == '\U{202F}' || c == '\U{205F}' || c == '\U{3000}'
  }

  predicate IsWord(t: string)
  {
    |t| >= 1 && forall k :: 0 <= k < |t| ==> !IsSpace(t[k])
  }

  /** Length of the leading run of non-whitespace characters. */
  function WordLen(s: string): (n: nat)
    ensures n <= |s|
    ensures forall k :: 0 <= k < n ==> !IsSpace(s[k])
    ensures n < |s| ==> IsSpace(s[n])
  {
    if s == [] || IsSpace(s[0]) then 0 else 1 + WordLen(s[1..])
  }

  /** `s.split()` (and `s.strip().split()`, which is the same list). */
  function Tokens(s: string): (ts: seq<string>)
    ensures forall k :: 0 <= k < |ts| ==> IsWord(ts[k])
    decreases |s|
  {
    if s == [] then []
    else if IsSpace(s[0]) then Tokens(s[1..])
    else
      var n := WordLen(s);
      [s[..n]] + Tokens(s[n..])
  }

  /** A word followed by whitespace (or nothing) is the first token. */
  lemma {:induction false} TokensWordThen(w: string, rest: string)
    requires IsWord(w) && (rest == [] || IsSpace(rest[0]))
    ensures Tokens(w + rest) == [w] + Tokens(rest)
  {
    var s := w + rest;
    assert WordLenIs: WordLen(s) == |w| by { WordLenOf(w, rest); }
    assert s[..|w|] == w && s[|w|..] == rest;
  }

  lemma {:induction false} WordLenOf(w: string, rest: string)
    requires IsWord(w) && (rest == [] || IsSpace(rest[0]))
    ensures WordLen(w + rest) == |w|
    decreases |w|
  {
    var s := w + rest;
    if |w| > 1 {
      assert s[1..] == w[1..] + rest;
      WordLenOf(w[1..], rest);
    } else {
      assert s[1..] == rest;
    }
  }

  lemma Regroup(a: string, b: string, c: string, d: string)
    ensures a + b + c + d == a + (b + (c + d))
  {
  }

  /** A word, a space and more text: the word, then the tokens of the rest. */
  lemma TokensAfterSpace(w: string, rest: string)
    requires IsWord(w)
    ensures Tokens(w + (" " + rest)) == [w] + Tokens(rest)
  {
    TokensWordThen(w, " " + rest);
    assert (" " + rest)[1..] == rest;
  }

  /** Joining words with single spaces and ending the line splits back into the words. */
  lemma {:induction false} TokensOfJoinedLine(ts: seq<string>)
    requires |ts| >= 1 && forall k :: 0 <= k < |ts| ==> IsWord(ts[k])
    ensures Tokens(Join(ts, " ") + "\n") == ts
  {
    if |ts| == 1 {
      TokensWordThen(ts[0], "\n");
      assert "\n"[1..] == [];
    } else {
      var rest := Join(ts[1..], " ") + "\n";
      Regroup(ts[0], " ", Join(ts[1..], " "), "\n");
      TokensAfterSpace(ts[0], rest);
      TokensOfJoinedLine(ts[1..]);
      assert ts == [ts[0]] + ts[1..];
    }
  }

  /** Length of the first line of `s`, its "\n" included when there is one. */
  function LineLen(s: string): (n: nat)
    requires s != []
    ensures 1 <= n <= |s|
    ensures forall k :: 0 <= k < n - 1 ==> s[k] != '\n'
    ensures n < |s| ==> s[n - 1] == '\n'
  {
    if s[0] == '\n' || |s| == 1 then 1 else 1 + LineLen(s[1..])
  }

  /** `f.readlines()`: every line keeps its "\n"; the last may lack one. */
  function ReadLines(s: string): seq<string>
    decreases |s|
  {
    if s == [] then [] else var n := LineLen(s); [s[..n]] + ReadLines(s[n..])
  }

  /** One line as `readlines()` yields it: non-empty, no "\n" before its end. */
  predicate IsLine(l: string)
  {
    |l| >= 1 && forall j :: 0 <= j < |l| - 1 ==> l[j] != '\n'
  }

  predicate EndsWithNewline(l: string)
  {
    |l| >= 1 && l[|l| - 1] == '\n'
  }

  /** What a list of lines must look like to be read back unchanged: lines, all
      but the last ending in "\n". */
  predicate WellFormedLines(ls: seq<string>)
  {
    && (forall k :: 0 <= k < |ls| ==> IsLine(ls[k]))
    && (forall k :: 0 <= k < |ls| - 1 ==> EndsWithNewline(ls[k]))
  }

  /** Words joined by single spaces hold no "\n": it is whitespace. */
  lemma {:induction false} JoinedWordsHaveNoNewline(ts: seq<string>)
    requires forall k :: 0 <= k < |ts| ==> IsWord(ts[k])
    ensures '\n' !in Join(ts, " ")
  {
    if |ts| == 1 {
      assert IsWord(ts[0]);
    } else if |ts| > 1 {
      JoinedWordsHaveNoNewline(ts[1..]);
      assert IsWord(ts[0]);
      assert Join(ts, " ") == ts[0] + " " + Join(ts[1..], " ");
    }
  }

  /** Writing back what was read gives the same text. */
  lemma {:induction false} ConcatReadLines(s: string)
    ensures Concat(ReadLines(s)) == s
    decreases |s|
  {
    if s != [] {
      var n := LineLen(s);
      var head, tail := s[..n], s[n..];
      assert ReadLines(s) == [head] + ReadLines(tail);
      ConcatReadLines(tail);
      ConcatPrepend(head, ReadLines(tail));
      assert head + tail == s;
    }
  }

  lemma {:induction false} ReadLinesWellFormed(s: string)
    ensures WellFormedLines(ReadLines(s))
    decreases |s|
  {
    if s != [] {
      var n := LineLen(s);
      ReadLinesWellFormed(s[n..]);
      var ls := ReadLines(s);
      assert ls == [s[..n]] + ReadLines(s[n..]);
      if ReadLines(s[n..]) != [] {
        assert s[n..] != [];
      }
    }
  }

  lemma {:induction false} LineLenOf(h: string, x: string)
    requires |h| >= 1 && (forall j :: 0 <= j < |h| - 1 ==> h[j] != '\n')
    requires h[|h| - 1] == '\n' || x == []
    ensures LineLen(h + x) == |h|
    decreases |h|
  {
    var s := h + x;
    if |h| > 1 {
      assert s[1..] == h[1..] + x;
      LineLenOf(h[1..], x);
    }
  }

  /** Reading back what was written gives the same lines, when they are well formed. */
  lemma {:induction false} ReadLinesConcat(ls: seq<string>)
    requires WellFormedLines(ls)
    ensures ReadLines(Concat(ls)) == ls
    decreases |ls|
  {
    if ls != [] {
      var h, rest := ls[0], ls[1..];
      assert ls == [h] + rest;
      ConcatPrepend(h, rest);
      var s := Concat(ls);
      assert s == h + Concat(rest);
      assert IsLine(h);
      if rest != [] {
        assert EndsWithNewline(ls[0]);
      } else {
        assert Concat(rest) == [];
      }
      LineLenOf(h, Concat(rest));
      assert s[..|h|] == h && s[|h|..] == Concat(rest);
      assert WellFormedLines(rest) by {
        forall k | 0 <= k < |rest| ensures rest[k] == ls[k + 1] { }
      }
      ReadLinesConcat(rest);
    }
  }
}
