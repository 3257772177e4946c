/** The string primitives the application leans on: JavaScript's `trim` and `split` on one character. */
module Text {

  /** The code points JavaScript's `String.prototype.trim` removes and the regular-expression
      class `\s` matches: the ECMAScript WhiteSpace and LineTerminator characters. */
  predicate IsWhitespace(c: char) {
    || c == '\t' || c == '\n' || c == '\U{B}' || c == '\U{C}' || c == '\r' || c == ' '
    || c == '\U{A0}' || c == '\U{1680}' || ('\U{2000}' <= c <= '\U{200A}')
    || c == '\U{2028}' || c == '\U{2029}' || c == '\U{202F}' || c == '\U{205F}'
    || c == '\U{3000}' || c == '\U{FEFF}'
  }

  /** Every character is whitespace (the empty string included). */
  predicate IsBlank(s: string) {
    forall i | 0 <= i < |s| :: IsWhitespace(s[i])
  }

  /** Neither end of `s` is whitespace. */
  predicate IsTrimmed(s: string) {
    |s| == 0 || (!IsWhitespace(s[0]) && !IsWhitespace(s[|s| - 1]))
  }

  /** Length of the whitespace run that starts `s`. */
  function LeadingBlanks(s: string): (n: nat)
    ensures n <= |s|
    ensures IsBlank(s[..n])
    ensures n < |s| ==> !IsWhitespace(s[n])
  {
    if |s| > 0 && IsWhitespace(s[0]) then 1 + LeadingBlanks(s[1..]) else 0
  }

  /** Length of the whitespace run that ends `s`. */
  function TrailingBlanks(s: string): (n: nat)
    ensures n <= |s|
    ensures IsBlank(s[|s| - n..])
    ensures n < |s| ==> !IsWhitespace(s[|s| - n - 1])
  {
    if |s| > 0 && IsWhitespace(s[|s| - 1]) then 1 + TrailingBlanks(s[..|s| - 1]) else 0
  }

  /** JavaScript's `s.trimStart()`. */
  function TrimStart(s: string): (r: string)
    ensures r == s[LeadingBlanks(s)..]
    ensures |r| == 0 || !IsWhitespace(r[0])
  {
    s[LeadingBlanks(s)..]
  }

  /** JavaScript's `s.trimEnd()`. */
  function TrimEnd(s: string): (r: string)
    ensures r == s[..|s| - TrailingBlanks(s)]
    ensures |r| == 0 || !IsWhitespace(r[|r| - 1])
  {
    s[..|s| - TrailingBlanks(s)]
  }

  /** JavaScript's `s.trim()`. */
  function Trim(s: string): (r: string)
    ensures IsTrimmed(r)
    ensures |r| <= |s|
    ensures |r| == 0 <==> IsBlank(s)
    ensures LeadingBlanks(s) + |r| <= |s|
    ensures r == s[LeadingBlanks(s)..LeadingBlanks(s) + |r|]
    ensures IsBlank(s[LeadingBlanks(s) + |r|..])
  {
    var rest := TrimStart(s);
    var r := TrimEnd(rest);
    TrimShape(s);
    TrimTail(s);
    TrimEnds(s);
    TrimEmptyIffBlank(s);
    r
  }

  /** Where the trimmed text sits inside the original: right after the leading blanks, ... */
  lemma TrimShape(s: string)
    ensures var r := TrimEnd(TrimStart(s));
            LeadingBlanks(s) + |r| <= |s| && r == s[LeadingBlanks(s)..LeadingBlanks(s) + |r|]
  {
    SuffixSlices(s, LeadingBlanks(s), |TrimEnd(TrimStart(s))|);
  }

  /** ... followed by nothing but whitespace, ... */
  lemma TrimTail(s: string)
    ensures var r := TrimEnd(TrimStart(s));
            LeadingBlanks(s) + |r| <= |s| && IsBlank(s[LeadingBlanks(s) + |r|..])
  {
    SuffixSlices(s, LeadingBlanks(s), |TrimEnd(TrimStart(s))|);
  }

  /** ... and with no whitespace at either end. */
  lemma TrimEnds(s: string)
    ensures IsTrimmed(TrimEnd(TrimStart(s)))
  {
    var rest := TrimStart(s);
    var r := TrimEnd(rest);
    if |r| > 0 {
      assert r[0] == rest[0];
    }
  }

  /** Slicing a suffix is slicing the whole string further along. */
  lemma SuffixSlices(s: string, a: nat, n: nat)
    requires a + n <= |s|
    ensures s[a..][..n] == s[a..a + n]
    ensures s[a..][n..] == s[a + n..]
  {
  }

  /** Trimming leaves nothing exactly when the text is all whitespace. */
  lemma TrimEmptyIffBlank(s: string)
    ensures |TrimEnd(TrimStart(s))| == 0 <==> IsBlank(s)
  {
    var lead := LeadingBlanks(s);
    var rest := TrimStart(s);
    if |TrimEnd(rest)| == 0 {
      assert rest[|rest| - TrailingBlanks(rest)..] == rest;
      assert lead == |s|;
      assert s[..lead] == s;
    }
  }

  /** Whitespace in front of a string adds exactly its length to the leading run. */
  lemma {:induction false} LeadingBlanksAppend(a: string, t: string)
    requires IsBlank(a)
    ensures LeadingBlanks(a + t) == |a| + LeadingBlanks(t)
  {
    if |a| > 0 {
      assert (a + t)[1..] == a[1..] + t;
      LeadingBlanksAppend(a[1..], t);
    } else {
      assert a + t == t;
    }
  }

  /** Whitespace behind a string adds exactly its length to the trailing run. */
  lemma {:induction false} TrailingBlanksAppend(t: string, b: string)
    requires IsBlank(b)
    ensures TrailingBlanks(t + b) == |b| + TrailingBlanks(t)
  {
    if |b| > 0 {
      assert (t + b)[..|t + b| - 1] == t + b[..|b| - 1];
      TrailingBlanksAppend(t, b[..|b| - 1]);
    } else {
      assert t + b == t;
    }
  }

  /** `Trim` is characterised without reference to its definition: whatever is wrapped in
      whitespace on both sides, and has no whitespace at its own ends, is what `Trim` returns. */
  lemma TrimUnique(a: string, m: string, b: string)
    requires IsBlank(a) && IsBlank(b) && IsTrimmed(m)
    ensures Trim(a + m + b) == m
  {
    var s := a + m + b;
    if |m| == 0 {
      assert s == a + b;
      assert IsBlank(s) by {
        forall i | 0 <= i < |s| ensures IsWhitespace(s[i]) {
          if i < |a| { assert s[i] == a[i]; } else { assert s[i] == b[i - |a|]; }
        }
      }
    } else {
      assert s == a + (m + b);
      LeadingBlanksAppend(a, m + b);
      assert LeadingBlanks(m + b) == 0 by { assert (m + b)[0] == m[0]; }
      assert TrimStart(s) == m + b;
      TrailingBlanksAppend(m, b);
      assert TrailingBlanks(m) == 0;
      assert (m + b)[..|m + b| - |b|] == m;
    }
  }

  /** Trimming twice changes nothing more than trimming once. */
  lemma TrimIdempotent(s: string)
    ensures Trim(Trim(s)) == Trim(s)
  {
    var m := Trim(s);
    assert "" + m + "" == m;
    TrimUnique("", m, "");
  }

  /** JavaScript's `s.split(sep)` for a one-character separator: the pieces between separators. */
  function Split(s: string, sep: char): (parts: seq<string>)
    ensures |parts| >= 1
    ensures forall i | 0 <= i < |parts| :: sep !in parts[i]
    decreases |s|
  {
    if |s| == 0 then [""]
    else
      var rest := Split(s[1..], sep);
      if s[0] == sep then [""] + rest
      else [[s[0]] + rest[0]] + rest[1..]
  }

  /** The inverse of `Split`: the pieces glued back together with the separator between them. */
  function Join(parts: seq<string>, sep: char): string
    requires |parts| >= 1
  {
    if |parts| == 1 then parts[0] else parts[0] + [sep] + Join(parts[1..], sep)
  }

  /** Number of occurrences of `c` in `s`. */
  function Occurrences(s: string, c: char): nat {
    if |s| == 0 then 0 else (if s[0] == c then 1 else 0) + Occurrences(s[1..], c)
  }

  /** Gluing the pieces back together gives the original string. */
  lemma {:induction false} JoinSplit(s: string, sep: char)
    ensures Join(Split(s, sep), sep) == s
  {
    if |s| > 0 {
      var rest := Split(s[1..], sep);
      JoinSplit(s[1..], sep);
      if s[0] != sep {
        if |rest| > 1 {
          assert Join([[s[0]] + rest[0]] + rest[1..], sep)
              == [s[0]] + rest[0] + [sep] + Join(rest[1..], sep);
        }
      }
    }
  }

  /** `Split` yields exactly one piece more than there are separators. */
  lemma {:induction false} SplitCount(s: string, sep: char)
    ensures |Split(s, sep)| == Occurrences(s, sep) + 1
  {
    if |s| > 0 {
      SplitCount(s[1..], sep);
    }
  }

  /** The first piece of `Split` is the longest prefix free of the separator. */
  lemma {:induction false} SplitFirst(s: string, sep: char)
    ensures |Split(s, sep)[0]| <= |s|
    ensures Split(s, sep)[0] == s[..|Split(s, sep)[0]|]
    ensures |Split(s, sep)[0]| < |s| ==> s[|Split(s, sep)[0]|] == sep
  {
    if |s| > 0 {
      SplitFirst(s[1..], sep);
    }
  }
}
