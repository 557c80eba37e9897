/** The JavaScript string built-ins the analysis pipeline relies on:
    `split(". ")`, `join(sep)`, `trim()` and a first-character `toLowerCase()`.
    Strings are sequences of characters; UTF-16 code units are not modelled. */
module Strings {

  /** The sentence delimiter of the humanizer: a period followed by a space. */
  const SentenceBreak: string := ". "

  // ---------------------------------------------------------------------------
  // Whitespace and trim()
  // ---------------------------------------------------------------------------

  /** The characters `String.prototype.trim` strips: the ECMAScript WhiteSpace
      and LineTerminator code points (sections 12.2 and 12.3 of ECMA-262),
      that is tab to carriage return, the space separators of Unicode category
      Zs, the line and paragraph separators and the byte order mark. */
  predicate IsWhitespace(c: char) {
    || ('\t' <= c <= '\r')
    || c == ' ' || c == '\U{00A0}' || c == '\U{1680}'
    || ('\U{2000}' <= c <= '\U{200A}')
    || c == '\U{2028}' || c == '\U{2029}' || c == '\U{202F}' || c == '\U{205F}'
    || c == '\U{3000}' || c == '\U{FEFF}'
  }

  predicate AllWhitespace(s: string) {
    forall i :: 0 <= i < |s| ==> IsWhitespace(s[i])
  }

  /** `s` neither starts nor ends with whitespace. */
  predicate Trimmed(s: string) {
    s == [] || (!IsWhitespace(s[0]) && !IsWhitespace(s[|s| - 1]))
  }

  /** `s.endsWith(suffix)`. */
  predicate EndsWith(s: string, suffix: string) {
    |s| >= |suffix| && s[|s| - |suffix|..] == suffix
  }

  /** `s[lo..hi]` is what is left of `s` once the whitespace at both ends is
      removed: everything outside is whitespace and the part kept neither
      starts nor ends with whitespace. */
  predicate TrimBounds(s: string, lo: int, hi: int) {
    && 0 <= lo <= hi <= |s|
    && (forall k :: 0 <= k < lo ==> IsWhitespace(s[k]))
    && (forall k :: hi <= k < |s| ==> IsWhitespace(s[k]))
    && (lo < hi ==> !IsWhitespace(s[lo]) && !IsWhitespace(s[hi - 1]))
  }

  /** Scans forward from `i` over whitespace. */
  function SkipLeading(s: string, i: nat): (n: nat)
    requires i <= |s|
    ensures i <= n <= |s|
    ensures forall k :: i <= k < n ==> IsWhitespace(s[k])
    ensures n < |s| ==> !IsWhitespace(s[n])
    decreases |s| - i
  {
    if i < |s| && IsWhitespace(s[i]) then SkipLeading(s, i + 1) else i
  }

  /** Scans backward from `j` over whitespace, never going below `lo`. */
  function SkipTrailing(s: string, lo: nat, j: nat): (n: nat)
    requires lo <= j <= |s|
    ensures lo <= n <= j
    ensures forall k :: n <= k < j ==> IsWhitespace(s[k])
    ensures lo < n ==> !IsWhitespace(s[n - 1])
    decreases j
  {
    if lo < j && IsWhitespace(s[j - 1]) then SkipTrailing(s, lo, j - 1) else j
  }

  /** Where `trim()` starts and ends the part it keeps. */
  function TrimLo(s: string): (lo: nat)
    ensures lo <= |s|
  {
    SkipLeading(s, 0)
  }

  function TrimHi(s: string): (hi: nat)
    ensures TrimLo(s) <= hi <= |s|
  {
    SkipTrailing(s, TrimLo(s), |s|)
  }

  /** `s.trim()`: the middle part of `s` left after removing the whitespace
      at both ends. */
  function Trim(s: string): (r: string)
    ensures TrimBounds(s, TrimLo(s), TrimHi(s)) && r == s[TrimLo(s)..TrimHi(s)]
    ensures Trimmed(r)
    ensures r == [] <==> AllWhitespace(s)
  {
    var lo, hi := TrimLo(s), TrimHi(s);
    assert lo < hi ==> s[lo..hi][0] == s[lo] && s[lo..hi][hi - lo - 1] == s[hi - 1];
    s[lo..hi]
  }

  /** The cut that `trim()` makes is the only one with the properties of
      `TrimBounds`. */
  lemma {:induction false} TrimUnique(s: string, lo: int, hi: int)
    requires TrimBounds(s, lo, hi)
    ensures Trim(s) == s[lo..hi]
  {
    var lo', hi' := TrimLo(s), TrimHi(s);
    if lo < hi {
      assert !(lo < lo') && !(hi <= lo');
      assert lo' < hi';
      assert !(lo' < lo) && !(hi' < hi) && !(hi < hi');
    } else {
      assert AllWhitespace(s);
    }
  }

  /** Whitespace added before a text does not change what `trim()` keeps. */
  lemma {:induction false} TrimIgnoresLeadingWhitespace(a: string, t: string)
    requires AllWhitespace(a)
    ensures Trim(a + t) == Trim(t)
  {
    var lo, hi := TrimLo(t), TrimHi(t);
    assert Trim(t) == t[lo..hi] && TrimBounds(t, lo, hi);
    ShiftedTrim(a, t, lo, hi);
  }

  /** The cut of `t` at `lo..hi`, shifted past a whitespace prefix, is the
      cut `trim()` makes of the longer text. */
  lemma {:induction false} ShiftedTrim(a: string, t: string, lo: int, hi: int)
    requires AllWhitespace(a) && TrimBounds(t, lo, hi)
    ensures Trim(a + t) == t[lo..hi]
  {
    PrependKeepsBounds(a, t, lo, hi);
    TrimUnique(a + t, |a| + lo, |a| + hi);
  }

  lemma {:induction false} PrependKeepsBounds(a: string, t: string, lo: int, hi: int)
    requires AllWhitespace(a) && TrimBounds(t, lo, hi)
    ensures TrimBounds(a + t, |a| + lo, |a| + hi)
    ensures (a + t)[|a| + lo..|a| + hi] == t[lo..hi]
  {
    var u := a + t;
    forall k | 0 <= k < |a| + lo
      ensures IsWhitespace(u[k])
    {
      if k >= |a| {
        assert u[k] == t[k - |a|];
      }
    }
    forall k | |a| + hi <= k < |u|
      ensures IsWhitespace(u[k])
    {
      assert u[k] == t[k - |a|];
    }
    assert lo < hi ==> u[|a| + lo] == t[lo] && u[|a| + hi - 1] == t[hi - 1];
  }

  /** Whitespace added after a text does not change what `trim()` keeps. */
  lemma {:induction false} TrimIgnoresTrailingWhitespace(t: string, b: string)
    requires AllWhitespace(b)
    ensures Trim(t + b) == Trim(t)
  {
    var lo, hi := TrimLo(t), TrimHi(t);
    AppendKeepsBounds(t, b, lo, hi);
    TrimUnique(t + b, lo, hi);
  }

  lemma {:induction false} AppendKeepsBounds(t: string, b: string, lo: int, hi: int)
    requires AllWhitespace(b) && TrimBounds(t, lo, hi)
    ensures TrimBounds(t + b, lo, hi)
    ensures (t + b)[lo..hi] == t[lo..hi]
  {
    var u := t + b;
    forall k | 0 <= k < lo
      ensures IsWhitespace(u[k])
    {
      assert u[k] == t[k];
    }
    forall k | hi <= k < |u|
      ensures IsWhitespace(u[k])
    {
      if k < |t| {
        assert u[k] == t[k];
      }
    }
    assert lo < hi ==> u[lo] == t[lo] && u[hi - 1] == t[hi - 1];
  }

  /** Whitespace added around a text does not change what `trim()` keeps. */
  lemma {:induction false} TrimIgnoresSurroundingWhitespace(a: string, t: string, b: string)
    requires AllWhitespace(a) && AllWhitespace(b)
    ensures Trim(a + t + b) == Trim(t)
  {
    assert a + t + b == a + (t + b);
    TrimIgnoresLeadingWhitespace(a, t + b);
    TrimIgnoresTrailingWhitespace(t, b);
  }

  /** A text that already has no surrounding whitespace is its own `trim()`. */
  lemma TrimOfTrimmed(s: string)
    ensures Trimmed(s) ==> Trim(s) == s
  {
    if Trimmed(s) {
      TrimUnique(s, 0, |s|);
      assert s[0..|s|] == s;
    }
  }

  /** Trimming twice is trimming once. */
  lemma TrimIdempotent(s: string)
    ensures Trim(Trim(s)) == Trim(s)
  {
    TrimOfTrimmed(Trim(s));
  }

  // ---------------------------------------------------------------------------
  // join() and split(". ")
  // ---------------------------------------------------------------------------

  /** `parts.join(sep)`: the parts in order with `sep` between neighbours. */
  function Join(parts: seq<string>, sep: string): string
  {
    if |parts| == 0 then []
    else if |parts| == 1 then parts[0]
    else parts[0] + sep + Join(parts[1..], sep)
  }

  /** Joining one more part at the end adds the separator and that part. */
  lemma {:induction false} JoinSnoc(parts: seq<string>, last: string, sep: string)
    requires |parts| >= 1
    ensures Join(parts + [last], sep) == Join(parts, sep) + sep + last
    decreases |parts|
  {
    if |parts| == 1 {
      assert (parts + [last])[1..] == [last];
    } else {
      assert (parts + [last])[1..] == parts[1..] + [last];
      JoinSnoc(parts[1..], last, sep);
    }
  }

  /** `s` holds no occurrence of the sentence delimiter ". ". */
  predicate NoBreak(s: string) {
    forall i :: 0 <= i < |s| - 1 ==> !(s[i] == '.' && s[i + 1] == ' ')
  }

  /** `s.split(". ")`: the pieces between the leftmost non-overlapping
      occurrences of ". ", including a (possibly empty) trailing piece. */
  function Sentences(s: string): (r: seq<string>)
    ensures |r| >= 1
    ensures forall k :: 0 <= k < |r| ==> NoBreak(r[k])
    ensures |r| == 1 ==> r[0] == s
    decreases |s|
  {
    if |s| < 2 then [s]
    else if s[0] == '.' && s[1] == ' ' then [""] + Sentences(s[2..])
    else
      var rest := Sentences(s[1..]);
      var head := [s[0]] + rest[0];
      assert NoBreak(head) by {
        if |rest| == 1 {
          assert head == s;
        } else {
          forall i | 0 <= i < |head| - 1
            ensures !(head[i] == '.' && head[i + 1] == ' ')
          {
            if i > 0 {
              assert head[i] == rest[0][i - 1] && head[i + 1] == rest[0][i];
            }
          }
        }
      }
      [head] + rest[1..]
  }

  /** Joining the pieces of a split with the delimiter gives the text back. */
  lemma {:induction false} JoinSentences(s: string)
    ensures Join(Sentences(s), SentenceBreak) == s
    decreases |s|
  {
    if |s| < 2 {
    } else if s[0] == '.' && s[1] == ' ' {
      JoinSentences(s[2..]);
      assert s == SentenceBreak + s[2..];
    } else {
      JoinSentences(s[1..]);
      JoinExtendsFirst(s[0], Sentences(s[1..]), SentenceBreak);
      assert s == [s[0]] + s[1..];
    }
  }

  /** Growing the first part of a join at its front grows the join the same way. */
  lemma JoinExtendsFirst(c: char, parts: seq<string>, sep: string)
    requires |parts| >= 1
    ensures Join([[c] + parts[0]] + parts[1..], sep) == [c] + Join(parts, sep)
  {
    var grown := [[c] + parts[0]] + parts[1..];
    assert grown[1..] == parts[1..];
  }

  /** Splitting a join of delimiter-free pieces gives the pieces back. */
  lemma {:induction false} SentencesOfJoin(parts: seq<string>)
    requires |parts| >= 1
    requires forall k :: 0 <= k < |parts| ==> NoBreak(parts[k])
    ensures Sentences(Join(parts, SentenceBreak)) == parts
    decreases |parts|
  {
    if |parts| == 1 {
      SentencesOfPlain(parts[0]);
    } else {
      SentencesOfJoin(parts[1..]);
      SentencesCons(parts[0], Join(parts[1..], SentenceBreak));
      assert parts == [parts[0]] + parts[1..];
    }
  }

  lemma {:induction false} SentencesOfPlain(p: string)
    requires NoBreak(p)
    ensures Sentences(p) == [p]
    decreases |p|
  {
    if |p| >= 2 {
      SentencesOfPlain(p[1..]);
      assert p == [p[0]] + p[1..];
    }
  }

  lemma {:induction false} SentencesCons(p: string, rest: string)
    requires NoBreak(p)
    ensures Sentences(p + SentenceBreak + rest) == [p] + Sentences(rest)
    decreases |p|
  {
    var s := p + SentenceBreak + rest;
    if |p| == 0 {
      assert s[2..] == rest;
    } else {
      assert s[1..] == p[1..] + SentenceBreak + rest;
      assert !(s[0] == '.' && s[1] == ' ') by {
        if |p| >= 2 {
          assert s[1] == p[1];
        } else {
          assert s[1] == '.';
        }
      }
      SentencesCons(p[1..], rest);
      assert [p[0]] + p[1..] == p;
    }
  }

  /** Appending the same text to both sides keeps a suffix relation. */
  lemma EndsWithAppend(a: string, x: string, y: string)
    requires EndsWith(a, x)
    ensures EndsWith(a + y, x + y)
  {
    assert (a + y)[|a + y| - |x + y|..] == a[|a| - |x|..] + y;
  }

  /** Concatenation keeps a text free of ". " unless a '.' meets a ' ' at the seam. */
  lemma NoBreakConcat(a: string, b: string)
    requires NoBreak(a) && NoBreak(b)
    requires |a| == 0 || |b| == 0 || a[|a| - 1] != '.' || b[0] != ' '
    ensures NoBreak(a + b)
  {
    var s := a + b;
    forall i | 0 <= i < |s| - 1
      ensures !(s[i] == '.' && s[i + 1] == ' ')
    {
      if i < |a| - 1 {
        assert s[i] == a[i] && s[i + 1] == a[i + 1];
      } else if i >= |a| {
        assert s[i] == b[i - |a|] && s[i + 1] == b[i + 1 - |a|];
      }
    }
  }

  // ---------------------------------------------------------------------------
  // toLowerCase() of one character
  // ---------------------------------------------------------------------------

  /** Lower-cases an ASCII capital letter; every other character is kept. */
  function ToLower(c: char): (r: char)
    ensures 'A' <= c <= 'Z' ==> 'a' <= r <= 'z' && r as int - c as int == 32
    ensures !('A' <= c <= 'Z') ==> r == c
  {
    if 'A' <= c <= 'Z' then (c as int + 32) as char else c
  }

  /** `s.charAt(0).toLowerCase() + s.slice(1)`. */
  function LowerFirst(s: string): (r: string)
    ensures |r| == |s| && (|s| > 0 ==> r[1..] == s[1..])
    ensures |s| > 0 ==> r[0] == ToLower(s[0])
  {
    if |s| == 0 then "" else [ToLower(s[0])] + s[1..]
  }

  /** Lower-casing the first character never creates a ". ". */
  lemma LowerFirstNoBreak(s: string)
    requires NoBreak(s)
    ensures NoBreak(LowerFirst(s))
  {
    var r := LowerFirst(s);
    forall i | 0 <= i < |r| - 1
      ensures !(r[i] == '.' && r[i + 1] == ' ')
    {
      assert r[i + 1] == s[i + 1];
      if i > 0 {
        assert r[i] == s[i];
      }
    }
  }
}
