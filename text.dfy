/**
 * String helpers shared by the models: the whitespace classes of JavaScript and
 * Python, ASCII case mapping, substring occurrence, `lastIndexOf` and trimming.
 */
module Text {

  /** Which language's notion of whitespace a trim uses. */
  datatype Whitespace = Js | Py

  /** The characters JavaScript's `\s` matches and `String.prototype.trim` removes. */
  predicate IsJsSpace(c: char)
  {
    ('\t' <= c <= '\r') || c == ' ' || c == '\U{A0}' || c == '\U{1680}'
    || ('\U{2000}' <= c <= '\U{200A}') || c == '\U{2028}' || c == '\U{2029}'
    || c == '\U{202F}' || c == '\U{205F}' || c == '\U{3000}' || c == '\U{FEFF}'
  }

  /** The characters Python's `str.isspace` accepts, which `str.strip()` removes. */
  predicate IsPySpace(c: char)
  {
    ('\t' <= c <= '\r') || ('\U{1C}' <= c <= ' ') || c == '\U{85}' || c == '\U{A0}'
    || c == '\U{1680}' || ('\U{2000}' <= c <= '\U{200A}') || c == '\U{2028}'
    || c == '\U{2029}' || c == '\U{202F}' || c == '\U{205F}' || c == '\U{3000}'
  }

  predicate IsSpace(ws: Whitespace, c: char)
  {
    match ws
    case Js => IsJsSpace(c)
    case Py => IsPySpace(c)
  }

  predicate IsAsciiLetter(c: char)
  {
    ('a' <= c <= 'z') || ('A' <= c <= 'Z')
  }

  function LowerChar(c: char): char
  {
    if 'A' <= c <= 'Z' then (c as int + 32) as char else c
  }

  function UpperChar(c: char): char
  {
    if 'a' <= c <= 'z' then (c as int - 32) as char else c
  }

  /** `toLowerCase` / `lower()` restricted to ASCII letters: length-preserving and character-wise. */
  function Lower(s: string): (r: string)
    ensures |r| == |s|
    ensures forall i :: 0 <= i < |s| ==> r[i] == LowerChar(s[i])
  {
    seq(|s|, i requires 0 <= i < |s| => LowerChar(s[i]))
  }

  /** A keyword the models search for: non-empty, lower-case ASCII letters only. */
  predicate IsLowerWord(w: string)
  {
    |w| > 0 && forall i :: 0 <= i < |w| ==> 'a' <= w[i] <= 'z'
  }

  /** `pat` occurs in `s` starting at index `i`. */
  predicate OccursAt(s: string, pat: string, i: int)
  {
    0 <= i && i + |pat| <= |s| && s[i..i + |pat|] == pat
  }

  ghost predicate Contains(s: string, pat: string)
  {
    exists i :: OccursAt(s, pat, i)
  }

  /** Python's `pat in s`, searching from the left. */
  function In(pat: string, s: string): (b: bool)
    ensures b <==> Contains(s, pat)
    decreases |s|
  {
    if |s| < |pat| then false
    else if s[..|pat|] == pat then
      assert OccursAt(s, pat, 0);
      true
    else
      var b := In(pat, s[1..]);
      assert b ==> Contains(s, pat) by {
        if b {
          var i :| OccursAt(s[1..], pat, i);
          assert s[1..] == s[1..|s|];
          OccursInSlice(s, pat, 1, |s|, i);
        }
      }
      assert Contains(s, pat) ==> b by {
        if Contains(s, pat) {
          var i :| OccursAt(s, pat, i);
          assert i > 0;
          assert OccursAt(s[1..], pat, i - 1);
        }
      }
      b
  }

  /** `r` is what `s.lastIndexOf(pat)` returns: the start of the rightmost occurrence, or -1. */
  ghost predicate IsLastIndex(s: string, pat: string, r: int)
  {
    (r == -1 <==> !Contains(s, pat))
    && (r != -1 ==> OccursAt(s, pat, r) && forall j :: r < j ==> !OccursAt(s, pat, j))
  }

  /** The rightmost occurrence of `pat` starting at or before `i`, or -1. */
  function LastIndexUpTo(s: string, pat: string, i: int): (r: int)
    ensures r == -1 || 0 <= r <= i
    ensures r != -1 ==> OccursAt(s, pat, r)
    ensures forall j :: r < j <= i ==> !OccursAt(s, pat, j)
    decreases i + 1
  {
    if i < 0 then -1
    else if OccursAt(s, pat, i) then i
    else LastIndexUpTo(s, pat, i - 1)
  }

  /** JavaScript's `String.prototype.lastIndexOf` for a non-empty pattern. */
  function LastIndexOf(s: string, pat: string): (r: int)
    requires |pat| > 0
    ensures IsLastIndex(s, pat, r)
  {
    LastIndexUpTo(s, pat, |s| - |pat|)
  }

  /** `s` with its leading whitespace removed. */
  function TrimStart(ws: Whitespace, s: string): (r: string)
    ensures |r| <= |s|
    ensures r == [] || !IsSpace(ws, r[0])
    ensures forall i :: 0 <= i < |s| - |r| ==> IsSpace(ws, s[i])
  {
    if s == [] || !IsSpace(ws, s[0]) then s else TrimStart(ws, s[1..])
  }

  /** What `TrimStart` keeps is a suffix of `s`. */
  lemma {:induction false} TrimStartIsSuffix(ws: Whitespace, s: string)
    ensures TrimStart(ws, s) == s[|s| - |TrimStart(ws, s)|..]
    decreases |s|
  {
    if s != [] && IsSpace(ws, s[0]) {
      TrimStartIsSuffix(ws, s[1..]);
      assert s[1..][|s| - 1 - |TrimStart(ws, s)|..] == s[|s| - |TrimStart(ws, s)|..];
    }
  }

  /** `s` with its trailing whitespace removed. */
  function TrimEnd(ws: Whitespace, s: string): (r: string)
    ensures |r| <= |s|
    ensures r == [] || !IsSpace(ws, r[|r| - 1])
    ensures forall i :: |r| <= i < |s| ==> IsSpace(ws, s[i])
  {
    if s == [] || !IsSpace(ws, s[|s| - 1]) then s else TrimEnd(ws, s[..|s| - 1])
  }

  /** What `TrimEnd` keeps is a prefix of `s`. */
  lemma {:induction false} TrimEndIsPrefix(ws: Whitespace, s: string)
    ensures TrimEnd(ws, s) == s[..|TrimEnd(ws, s)|]
    decreases |s|
  {
    if s != [] && IsSpace(ws, s[|s| - 1]) {
      TrimEndIsPrefix(ws, s[..|s| - 1]);
    }
  }

  /** Both ends trimmed: JavaScript's `trim()` for `Js`, Python's `strip()` for `Py`. */
  function Trim(ws: Whitespace, s: string): (r: string)
    ensures |r| <= |s|
    ensures r == [] || (!IsSpace(ws, r[0]) && !IsSpace(ws, r[|r| - 1]))
  {
    TrimEndIsPrefix(ws, TrimStart(ws, s));
    TrimEnd(ws, TrimStart(ws, s))
  }

  /** What `Trim` keeps is the middle of `s`, starting after its leading whitespace. */
  lemma TrimIsSlice(ws: Whitespace, s: string)
    ensures LeadingSpaces(ws, s) + |Trim(ws, s)| <= |s|
    ensures Trim(ws, s) == s[LeadingSpaces(ws, s)..LeadingSpaces(ws, s) + |Trim(ws, s)|]
    ensures forall i :: 0 <= i < LeadingSpaces(ws, s) ==> IsSpace(ws, s[i])
    ensures forall i :: LeadingSpaces(ws, s) + |Trim(ws, s)| <= i < |s| ==> IsSpace(ws, s[i])
  {
    var t := TrimStart(ws, s);
    var r := TrimEnd(ws, t);
    TrimStartIsSuffix(ws, s);
    TrimEndIsPrefix(ws, t);
    assert r == s[|s| - |t|..][..|r|];
    var lead := |s| - |t|;
    forall i | lead + |r| <= i < |s|
      ensures IsSpace(ws, s[i])
    {
      assert s[i] == t[i - lead];
    }
  }

  /**
   * JavaScript's `slice(start)` on a string or an array, for a non-negative start:
   * what follows the first `start` elements, and nothing once the start is past the end.
   */
  function Drop<T>(s: seq<T>, start: nat): (r: seq<T>)
    ensures start <= |s| ==> s[..start] + r == s
    ensures start > |s| ==> r == []
  {
    if start <= |s| then s[start..] else []
  }

  /** Trimming the front of `a + b` stops inside `a` or at `b`, whose first character is not whitespace. */
  lemma {:induction false} TrimStartAppend(ws: Whitespace, a: string, b: string)
    requires b == [] || !IsSpace(ws, b[0])
    ensures TrimStart(ws, a + b) == TrimStart(ws, a) + b
    decreases |a|
  {
    if a == [] {
      assert a + b == b;
    } else if IsSpace(ws, a[0]) {
      assert (a + b)[1..] == a[1..] + b;
      TrimStartAppend(ws, a[1..], b);
    }
  }

  /** How many whitespace characters `Trim` removes from the front of `s`. */
  function LeadingSpaces(ws: Whitespace, s: string): (n: nat)
    ensures n <= |s|
  {
    |s| - |TrimStart(ws, s)|
  }

  /** A non-empty string whose first and last characters are not whitespace is its own trim. */
  lemma TrimOfTrimmed(ws: Whitespace, s: string)
    requires s == [] || (!IsSpace(ws, s[0]) && !IsSpace(ws, s[|s| - 1]))
    ensures Trim(ws, s) == s
  {
  }

  /** An occurrence inside a slice is an occurrence in the whole string. */
  lemma OccursInSlice(s: string, pat: string, a: int, b: int, i: int)
    requires 0 <= a <= b <= |s|
    requires OccursAt(s[a..b], pat, i)
    ensures OccursAt(s, pat, a + i)
  {
    forall k | 0 <= k < |pat|
      ensures s[a + i + k] == pat[k]
    {
      assert s[a..b][i..i + |pat|][k] == pat[k];
    }
    assert s[a + i..a + i + |pat|] == pat;
  }

  /** A slice of a string that does not contain `pat` does not contain it either. */
  lemma NotContainsSlice(s: string, pat: string, a: int, b: int)
    requires 0 <= a <= b <= |s|
    requires !Contains(s, pat)
    ensures !Contains(s[a..b], pat)
  {
    if Contains(s[a..b], pat) {
      var i :| OccursAt(s[a..b], pat, i);
      OccursInSlice(s, pat, a, b, i);
    }
  }

  /** Cut at the last occurrence of `pat`, a string starts with `pat` and has no other occurrence. */
  lemma SuffixFromLastOccurrence(s: string, pat: string, i: int)
    requires OccursAt(s, pat, i)
    requires forall j :: i < j ==> !OccursAt(s, pat, j)
    ensures OccursAt(s[i..], pat, 0)
    ensures forall j :: 0 < j ==> !OccursAt(s[i..], pat, j)
  {
    assert s[i..][..|pat|] == s[i..i + |pat|];
    forall j | 0 < j && OccursAt(s[i..], pat, j)
      ensures false
    {
      assert s[i..] == s[i..|s|];
      OccursInSlice(s, pat, i, |s|, j);
    }
  }

  function DigitChar(d: nat): (c: char)
    requires d < 10
    ensures '0' <= c <= '9'
  {
    ('0' as int + d) as char
  }

  predicate IsDigits(s: string)
  {
    forall i :: 0 <= i < |s| ==> '0' <= s[i] <= '9'
  }

  /** The decimal notation of `n`, as Python's `str` and JavaScript's `String` write it. */
  function NatToString(n: nat): (s: string)
    ensures |s| >= 1 && IsDigits(s)
    decreases n
  {
    if n < 10 then [DigitChar(n)] else NatToString(n / 10) + [DigitChar(n % 10)]
  }

  function IntToString(i: int): string
  {
    if i < 0 then "-" + NatToString(-i) else NatToString(i)
  }

  /** The number a string of decimal digits denotes. */
  function DigitsValue(s: string): nat
    requires IsDigits(s)
  {
    if s == [] then 0 else DigitsValue(s[..|s| - 1]) * 10 + (s[|s| - 1] as int - '0' as int)
  }

  /** Reading back the decimal notation of `n` gives `n`. */
  lemma {:induction false} DigitsRoundTrip(n: nat)
    ensures DigitsValue(NatToString(n)) == n
    decreases n
  {
    if n >= 10 {
      var s := NatToString(n);
      assert s[..|s| - 1] == NatToString(n / 10);
      DigitsRoundTrip(n / 10);
    }
  }

  lemma OccursSelf(s: string)
    ensures OccursAt(s, s, 0)
  {
    assert s[0..|s|] == s;
  }

  /** An occurrence survives appending text after it. */
  lemma OccursExtendRight(s: string, t: string, pat: string, i: int)
    requires OccursAt(s, pat, i)
    ensures OccursAt(s + t, pat, i)
  {
    assert (s + t)[i..i + |pat|] == s[i..i + |pat|];
  }

  /** An occurrence moves right by the length of the text put before it. */
  lemma OccursExtendLeft(s: string, t: string, pat: string, i: int)
    requires OccursAt(t, pat, i)
    ensures OccursAt(s + t, pat, |s| + i)
  {
    assert (s + t)[|s| + i..|s| + i + |pat|] == t[i..i + |pat|];
  }
}
