/**
 * The post-processing both shader endpoints of backend/main.py apply to the
 * model's answer: remove the code-fence markers, strip, and drop every line
 * that mentions "#version".
 */
module ShaderCleanup {
  import opened Text

  const Fence: string := "```"
  const GlslFence: string := "```glsl"
  const VersionMarker: string := "#version"

  /** Python's `s.replace(pat, sub)`: every non-overlapping occurrence, scanning left to right. */
  function Replace(s: string, pat: string, sub: string): string
    requires |pat| > 0
    decreases |s|
  {
    if |s| < |pat| then s
    else if s[..|pat|] == pat then sub + Replace(s[|pat|..], pat, sub)
    else [s[0]] + Replace(s[1..], pat, sub)
  }

  /** Removing the fences keeps a first character that is not a backtick. */
  lemma RemoveFenceKeepsHead(s: string)
    requires s != [] && s[0] != '`'
    ensures Replace(s, Fence, "") != [] && Replace(s, Fence, "")[0] == s[0]
  {
    if |s| >= |Fence| {
      assert s[..|Fence|][0] != Fence[0];
    }
  }

  /** Past index 0, the occurrences in `[c] + t` are those of `t`, shifted by one. */
  lemma OccursAfterHead(c: char, t: string, pat: string, j: int)
    requires j > 0
    ensures OccursAt([c] + t, pat, j) <==> OccursAt(t, pat, j - 1)
  {
    if j + |pat| <= |[c] + t| {
      assert ([c] + t)[j..j + |pat|] == t[j - 1..j - 1 + |pat|];
    }
  }

  /**
   * After `replace("```", "")` no triple backtick is left: a run of backticks loses
   * whole triples from its left end, so fewer than three remain and they are
   * followed by a character that is not a backtick.
   */
  lemma {:induction false} NoFenceAfterRemoval(s: string)
    ensures !Contains(Replace(s, Fence, ""), Fence)
    decreases |s|
  {
    var r := Replace(s, Fence, "");
    if |s| < |Fence| {
      assert r == s;
      assert forall j :: !OccursAt(r, Fence, j);
    } else if s[..|Fence|] == Fence {
      assert r == Replace(s[|Fence|..], Fence, "");
      NoFenceAfterRemoval(s[|Fence|..]);
    } else {
      var t := Replace(s[1..], Fence, "");
      assert r == [s[0]] + t;
      NoFenceAfterRemoval(s[1..]);
      if s[0] == '`' && s[1] != '`' {
        RemoveFenceKeepsHead(s[1..]);
      } else if s[0] == '`' {
        assert s[2] != '`';
        if |s| - 1 >= |Fence| {
          assert s[1..][..|Fence|][1] == s[2];
          assert t == [s[1]] + Replace(s[2..], Fence, "");
          RemoveFenceKeepsHead(s[2..]);
        } else {
          assert t == s[1..];
        }
      }
      assert !OccursAt(r, Fence, 0) by {
        if |r| >= |Fence| {
          assert r[..|Fence|][0] == s[0];
          assert r[..|Fence|][1] == t[0];
          assert r[..|Fence|][2] == t[1];
        }
      }
      forall j | j > 0
        ensures !OccursAt(r, Fence, j)
      {
        OccursAfterHead(s[0], t, Fence, j);
      }
    }
  }

  /** The characters at which Python's `str.splitlines` breaks a line. */
  predicate IsLineBreak(c: char)
  {
    ('\n' <= c <= '\r') || ('\U{1C}' <= c <= '\U{1E}') || c == '\U{85}' || c == '\U{2028}' || c == '\U{2029}'
  }

  predicate NoLineBreak(line: string)
  {
    forall i :: 0 <= i < |line| ==> !IsLineBreak(line[i])
  }

  /** The index of the first line break of `s`, or `|s|` when there is none. */
  function FirstBreak(s: string): (k: nat)
    ensures k <= |s|
    ensures NoLineBreak(s[..k])
    ensures k < |s| ==> IsLineBreak(s[k])
  {
    if s == [] || IsLineBreak(s[0]) then 0
    else
      var k := 1 + FirstBreak(s[1..]);
      assert s[..k] == [s[0]] + s[1..][..k - 1];
      k
  }

  /** Where the next line starts after the break at `k`: "\r\n" is one break. */
  function AfterBreak(s: string, k: nat): (next: nat)
    requires k < |s|
    ensures k < next <= |s|
  {
    if s[k] == '\r' && k + 1 < |s| && s[k + 1] == '\n' then k + 2 else k + 1
  }

  /**
   * Python's `str.splitlines()`: "\r\n" counts as one break, a final break does
   * not start an empty last line, and the empty string has no lines.
   */
  function SplitLines(s: string): seq<string>
    decreases |s|
  {
    if s == [] then []
    else
      var k := FirstBreak(s);
      if k == |s| then [s]
      else [s[..k]] + SplitLines(s[AfterBreak(s, k)..])
  }

  /** No line holds a line break. */
  lemma {:induction false} SplitLinesNoBreak(s: string)
    ensures forall j :: 0 <= j < |SplitLines(s)| ==> NoLineBreak(SplitLines(s)[j])
    decreases |s|
  {
    if s != [] {
      var k := FirstBreak(s);
      if k < |s| {
        var rest := s[AfterBreak(s, k)..];
        SplitLinesNoBreak(rest);
        var lines := SplitLines(s);
        assert lines == [s[..k]] + SplitLines(rest);
        forall j | 0 <= j < |lines|
          ensures NoLineBreak(lines[j])
        {
          if j > 0 {
            assert lines[j] == SplitLines(rest)[j - 1];
          }
        }
      } else {
        assert s[..k] == s;
      }
    }
  }

  /** A pattern absent from the text is absent from every line. */
  lemma {:induction false} SplitLinesAvoid(s: string, pat: string)
    requires !Contains(s, pat)
    ensures forall j :: 0 <= j < |SplitLines(s)| ==> !Contains(SplitLines(s)[j], pat)
    decreases |s|
  {
    if s != [] {
      var k := FirstBreak(s);
      if k < |s| {
        var next := AfterBreak(s, k);
        var rest := s[next..];
        NotContainsSlice(s, pat, 0, k);
        NotContainsSlice(s, pat, next, |s|);
        assert s[next..|s|] == rest;
        assert s[0..k] == s[..k];
        SplitLinesAvoid(rest, pat);
        AvoidInCons(s[..k], SplitLines(rest), pat);
      } else {
        assert s[..k] == s;
      }
    }
  }

  /** A pattern absent from a first line and from every later line is absent from every line. */
  lemma AvoidInCons(first: string, lines: seq<string>, pat: string)
    requires !Contains(first, pat)
    requires forall j :: 0 <= j < |lines| ==> !Contains(lines[j], pat)
    ensures forall j :: 0 <= j < |[first] + lines| ==> !Contains(([first] + lines)[j], pat)
  {
    forall j | 0 <= j < |[first] + lines|
      ensures !Contains(([first] + lines)[j], pat)
    {
      if j > 0 {
        assert ([first] + lines)[j] == lines[j - 1];
      }
    }
  }

  /** The generator `line for line in lines if "#version" not in line`. */
  function DropVersionLines(lines: seq<string>): (kept: seq<string>)
    ensures forall k :: 0 <= k < |kept| ==> !Contains(kept[k], VersionMarker)
    ensures forall line :: line in kept <==> line in lines && !Contains(line, VersionMarker)
    decreases |lines|
  {
    if lines == [] then []
    else (if In(VersionMarker, lines[0]) then [] else [lines[0]]) + DropVersionLines(lines[1..])
  }

  /** The filter works line by line, so the lines it keeps stay in their original order. */
  lemma {:induction false} DropVersionLinesKeepsOrder(a: seq<string>, b: seq<string>)
    ensures DropVersionLines(a + b) == DropVersionLines(a) + DropVersionLines(b)
    decreases |a|
  {
    if a != [] {
      assert (a + b)[1..] == a[1..] + b;
      DropVersionLinesKeepsOrder(a[1..], b);
    } else {
      assert a + b == b;
    }
  }

  /** Python's `"\n".join(lines)`. */
  function JoinLines(lines: seq<string>): string
  {
    if lines == [] then ""
    else if |lines| == 1 then lines[0]
    else lines[0] + "\n" + JoinLines(lines[1..])
  }

  /**
   * Joining with newlines cannot create an occurrence of a pattern without a
   * newline: an occurrence is inside one line or straddles a newline.
   */
  lemma {:induction false} JoinLinesAvoids(lines: seq<string>, pat: string)
    requires pat != [] && '\n' !in pat
    requires forall k :: 0 <= k < |lines| ==> !Contains(lines[k], pat)
    ensures !Contains(JoinLines(lines), pat)
    decreases |lines|
  {
    if |lines| == 1 {
      assert !Contains(lines[0], pat);
    } else if |lines| > 1 {
      var head, rest := lines[0], JoinLines(lines[1..]);
      var s := head + "\n" + rest;
      assert JoinLines(lines) == s;
      JoinLinesAvoids(lines[1..], pat);
      assert !Contains(head, pat);
      forall i
        ensures !OccursAt(s, pat, i)
      {
        if i < 0 || i + |pat| > |s| {
        } else if i + |pat| <= |head| {
          assert s[i..i + |pat|] == head[i..i + |pat|];
          assert !OccursAt(head, pat, i);
        } else if i > |head| {
          assert s[i..i + |pat|] == rest[i - |head| - 1..i - |head| - 1 + |pat|];
          assert !OccursAt(rest, pat, i - |head| - 1);
        } else {
          assert s[i..i + |pat|][|head| - i] == s[|head|] == '\n';
          assert pat[|head| - i] in pat;
        }
      }
    }
  }

  /** Splitting, filtering and rejoining cannot introduce a pattern without a newline. */
  lemma KeptLinesAvoid(text: string, pat: string)
    requires pat != [] && '\n' !in pat && !Contains(text, pat)
    ensures !Contains(JoinLines(DropVersionLines(SplitLines(text))), pat)
  {
    SplitLinesAvoid(text, pat);
    var kept := DropVersionLines(SplitLines(text));
    forall k | 0 <= k < |kept|
      ensures !Contains(kept[k], pat)
    {
      assert kept[k] in SplitLines(text);
    }
    JoinLinesAvoids(kept, pat);
  }

  /**
   * The cleanup of lines 200-204 (and 227-231): remove "```glsl", then "```",
   * strip, split into lines, drop every line containing "#version", and rejoin.
   * No fence and no "#version" survives.
   */
  function CleanShader(code: string): (r: string)
    ensures !Contains(r, Fence) && !Contains(r, GlslFence)
    ensures !Contains(r, VersionMarker)
  {
    var removed := Replace(Replace(code, GlslFence, ""), Fence, "");
    var stripped := Trim(Py, removed);
    CleanShaderAvoids(code);
    JoinLines(DropVersionLines(SplitLines(stripped)))
  }

  lemma CleanShaderAvoids(code: string)
    ensures var stripped := Trim(Py, Replace(Replace(code, GlslFence, ""), Fence, ""));
      var r := JoinLines(DropVersionLines(SplitLines(stripped)));
      !Contains(r, Fence) && !Contains(r, GlslFence) && !Contains(r, VersionMarker)
  {
    var removed := Replace(Replace(code, GlslFence, ""), Fence, "");
    var stripped := Trim(Py, removed);
    NoFenceAfterRemoval(Replace(code, GlslFence, ""));
    TrimIsSlice(Py, removed);
    NotContainsSlice(removed, Fence, LeadingSpaces(Py, removed), LeadingSpaces(Py, removed) + |stripped|);
    KeptLinesAvoid(stripped, Fence);
    var kept := DropVersionLines(SplitLines(stripped));
    JoinLinesAvoids(kept, VersionMarker);
    FenceInsideGlslFence(JoinLines(kept));
  }

  /** "```glsl" begins with "```", so a text without the one has none of the other. */
  lemma FenceInsideGlslFence(s: string)
    requires !Contains(s, Fence)
    ensures !Contains(s, GlslFence)
  {
    forall i
      ensures !OccursAt(s, GlslFence, i)
    {
      if 0 <= i && i + |GlslFence| <= |s| {
        assert s[i..i + |Fence|] == s[i..i + |GlslFence|][..|Fence|];
        assert !OccursAt(s, Fence, i);
      }
    }
  }

  /** `/generate_shader`: the model's text is stripped by `generate_shader`, then cleaned. */
  function GenerateShaderResponse(modelText: string): (shader: string)
    ensures !Contains(shader, Fence) && !Contains(shader, GlslFence) && !Contains(shader, VersionMarker)
  {
    CleanShader(Trim(Py, modelText))
  }

  /**
   * `/modify_shader`, read step by step from its own lines: `modify_shader` strips
   * the model's text, then the endpoint removes the fences, strips again, drops the
   * "#version" lines and rejoins. It agrees with `/generate_shader`.
   */
  function ModifyShaderResponse(modelText: string): (shader: string)
    ensures !Contains(shader, Fence) && !Contains(shader, GlslFence) && !Contains(shader, VersionMarker)
    ensures shader == GenerateShaderResponse(modelText)
  {
    var answer := Trim(Py, modelText);
    var unfenced := Trim(Py, Replace(Replace(answer, GlslFence, ""), Fence, ""));
    var kept := DropVersionLines(SplitLines(unfenced));
    CleanShaderAvoids(answer);
    JoinLines(kept)
  }

  /** Replacing a pattern that does not occur changes nothing. */
  lemma {:induction false} ReplaceAbsent(s: string, pat: string, sub: string)
    requires |pat| > 0 && !Contains(s, pat)
    ensures Replace(s, pat, sub) == s
    decreases |s|
  {
    if |s| >= |pat| {
      assert !OccursAt(s, pat, 0);
      NotContainsSlice(s, pat, 1, |s|);
      assert s[1..|s|] == s[1..];
      ReplaceAbsent(s[1..], pat, sub);
      assert [s[0]] + s[1..] == s;
    }
  }

  lemma JoinLinesCons(line: string, later: seq<string>)
    requires |later| >= 1
    ensures JoinLines([line] + later) == line + "\n" + JoinLines(later)
  {
    assert ([line] + later)[1..] == later;
  }

  /** Only "\n" breaks lines in `s`. */
  predicate OnlyNewlines(s: string)
  {
    forall i :: 0 <= i < |s| && IsLineBreak(s[i]) ==> s[i] == '\n'
  }

  /**
   * A text whose only line break is "\n" and that does not end with one is
   * rebuilt exactly by `"\n".join(s.splitlines())`.
   */
  lemma {:induction false} JoinSplitLines(s: string)
    requires OnlyNewlines(s)
    requires s == [] || s[|s| - 1] != '\n'
    ensures JoinLines(SplitLines(s)) == s
    decreases |s|
  {
    if s != [] {
      var k := FirstBreak(s);
      if k == |s| {
        assert s[..k] == s;
      } else {
        var line, rest := s[..k], s[k + 1..];
        assert s[k] == '\n' && k + 1 < |s|;
        assert s == line + "\n" + rest;
        assert OnlyNewlines(rest) by {
          forall i | 0 <= i < |rest| && IsLineBreak(rest[i])
            ensures rest[i] == '\n'
          {
            assert rest[i] == s[k + 1 + i];
          }
        }
        assert rest[|rest| - 1] == s[|s| - 1];
        JoinSplitLines(rest);
        SplitLinesCons(line, rest);
        JoinLinesCons(line, SplitLines(rest));
      }
    }
  }

  /** A line ended by "\n" and followed by more text is the first of the lines. */
  lemma SplitLinesCons(line: string, rest: string)
    requires NoLineBreak(line) && rest != []
    ensures SplitLines(line + "\n" + rest) == [line] + SplitLines(rest)
  {
    var s := line + "\n" + rest;
    FirstBreakOfLine(line, "\n" + rest);
    assert s == line + ("\n" + rest);
    assert s[|line|] == '\n';
    assert s[..|line|] == line && s[|line| + 1..] == rest;
  }

  /** A line without breaks followed by a break (or by nothing) ends at its own length. */
  lemma {:induction false} FirstBreakOfLine(line: string, tail: string)
    requires NoLineBreak(line)
    requires tail == [] || IsLineBreak(tail[0])
    ensures FirstBreak(line + tail) == |line|
    decreases |line|
  {
    if line != [] {
      assert (line + tail)[1..] == line[1..] + tail;
      FirstBreakOfLine(line[1..], tail);
    } else {
      assert line + tail == tail;
    }
  }

  /** Lines without "#version" all pass the filter. */
  lemma {:induction false} DropVersionLinesKeepsAll(lines: seq<string>)
    requires forall k :: 0 <= k < |lines| ==> !Contains(lines[k], VersionMarker)
    ensures DropVersionLines(lines) == lines
    decreases |lines|
  {
    if lines != [] {
      DropVersionLinesKeepsAll(lines[1..]);
      assert [lines[0]] + lines[1..] == lines;
    }
  }

  /**
   * The cleanup removes nothing but what it targets: code that has no fence, no
   * "#version", no surrounding whitespace and no line break other than "\n"
   * comes through both endpoints unchanged.
   */
  lemma CleanCodeUnchanged(code: string)
    requires !Contains(code, Fence) && !Contains(code, VersionMarker)
    requires Trim(Py, code) == code
    requires OnlyNewlines(code)
    ensures CleanShader(code) == code
    ensures GenerateShaderResponse(code) == code
  {
    FenceInsideGlslFence(code);
    ReplaceAbsent(code, GlslFence, "");
    ReplaceAbsent(code, Fence, "");
    assert code == [] || code[|code| - 1] != '\n' by {
      if code != [] {
        assert !IsSpace(Py, Trim(Py, code)[|code| - 1]);
      }
    }
    JoinSplitLines(code);
    SplitLinesAvoid(code, VersionMarker);
    DropVersionLinesKeepsAll(SplitLines(code));
  }
}
