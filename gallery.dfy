/**
 * The rules of the gallery page (frontend/src/app/gallery/page.tsx): which page the
 * `page_number` query selects, when Previous and Next are enabled and where they lead,
 * and how a shader's prompt and description are shown on its card.
 */
module Gallery {
  import opened Wrappers
  import opened Text
  import ShaderStore

  const GalleryPath: string := "/gallery?page_number="

  /** What the page does with its `page_number` query parameter. */
  datatype PageView = RedirectTo(url: string) | Show(page: string)

  /** A missing or empty `page_number` redirects to the first page; any other value is shown as given. */
  function ResolvePage(param: Option<string>): (v: PageView)
  {
    if param.None? || param.value == "" then RedirectTo(GalleryPath + "1") else Show(param.value)
  }

  /**
   * Without a usable `page_number` the page redirects, and the page it redirects to is
   * page 1, which it then shows with Previous disabled.
   */
  lemma ResolvePageRule(param: Option<string>)
    ensures ResolvePage(param).RedirectTo? <==> param.None? || param.value == ""
    ensures ResolvePage(param).Show? ==> ResolvePage(param).page == param.value
    ensures ResolvePage(param).RedirectTo? ==>
      var target := ResolvePage(param).url;
      |GalleryPath| <= |target| && target[..|GalleryPath|] == GalleryPath
      && ResolvePage(Some(target[|GalleryPath|..])) == Show("1")
      && ParseInt("1") == Some(1) && PreviousDisabled("1")
  {
    ParseIntRoundTrip(1);
    assert IntToString(1) == "1";
    if ResolvePage(param).RedirectTo? {
      var target := ResolvePage(param).url;
      assert target[|GalleryPath|..] == "1";
    }
  }

  // ----- JavaScript's parseInt -----

  predicate IsDecimalDigit(c: char)
  {
    '0' <= c <= '9'
  }

  predicate IsHexDigit(c: char)
  {
    IsDecimalDigit(c) || ('a' <= c <= 'f') || ('A' <= c <= 'F')
  }

  predicate IsRadixDigit(hex: bool, c: char)
  {
    if hex then IsHexDigit(c) else IsDecimalDigit(c)
  }

  function DigitValue(c: char): nat
  {
    if '0' <= c <= '9' then c as int - '0' as int
    else if 'a' <= c <= 'f' then c as int - 'a' as int + 10
    else if 'A' <= c <= 'F' then c as int - 'A' as int + 10
    else 0
  }

  /** The length of the longest prefix of `s` made of digits of the radix. */
  function DigitRun(hex: bool, s: string): (n: nat)
    ensures n <= |s|
  {
    if s == [] || !IsRadixDigit(hex, s[0]) then 0 else 1 + DigitRun(hex, s[1..])
  }

  /** The run is made of digits and stops at the first character that is not one. */
  lemma {:induction false} DigitRunIsLongest(hex: bool, s: string)
    ensures forall i :: 0 <= i < DigitRun(hex, s) ==> IsRadixDigit(hex, s[i])
    ensures DigitRun(hex, s) == |s| || !IsRadixDigit(hex, s[DigitRun(hex, s)])
    decreases |s|
  {
    if s != [] && IsRadixDigit(hex, s[0]) {
      DigitRunIsLongest(hex, s[1..]);
      forall i | 1 <= i < DigitRun(hex, s)
        ensures IsRadixDigit(hex, s[i])
      {
        assert s[i] == s[1..][i - 1];
      }
    }
  }

  /** The number the digits denote in base 16 (`hex`) or base 10. */
  function RadixValue(hex: bool, digits: string): nat
  {
    if digits == [] then 0
    else RadixValue(hex, digits[..|digits| - 1]) * (if hex then 16 else 10) + DigitValue(digits[|digits| - 1])
  }

  /**
   * `parseInt(s)` without a radix: leading whitespace, an optional sign, an optional
   * `0x`/`0X` prefix selecting base 16, then the longest run of digits; `None` is NaN.
   */
  function ParseInt(s: string): Option<int>
  {
    var t := TrimStart(Js, s);
    if t != [] && t[0] == '-' then Negate(ParseMagnitude(t[1..]))
    else if t != [] && t[0] == '+' then ParseMagnitude(t[1..])
    else ParseMagnitude(t)
  }

  function Negate(v: Option<int>): Option<int>
  {
    if v.None? then None else Some(-v.value)
  }

  /** The digits after the sign: with a `0x` prefix read in base 16, otherwise in base 10. */
  function ParseMagnitude(u: string): Option<int>
  {
    var hex := |u| >= 2 && u[0] == '0' && (u[1] == 'x' || u[1] == 'X');
    var body := if hex then u[2..] else u;
    var n := DigitRun(hex, body);
    if n == 0 then None else Some(RadixValue(hex, body[..n]))
  }

  /** The decimal value read from digits is the Text module's `DigitsValue`. */
  lemma {:induction false} DecimalValue(digits: string)
    requires IsDigits(digits)
    ensures RadixValue(false, digits) == DigitsValue(digits)
    decreases |digits|
  {
    if digits != [] {
      DecimalValue(digits[..|digits| - 1]);
    }
  }

  /** A string of decimal digits is one whole run. */
  lemma {:induction false} WholeDecimalRun(digits: string)
    requires IsDigits(digits)
    ensures DigitRun(false, digits) == |digits|
    decreases |digits|
  {
    if digits != [] {
      WholeDecimalRun(digits[1..]);
    }
  }

  /** `parseInt(String(n)) === n`: the page numbers the buttons write are read back unchanged. */
  lemma ParseIntRoundTrip(n: int)
    ensures ParseInt(IntToString(n)) == Some(n)
  {
    var m: nat := if n < 0 then -n else n;
    DigitsRoundTrip(m);
    if n < 0 {
      ParseDigits(NatToString(m));
      ParseNegative(NatToString(m), m);
    } else {
      ParseUnsigned(NatToString(m));
    }
  }

  lemma ParseUnsigned(digits: string)
    requires |digits| >= 1 && IsDigits(digits)
    ensures ParseInt(digits) == Some(DigitsValue(digits))
  {
    StartsWithoutSpace(digits);
    ParseDigits(digits);
  }

  lemma ParseNegative(rest: string, v: int)
    requires ParseMagnitude(rest) == Some(v)
    ensures ParseInt("-" + rest) == Some(-v)
  {
    MinusSign("-" + rest);
    assert ("-" + rest)[1..] == rest;
  }

  /** A leading minus sign negates what follows it. */
  lemma MinusSign(s: string)
    requires s != [] && s[0] == '-'
    ensures ParseInt(s) == Negate(ParseMagnitude(s[1..]))
  {
    StartsWithoutSpace(s);
  }

  lemma StartsWithoutSpace(s: string)
    requires s != [] && (s[0] == '-' || IsDecimalDigit(s[0]))
    ensures TrimStart(Js, s) == s
  {
    assert !IsJsSpace(s[0]);
  }

  /** The part of `parseInt` after the sign, on decimal digits: the whole run, read in base 10. */
  lemma ParseDigits(digits: string)
    requires |digits| >= 1 && IsDigits(digits)
    ensures ParseMagnitude(digits) == Some(DigitsValue(digits))
  {
    WholeDecimalRun(digits);
    assert digits[..|digits|] == digits;
    DecimalValue(digits);
  }

  // ----- Previous and Next -----

  /** How a JavaScript number is written after `"/gallery?page_number=" +`; NaN is written "NaN". */
  function NumberText(v: Option<int>): string
  {
    if v.None? then "NaN" else IntToString(v.value)
  }

  function Shift(v: Option<int>, delta: int): Option<int>
  {
    if v.None? then None else Some(v.value + delta)
  }

  /** `parseInt(page) <= 1`; a comparison with NaN is false, so a non-numeric page leaves Previous enabled. */
  function PreviousDisabled(page: string): bool
  {
    var v := ParseInt(page);
    v.Some? && v.value <= 1
  }

  function PreviousTarget(page: string): string
  {
    GalleryPath + NumberText(Shift(ParseInt(page), -1))
  }

  function NextTarget(page: string): string
  {
    GalleryPath + NumberText(Shift(ParseInt(page), 1))
  }

  /** The page number of the look-ahead fetch `retrieve_shaders?page=${parseInt(page) + 1}`. */
  function LookAheadPage(page: string): string
  {
    NumberText(Shift(ParseInt(page), 1))
  }

  /** `results.length < 5 || nextResults.length === 0`. */
  function NextDisabled(resultsCount: nat, nextCount: nat): bool
  {
    resultsCount < 5 || nextCount == 0
  }

  /** On a numbered page, Previous is disabled exactly on page 1 and below. */
  lemma PreviousDisabledIff(n: int)
    ensures PreviousDisabled(IntToString(n)) <==> n <= 1
  {
    ParseIntRoundTrip(n);
  }

  /** A page that is not a number keeps Previous enabled, and Previous then leads to "NaN". */
  lemma PreviousOnNaN(page: string)
    requires ParseInt(page).None?
    ensures !PreviousDisabled(page)
    ensures PreviousTarget(page) == GalleryPath + "NaN"
  {
  }

  /** Previous then Next comes back to the same page, and Next looks ahead at the page it leads to. */
  lemma PreviousThenNext(n: int)
    ensures PreviousTarget(IntToString(n)) == GalleryPath + IntToString(n - 1)
    ensures NextTarget(IntToString(n - 1)) == GalleryPath + IntToString(n)
    ensures NextTarget(IntToString(n)) == GalleryPath + LookAheadPage(IntToString(n))
  {
    ParseIntRoundTrip(n);
    ParseIntRoundTrip(n - 1);
  }

  /**
   * Against the store's pages of six, Next is disabled exactly when the next page is
   * empty: a page with fewer than five records is never followed by a non-empty one.
   */
  lemma NextDisabledOnLastPage(records: seq<ShaderStore.ShaderRecord>, page: int)
    requires page >= 1
    ensures NextDisabled(|ShaderStore.PageOf(records, page)|, |ShaderStore.PageOf(records, page + 1)|)
        <==> ShaderStore.PageOf(records, page + 1) == []
  {
    if |ShaderStore.PageOf(records, page)| < 5 {
      ShaderStore.ShortPageIsLast(records, page, page + 1);
    }
  }

  // ----- Card text -----

  const PreviewLimit: nat := 25

  /**
   * The quoted prompt under a card: the first character upper-cased, then the rest,
   * cut after 25 characters with "..." appended.
   */
  function Preview(prompt: string): string
  {
    if |prompt| > PreviewLimit then [UpperChar(prompt[0])] + prompt[1..PreviewLimit] + "..."
    else if prompt == [] then []
    else [UpperChar(prompt[0])] + prompt[1..]
  }

  /** What the preview keeps of the prompt, and that it is never longer than 28 characters. */
  lemma PreviewShape(prompt: string)
    ensures |Preview(prompt)| <= PreviewLimit + 3
    ensures |prompt| > PreviewLimit ==>
      |Preview(prompt)| == PreviewLimit + 3 && Preview(prompt)[PreviewLimit..] == "..."
      && Preview(prompt)[1..PreviewLimit] == prompt[1..PreviewLimit]
    ensures |prompt| <= PreviewLimit ==> |Preview(prompt)| == |prompt|
    ensures 0 < |prompt| <= PreviewLimit ==> Preview(prompt)[1..] == prompt[1..]
    ensures prompt != [] ==> Preview(prompt)[0] == UpperChar(prompt[0])
  {
  }

  /** JavaScript's `\w`: ASCII letters, digits and the underscore. */
  predicate IsWordChar(c: char)
  {
    IsAsciiLetter(c) || ('0' <= c <= '9') || c == '_'
  }

  /** `\b\w` matches at `i`: a word character with no word character just before it. */
  predicate StartsWord(s: string, i: int)
    requires 0 <= i < |s|
  {
    IsWordChar(s[i]) && !PrecededByWord(s, i, false)
  }

  /** Whether the character before `s[i]` is a word character; `before` stands for what precedes `s`. */
  predicate PrecededByWord(s: string, i: int, before: bool)
    requires 0 <= i < |s|
  {
    if i == 0 then before else IsWordChar(s[i - 1])
  }

  /**
   * `description.replace(/\b\w/g, c => c.toUpperCase())`, as a left-to-right scan that
   * remembers whether the previous character was a word character.
   */
  function TitleCase(description: string): (r: string)
    ensures |r| == |description|
    ensures forall i :: 0 <= i < |description| ==>
      r[i] == if StartsWord(description, i) then UpperChar(description[i]) else description[i]
  {
    TitleCaseAfter(description, false)
  }

  function TitleCaseAfter(s: string, afterWord: bool): (r: string)
    ensures |r| == |s|
    ensures forall i :: 0 <= i < |s| ==>
      r[i] == if IsWordChar(s[i]) && !PrecededByWord(s, i, afterWord) then UpperChar(s[i]) else s[i]
  {
    if s == [] then []
    else
      var head := if IsWordChar(s[0]) && !afterWord then UpperChar(s[0]) else s[0];
      var rest := TitleCaseAfter(s[1..], IsWordChar(s[0]));
      var r := [head] + rest;
      assert forall i :: 1 <= i < |s| ==>
        r[i] == rest[i - 1] && s[1..][i - 1] == s[i]
        && (PrecededByWord(s[1..], i - 1, IsWordChar(s[0])) <==> PrecededByWord(s, i, afterWord));
      r
  }

  lemma UpperKeepsWordChar(c: char)
    ensures IsWordChar(UpperChar(c)) <==> IsWordChar(c)
    ensures UpperChar(UpperChar(c)) == UpperChar(c)
  {
  }

  /** Title-casing a title changes nothing: word starts stay word starts and are already upper case. */
  lemma TitleCaseIdempotent(description: string)
    ensures TitleCase(TitleCase(description)) == TitleCase(description)
  {
    var t := TitleCase(description);
    forall i | 0 <= i < |t|
      ensures TitleCase(t)[i] == t[i]
    {
      UpperKeepsWordChar(description[i]);
      if i > 0 {
        UpperKeepsWordChar(description[i - 1]);
      }
    }
  }
}
