/**
 * `build_prompt` of backend/main.py: the instruction text sent to the model,
 * accumulated piece by piece, with up to 300 characters of each retrieved example.
 */
module PromptBuilder {
  import opened Wrappers
  import opened Text

  /** The metadata Chroma returns with each example shader. */
  datatype Metadata = Metadata(title: string, author: string, description: string, tags: string)

  /** `results["metadatas"][0][i]` does not exist: Python raises IndexError. */
  datatype PromptError = MissingMetadata(index: nat)

  const Header: string := "You will be generating GLSL fragment shaders targeting WebGL\n"
  const CodeIntro: string :=
    "Here is the shader code you need to modify and send back according to the following code samples and prompt:\n"
  const ExamplesIntro: string := "Here are some example shaders to reference for code generation:\n"

  /**
   * The fixed block of requirements and sample SDFs. It is a plain string, not an
   * f-string, so its doubled braces reach the model doubled.
   */
  const Requirements: string := @"[REQUIRED] Additional Program Information:
Please write shaders targeting WebGL
Do NOT write #version directives

You can use iTime, iResolution, for your shaders
When you use iResolution you must declare it as a uniform vec2
When you use iTime you must declare it as a uniform float

Make a main function with no parameters, and it must have its end result go to gl_FragColor

Using sdfs and smoothing functions is also something that's encouraged if you are raymarching

Here are some sample sdfs:
float sdSphere( vec3 p, float s )
{{
  return length(p)-s;
}}


float sdBox( vec3 p, vec3 b )
{{
  vec3 q = abs(p) - b;
  return length(max(q,0.0)) + min(max(q.x,max(q.y,q.z)),0.0);
}}


float sdRoundBox( vec3 p, vec3 b, float r )
{{
  vec3 q = abs(p) - b + r;
  return length(max(q,0.0)) + min(max(q.x,max(q.y,q.z)),0.0) - r;
}}


float sdBoxFrame( vec3 p, vec3 b, float e )
{{
       p = abs(p  )-b;
  vec3 q = abs(p+e)-e;
  return min(min(
      length(max(vec3(p.x,q.y,q.z),0.0))+min(max(p.x,max(q.y,q.z)),0.0),
      length(max(vec3(q.x,p.y,q.z),0.0))+min(max(q.x,max(p.y,q.z)),0.0)),
      length(max(vec3(q.x,q.y,p.z),0.0))+min(max(q.x,max(q.y,p.z)),0.0));
}}


float sdCapsule( vec3 p, vec3 a, vec3 b, float r )
{{
  vec3 pa = p - a, ba = b - a;
  float h = clamp( dot(pa,ba)/dot(ba,ba), 0.0, 1.0 );
  return length( pa - ba*h ) - r;
}}"

  const SnippetLimit: nat := 300

  /** `document[:300]`. */
  function Snippet(document: string): (s: string)
    ensures |s| <= SnippetLimit
    ensures |s| <= |document| && s == document[..|s|]
    ensures |document| <= SnippetLimit ==> s == document
  {
    if |document| <= SnippetLimit then document else document[..SnippetLimit]
  }

  /** The text before the examples: the header, the code to modify when there is some, the examples' heading. */
  function Preamble(code: Option<string>): string
  {
    Header + CodeSection(code) + ExamplesIntro
  }

  function CodeSection(code: Option<string>): string
  {
    if code.Some? then CodeIntro + code.value + "\n\n" else ""
  }

  /** The f-string appended for the example numbered `number`. */
  function ExampleBlock(number: nat, meta: Metadata, snippet: string): string
  {
    Join(["\nExample ", NatToString(number), " - ", meta.title, " by ", meta.author, ":\n",
          "Description: ", meta.description, "\n",
          "Tags: ", meta.tags, "\n",
          "Code Snippet:", snippet, "\n"])
  }

  /** The pieces of an f-string, one after the other. */
  function Join(parts: seq<string>): string
  {
    if parts == [] then "" else parts[0] + Join(parts[1..])
  }

  /** Every piece of an f-string occurs in the text it builds. */
  lemma {:induction false} JoinContains(parts: seq<string>, j: nat)
    requires j < |parts|
    ensures Contains(Join(parts), parts[j])
  {
    var rest := Join(parts[1..]);
    assert Join(parts) == parts[0] + rest;
    if j == 0 {
      OccursSelf(parts[0]);
      OccursExtendRight(parts[0], rest, parts[0], 0);
    } else {
      JoinContains(parts[1..], j - 1);
      assert parts[1..][j - 1] == parts[j];
      var i :| OccursAt(rest, parts[j], i);
      OccursExtendLeft(parts[0], rest, parts[j], i);
    }
  }

  /** An example's block shows its number, title, author, description, tags and snippet. */
  lemma BlockShowsExample(number: nat, meta: Metadata, snippet: string)
    ensures Contains(ExampleBlock(number, meta, snippet), NatToString(number))
    ensures Contains(ExampleBlock(number, meta, snippet), meta.title)
    ensures Contains(ExampleBlock(number, meta, snippet), meta.author)
    ensures Contains(ExampleBlock(number, meta, snippet), meta.description)
    ensures Contains(ExampleBlock(number, meta, snippet), meta.tags)
    ensures Contains(ExampleBlock(number, meta, snippet), snippet)
  {
    var parts := ["\nExample ", NatToString(number), " - ", meta.title, " by ", meta.author, ":\n",
                  "Description: ", meta.description, "\n",
                  "Tags: ", meta.tags, "\n",
                  "Code Snippet:", snippet, "\n"];
    assert ExampleBlock(number, meta, snippet) == Join(parts);
    JoinContains(parts, 1);
    JoinContains(parts, 3);
    JoinContains(parts, 5);
    JoinContains(parts, 8);
    JoinContains(parts, 11);
    JoinContains(parts, 14);
  }

  /** The blocks of the first `n` examples, numbered 1 to `n`. */
  function Examples(documents: seq<string>, metadatas: seq<Metadata>, n: nat): string
    requires n <= |documents| && n <= |metadatas|
  {
    if n == 0 then ""
    else Examples(documents, metadatas, n - 1) + ExampleBlock(n, metadatas[n - 1], Snippet(documents[n - 1]))
  }

  const ClosingLead: string := "\nNow, based on the above examples, write a new GLSL fragment shader that creates: **"
  const ClosingTrail: string := "**.\n\nOutput only the GLSL code."

  /** The closing request around the user's prompt. */
  function Closing(userPrompt: string): string
  {
    ClosingLead + userPrompt + ClosingTrail
  }

  /** The whole prompt, when every document has its metadata. */
  function PromptText(userPrompt: string, documents: seq<string>, metadatas: seq<Metadata>, code: Option<string>): string
    requires |documents| <= |metadatas|
  {
    PromptWith(Requirements, userPrompt, documents, metadatas, code)
  }

  /**
   * The prompt around a given requirements block. The lemmas below hold whatever
   * that block says, so they are stated for every `requirements`.
   */
  function PromptWith(requirements: string, userPrompt: string, documents: seq<string>, metadatas: seq<Metadata>,
                      code: Option<string>): string
    requires |documents| <= |metadatas|
  {
    Preamble(code) + Examples(documents, metadatas, |documents|) + requirements + Closing(userPrompt)
  }

  /**
   * `build_prompt(user_prompt, results, code)`, with `results["documents"][0]` and
   * `results["metadatas"][0]` as the two sequences and `code=None` as `None`.
   */
  method BuildPrompt(userPrompt: string, documents: seq<string>, metadatas: seq<Metadata>, code: Option<string>)
    returns (r: Result<string, PromptError>)
    ensures |documents| <= |metadatas| ==> r == Success(PromptText(userPrompt, documents, metadatas, code))
    ensures |documents| > |metadatas| ==> r == Failure(MissingMetadata(|metadatas|))
  {
    var context := Header;
    if code.Some? {
      context := context + CodeIntro + code.value + "\n\n";
    }
    SectionAppended(Header, CodeIntro, code, context);
    context := context + ExamplesIntro;

    ghost var preamble := context;
    for i := 0 to |documents|
      invariant i <= |metadatas|
      invariant context == preamble + Examples(documents, metadatas, i)
    {
      if i >= |metadatas| {
        return Failure(MissingMetadata(i));
      }
      var meta := metadatas[i];
      var snippet := Snippet(documents[i]);
      var block := ExampleBlock(i + 1, meta, snippet);
      ExamplesStep(documents, metadatas, i, preamble, context, block);
      context := context + block;
    }
    context := context + Requirements;
    context := context + Closing(userPrompt);
    return Success(context);
  }

  lemma SectionAppended(header: string, intro: string, code: Option<string>, context: string)
    requires context == if code.Some? then header + intro + code.value + "\n\n" else header
    ensures context == header + (if code.Some? then intro + code.value + "\n\n" else "")
  {
    if code.None? {
      assert header + "" == header;
    }
  }

  lemma ExamplesStep(documents: seq<string>, metadatas: seq<Metadata>, i: nat, prefix: string, context: string, block: string)
    requires i < |documents| && i < |metadatas|
    requires context == prefix + Examples(documents, metadatas, i)
    requires block == ExampleBlock(i + 1, metadatas[i], Snippet(documents[i]))
    ensures context + block == prefix + Examples(documents, metadatas, i + 1)
  {
  }

  /** The prompt begins with the header. */
  lemma StartsWithHeader(requirements: string, userPrompt: string, documents: seq<string>, metadatas: seq<Metadata>,
                         code: Option<string>)
    requires |documents| <= |metadatas|
    ensures OccursAt(PromptWith(requirements, userPrompt, documents, metadatas, code), Header, 0)
  {
    PreambleLayout(code);
    PreambleInPrompt(requirements, userPrompt, documents, metadatas, code, Header, 0);
  }

  /** With code to modify, the code section's instruction follows the header. */
  lemma CodeSectionWhenGiven(requirements: string, userPrompt: string, documents: seq<string>, metadatas: seq<Metadata>,
                             code: Option<string>)
    requires |documents| <= |metadatas|
    requires code.Some?
    ensures OccursAt(PromptWith(requirements, userPrompt, documents, metadatas, code), CodeIntro, |Header|)
  {
    PreambleLayout(code);
    PreambleInPrompt(requirements, userPrompt, documents, metadatas, code, CodeIntro, |Header|);
  }

  /** With code to modify, the code itself follows that instruction. */
  lemma CodeInSection(requirements: string, userPrompt: string, documents: seq<string>, metadatas: seq<Metadata>,
                      code: Option<string>)
    requires |documents| <= |metadatas|
    requires code.Some?
    ensures OccursAt(PromptWith(requirements, userPrompt, documents, metadatas, code), code.value, |Header| + |CodeIntro|)
  {
    PreambleLayout(code);
    PreambleInPrompt(requirements, userPrompt, documents, metadatas, code, code.value, |Header| + |CodeIntro|);
  }

  /** Without code, the examples' heading follows the header directly. */
  lemma NoCodeSection(requirements: string, userPrompt: string, documents: seq<string>, metadatas: seq<Metadata>,
                      code: Option<string>)
    requires |documents| <= |metadatas|
    requires code.None?
    ensures OccursAt(PromptWith(requirements, userPrompt, documents, metadatas, code), ExamplesIntro, |Header|)
  {
    PreambleLayout(code);
    PreambleInPrompt(requirements, userPrompt, documents, metadatas, code, ExamplesIntro, |Header|);
  }

  lemma PreambleLayout(code: Option<string>)
    ensures OccursAt(Preamble(code), Header, 0)
    ensures code.Some? ==> OccursAt(Preamble(code), CodeIntro, |Header|)
    ensures code.Some? ==> OccursAt(Preamble(code), code.value, |Header| + |CodeIntro|)
    ensures code.None? ==> OccursAt(Preamble(code), ExamplesIntro, |Header|)
  {
    Layout(Header, CodeIntro, ExamplesIntro, code);
  }

  /** Where each piece sits in `header + section + heading`, for any texts of the three fixed pieces. */
  lemma Layout(header: string, intro: string, heading: string, code: Option<string>)
    ensures OccursAt(header + (if code.Some? then intro + code.value + "\n\n" else "") + heading, header, 0)
    ensures code.Some? ==> OccursAt(header + (intro + code.value + "\n\n") + heading, intro, |header|)
    ensures code.Some? ==> OccursAt(header + (intro + code.value + "\n\n") + heading, code.value, |header| + |intro|)
    ensures code.None? ==> OccursAt(header + "" + heading, heading, |header|)
  {
    var section := if code.Some? then intro + code.value + "\n\n" else "";
    OccursSelf(header);
    OccursExtendRight(header, section, header, 0);
    OccursExtendRight(header + section, heading, header, 0);
    if code.Some? {
      OccursSelf(intro);
      OccursExtendRight(intro, code.value, intro, 0);
      OccursExtendRight(intro + code.value, "\n\n", intro, 0);
      OccursSelf(code.value);
      OccursExtendLeft(intro, code.value, code.value, 0);
      OccursExtendRight(intro + code.value, "\n\n", code.value, |intro|);
      OccursExtendLeft(header, section, intro, 0);
      OccursExtendRight(header + section, heading, intro, |header|);
      OccursExtendLeft(header, section, code.value, |intro|);
      OccursExtendRight(header + section, heading, code.value, |header| + |intro|);
    } else {
      OccursSelf(heading);
      OccursExtendLeft(header + section, heading, heading, 0);
    }
  }

  /** Whatever occurs in the preamble occurs at the same place in the whole prompt. */
  lemma PreambleInPrompt(requirements: string, userPrompt: string, documents: seq<string>, metadatas: seq<Metadata>, code: Option<string>,
                         pat: string, i: int)
    requires |documents| <= |metadatas|
    requires OccursAt(Preamble(code), pat, i)
    ensures OccursAt(PromptWith(requirements, userPrompt, documents, metadatas, code), pat, i)
  {
    var examples := Examples(documents, metadatas, |documents|);
    OccursExtendRight(Preamble(code), examples, pat, i);
    OccursExtendRight(Preamble(code) + examples, requirements, pat, i);
    OccursExtendRight(Preamble(code) + examples + requirements, Closing(userPrompt), pat, i);
  }

  /** The prompt closes with the user's request, so the request always reaches the model. */
  lemma EndsWithRequest(requirements: string, userPrompt: string, documents: seq<string>, metadatas: seq<Metadata>, code: Option<string>)
    requires |documents| <= |metadatas|
    ensures OccursAt(PromptWith(requirements, userPrompt, documents, metadatas, code), Closing(userPrompt),
                     |PromptWith(requirements, userPrompt, documents, metadatas, code)| - |Closing(userPrompt)|)
    ensures Contains(PromptWith(requirements, userPrompt, documents, metadatas, code), userPrompt)
  {
    var head := Preamble(code) + Examples(documents, metadatas, |documents|) + requirements;
    Framed(head, ClosingLead, userPrompt, ClosingTrail);
  }

  /** A text framed by `lead` and `trail` at the end of a string sits there, and so does the framed text. */
  lemma Framed(head: string, lead: string, x: string, trail: string)
    ensures OccursAt(head + (lead + x + trail), lead + x + trail, |head + (lead + x + trail)| - |lead + x + trail|)
    ensures Contains(head + (lead + x + trail), x)
  {
    OccursSelf(lead + x + trail);
    OccursExtendLeft(head, lead + x + trail, lead + x + trail, 0);
    OccursSelf(x);
    OccursExtendLeft(lead, x, x, 0);
    OccursExtendRight(lead + x, trail, x, |lead|);
    OccursExtendLeft(head, lead + x + trail, x, |lead|);
  }

  /** The blocks of examples `m + 1` to `n`. */
  function ExamplesBetween(documents: seq<string>, metadatas: seq<Metadata>, m: nat, n: nat): string
    requires m <= n <= |documents| && n <= |metadatas|
    decreases n - m
  {
    if m == n then ""
    else ExamplesBetween(documents, metadatas, m, n - 1) + ExampleBlock(n, metadatas[n - 1], Snippet(documents[n - 1]))
  }

  /** The blocks already written are never rewritten: later examples are only appended. */
  lemma {:induction false} ExamplesGrow(documents: seq<string>, metadatas: seq<Metadata>, m: nat, n: nat)
    requires m <= n <= |documents| && n <= |metadatas|
    ensures Examples(documents, metadatas, n)
         == Examples(documents, metadatas, m) + ExamplesBetween(documents, metadatas, m, n)
    decreases n - m
  {
    if m < n {
      ExamplesGrow(documents, metadatas, m, n - 1);
      var block := ExampleBlock(n, metadatas[n - 1], Snippet(documents[n - 1]));
      var shorter, between := Examples(documents, metadatas, m), ExamplesBetween(documents, metadatas, m, n - 1);
      assert shorter + between + block == shorter + (between + block);
    } else {
      assert Examples(documents, metadatas, m) + "" == Examples(documents, metadatas, m);
    }
  }

  /** Whatever occurs in the examples occurs in the prompt, shifted by the preamble. */
  lemma ExamplesInPrompt(requirements: string, userPrompt: string, documents: seq<string>, metadatas: seq<Metadata>, code: Option<string>,
                         pat: string, i: int)
    requires |documents| <= |metadatas|
    requires OccursAt(Examples(documents, metadatas, |documents|), pat, i)
    ensures OccursAt(PromptWith(requirements, userPrompt, documents, metadatas, code), pat, |Preamble(code)| + i)
  {
    Shifted(Preamble(code), Examples(documents, metadatas, |documents|), requirements, Closing(userPrompt), pat, i);
  }

  /** An occurrence in the second of four parts, seen in their concatenation. */
  lemma Shifted(a: string, b: string, c: string, d: string, pat: string, i: int)
    requires OccursAt(b, pat, i)
    ensures OccursAt(a + b + c + d, pat, |a| + i)
  {
    OccursExtendLeft(a, b, pat, i);
    OccursExtendRight(a + b, c, pat, |a| + i);
    OccursExtendRight(a + b + c, d, pat, |a| + i);
  }

  /**
   * Example `k` (counting from 1) appears in the prompt with its number, its metadata
   * and the first 300 characters of its document.
   */
  lemma ExampleIncluded(requirements: string, userPrompt: string, documents: seq<string>, metadatas: seq<Metadata>, code: Option<string>, k: nat)
    requires |documents| <= |metadatas|
    requires 1 <= k <= |documents|
    ensures Contains(PromptWith(requirements, userPrompt, documents, metadatas, code),
                     ExampleBlock(k, metadatas[k - 1], Snippet(documents[k - 1])))
  {
    var block := ExampleBlock(k, metadatas[k - 1], Snippet(documents[k - 1]));
    var before := Examples(documents, metadatas, k - 1);
    ExamplesGrow(documents, metadatas, k, |documents|);
    OccursSelf(block);
    OccursExtendLeft(before, block, block, 0);
    OccursExtendRight(before + block, ExamplesBetween(documents, metadatas, k, |documents|), block, |before|);
    ExamplesInPrompt(requirements, userPrompt, documents, metadatas, code, block, |before|);
  }
}
