# VisuWorld voice commands, shader backend and gallery rules in Dafny

VisuWorld turns spoken or typed prompts into WebGL fragment shaders. This project models its core logic and proves properties of it:

- **The voice-command parser** of the current front end (`frontend/src/app/components/speech.tsx`).
  - It watches the growing speech transcript for "reset", "visualize" and "modify".
  - It captures the text from the latest command keyword onward, keyword included.
  - After a pause, it hands that argument to `generateShader` or `modifyShader`.
  - It is modelled as the class `VoiceCommands.Dictaphone`.
  - Its pure keyword scan is the module `KeywordScan`.
  - Each run of the React transcript effect is one call of `Step`. A run sees the state as it was before the run.
  - The 2-second timer is a token: every run bumps a generation counter, which is how `clearTimeout` is modelled.
- **The older parser** of `src/app/components/speech.tsx`.
  - It splits the transcript into words and captures from the last word "visualize".
  - It logs the final text instead of dispatching it.
  - It is modelled as `LegacyCapture.Dictaphone`.
- **The backend rules** of `backend/main.py`:
  - the post-processing of model output (`ShaderCleanup`);
  - the prompt sent to the model (`PromptBuilder.BuildPrompt`);
  - the gallery store with prompt normalisation, duplicate rejection and pages of six (`ShaderStore.ShaderCollection`).
  - MongoDB is a sequence of records in insertion order.
- **The gallery page rules** of `frontend/src/app/gallery/page.tsx` (`Gallery`):
  - redirecting to page 1;
  - JavaScript `parseInt`;
  - when Previous and Next are enabled and where they lead;
  - the prompt preview and the title-cased description.

The shared module `Text` holds the string operations both languages use. JavaScript's `trim` and `split(/\s+/)` use JavaScript's whitespace class, and Python's `strip` uses Python's; `toLowerCase` and `lower` are modelled as ASCII case maps, and `lastIndexOf` and Python's `in` compare characters exactly. Calls on the outside world are recorded as a sequence of `Effect` values: the shader handlers, `resetTranscript`, and `startListening`/`stopListening`.

## Model

| member | source | states |
|---|---|---|
| KeywordScan.ScanTranscript | frontend/src/app/components/speech.tsx:114-130 | each position is the last index of its keyword in the lower-cased transcript, or -1 when the keyword is absent |
| KeywordScan.LatestCommand | frontend/src/app/components/speech.tsx:133-145 | none exactly when neither "visualize" nor "modify" occurs; otherwise the anchor is an occurrence of its command's keyword with no command keyword starting to its right |
| KeywordScan.KeywordsNeverCoincide | frontend/src/app/components/speech.tsx:138-139 | "visualize" and "modify" never start at the same index, so the strict `>` always picks the rightmost keyword |
| KeywordScan.SupersedeIsLatest | frontend/src/app/components/speech.tsx:147-156 | while capturing, if any command keyword is present, the supersession rule lands on the latest command whatever the current anchor was |
| KeywordScan.PendingStartsWithKeyword | frontend/src/app/components/speech.tsx:160-163 | the trimmed slice taken at a keyword occurrence is at least as long as the keyword and begins with it, ignoring case |
| KeywordScan.Supersede | frontend/src/app/components/speech.tsx:149-155 | the mid-sentence switch: moves to "visualize" when it starts strictly to the right of "modify", to "modify" in the opposite case, and otherwise keeps the current anchor; see SupersedeIsLatest, MoveCapture |
| KeywordScan.PendingArgument | frontend/src/app/components/speech.tsx:161-162 | `transcript.slice(start).trim()`, the keyword included; see PendingStartsWithKeyword, ContinuedCapture, Reslice |
| VoiceCommands.Dictaphone.constructor | frontend/src/app/components/speech.tsx:36-49 | the tracker starts idle (not transcribing, empty text, no command, no start index) with no timer and no effects; the mount run of the loading gate is a first `LoadingChanged` call |
| VoiceCommands.Dictaphone.Step | frontend/src/app/components/speech.tsx:110-200 | not listening, empty transcript or loading: no state change and no timer; "reset" anywhere: `resetShader` then `resetTranscript`, state cleared, no timer; otherwise the tracker moves to the latest command (or keeps its state when there is none), re-slices the argument only if it was already capturing, and schedules one timer holding the pre-run text and command; a capture continued on an extended transcript holds an argument that begins with its keyword |
| VoiceCommands.Dictaphone.Reset | frontend/src/app/components/speech.tsx:116-126 | the reset word calls `resetShader`, then `resetTranscript`, leaves the tracker idle and leaves the timer alone |
| VoiceCommands.Dictaphone.ClearCapture | frontend/src/app/components/speech.tsx:120-123 | the four updates leave the tracker idle and touch nothing else |
| VoiceCommands.Dictaphone.Track | frontend/src/app/components/speech.tsx:128-163 | the command and start move to the latest command when one exists and stay put otherwise; the filtered text becomes the pending argument exactly when the tracker was capturing before the run |
| VoiceCommands.Dictaphone.Locate | frontend/src/app/components/speech.tsx:128-156 | an idle tracker starts at the latest command and a capturing one moves to it; with no command keyword nothing changes |
| VoiceCommands.Dictaphone.StartCapture | frontend/src/app/components/speech.tsx:136-145 | an idle tracker records the command and its start index and is capturing; nothing else changes |
| VoiceCommands.Dictaphone.MoveCapture | frontend/src/app/components/speech.tsx:147-156 | a capturing tracker moves its command and start to whichever keyword the supersession rule picks; nothing else changes |
| VoiceCommands.Dictaphone.Reslice | frontend/src/app/components/speech.tsx:160-163 | the filtered text becomes the trimmed slice of the transcript from the command's start; command and start stay |
| VoiceCommands.Dictaphone.TimerFired | frontend/src/app/components/speech.tsx:166-188 | a cleared timer changes nothing; the live timer with empty text only expires; with non-empty text it dispatches exactly one handler matching its command with that text, then `resetTranscript`, and leaves the tracker idle |
| VoiceCommands.Dictaphone.LoadingChanged | frontend/src/app/components/speech.tsx:87-100 | the pending timer is cleared; entering loading stops listening, clears the capture and resets the transcript; leaving it starts listening and keeps the capture; unsupported browsers get no effect |
| VoiceCommands.AnchorSurvivesAppend | frontend/src/app/components/speech.tsx:143 | a keyword occurrence the tracker anchored on is still at the same index in any extension of the transcript |
| VoiceCommands.ContinuedCapture | frontend/src/app/components/speech.tsx:143-163 | when the transcript only grew since the anchor was set, a latest command exists and the argument sliced at it begins with its keyword |
| VoiceCommands.Dispatch | frontend/src/app/components/speech.tsx:173-177 | "visualize" text goes to `generateShader` and "modify" text to `modifyShader`; see TimerFired, which dispatches exactly one such effect |
| LegacyCapture.Words | src/app/components/speech.tsx:37 | the word list is never empty |
| LegacyCapture.WordsOfTranscript | src/app/components/speech.tsx:37 | the words, joined by single spaces, are the trimmed, lower-cased transcript with every whitespace run collapsed to one space |
| LegacyCapture.SplitCollapse | src/app/components/speech.tsx:37 | `split(/\s+/)` followed by `join(" ")` equals collapsing each maximal whitespace run to one space, for every string |
| LegacyCapture.SplitOnSpaces | src/app/components/speech.tsx:37 | `split(/\s+/)` on JavaScript whitespace, keeping the empty pieces at either end; see SplitCollapse, WordsAreNormalised, SplitJoin |
| LegacyCapture.JoinWords | src/app/components/speech.tsx:44 | `join(" ")`: the words separated by single spaces; see SplitJoin, SplitCollapse, CapturedTextAppends |
| LegacyCapture.WordsAreNormalised | src/app/components/speech.tsx:37 | every word is lower-case and free of whitespace; a blank transcript gives `[""]`, otherwise no word is empty |
| LegacyCapture.SplitJoin | src/app/components/speech.tsx:37-44 | splitting the single-space join of normalised words gives the same words back |
| LegacyCapture.LastIndexOfWord | src/app/components/speech.tsx:40 | -1 exactly when the word is absent; otherwise an index holding the word with no later one |
| LegacyCapture.CapturedText | src/app/components/speech.tsx:51-58 | with no new words the filtered text is the raw transcript |
| LegacyCapture.CapturedTextAppends | src/app/components/speech.tsx:51-58 | with non-empty, whitespace-free new words, the text is the transcript and a space with leading whitespace trimmed, followed by the new words joined by single spaces |
| LegacyCapture.FinalTranscript | src/app/components/speech.tsx:68-75 | a suffix of the filtered text; the whole text when it has no case-insensitive "visualize", otherwise it begins with "visualize" and contains no later one |
| LegacyCapture.Dictaphone.constructor | src/app/components/speech.tsx:14-31 | starts idle; the start-listening effect happens only when recognition is supported |
| LegacyCapture.Dictaphone.Step | src/app/components/speech.tsx:33-94 | not listening or empty transcript: nothing changes and no timer; idle without a "visualize" word: nothing changes; idle with one: capture the words from the last "visualize" and record the word count; capturing: append the new words and record the word count; the timer holds the word count and the pre-run filtered text |
| LegacyCapture.Dictaphone.TimerFired | src/app/components/speech.tsx:63-85 | a cleared timer changes nothing; the live one finalises only with non-empty text and an unchanged word count, logging the final text, clearing all state and resetting the transcript |
| ShaderCleanup.NoFenceAfterRemoval | backend/main.py:201 | after every triple backtick is replaced by nothing, no triple backtick remains |
| ShaderCleanup.DropVersionLines | backend/main.py:204 | a line is kept exactly when it was a line and does not contain "#version" |
| ShaderCleanup.DropVersionLinesKeepsOrder | backend/main.py:204 | the filter distributes over concatenation, so kept lines stay in their original relative order |
| ShaderCleanup.SplitLinesNoBreak | backend/main.py:204 | no line from `splitlines` holds a line break |
| ShaderCleanup.SplitLinesAvoid | backend/main.py:204 | a pattern absent from the text is absent from every line `splitlines` returns |
| ShaderCleanup.JoinLinesAvoids | backend/main.py:204 | joining lines that avoid a newline-free pattern with "\n" does not create it |
| ShaderCleanup.CleanShader | backend/main.py:200-204 | the cleaned shader contains no "```glsl", no "```" and no "#version" |
| ShaderCleanup.FenceInsideGlslFence | backend/main.py:201 | a text without "```" has no "```glsl" |
| ShaderCleanup.GenerateShaderResponse | backend/main.py:198-206 | the generate endpoint's shader contains no "```", no "```glsl" and no "#version" |
| ShaderCleanup.ModifyShaderResponse | backend/main.py:225-233 | the modify endpoint, read from its own lines and from `modify_shader`'s strip at line 167, gives a shader with no fence and no "#version" that equals the generate endpoint's |
| ShaderCleanup.CleanCodeUnchanged | backend/main.py:200-204 | code with no fence, no "#version", no surrounding whitespace and only "\n" line breaks passes the cleanup and the generate endpoint unchanged |
| ShaderCleanup.ReplaceAbsent | backend/main.py:201 | `replace` of a pattern that does not occur returns the text unchanged |
| ShaderCleanup.JoinSplitLines | backend/main.py:204 | `"\n".join(s.splitlines())` gives back a text whose only breaks are "\n" and that does not end with one |
| ShaderCleanup.DropVersionLinesKeepsAll | backend/main.py:204 | lines without "#version" are all kept, in order |
| ShaderCleanup.Replace | backend/main.py:201 | Python `str.replace`: non-overlapping occurrences, left to right; see NoFenceAfterRemoval, ReplaceAbsent |
| ShaderCleanup.SplitLines | backend/main.py:204 | Python `str.splitlines` with its full set of line breaks, "\r\n" as one break and no final empty line; see SplitLinesNoBreak, SplitLinesAvoid, JoinSplitLines |
| ShaderCleanup.JoinLines | backend/main.py:204 | `"\n".join`: the lines separated by "\n"; see JoinLinesAvoids, JoinSplitLines |
| PromptBuilder.Snippet | backend/main.py:82 | at most 300 characters, a prefix of the document, and the whole document when it is short |
| PromptBuilder.BuildPrompt | backend/main.py:74-141 | with metadata for every document, the prompt is the header, the code section, the numbered examples, the requirements and the closing request; with fewer metadata entries, it fails at the first missing index |
| PromptBuilder.StartsWithHeader | backend/main.py:75 | the prompt starts with the header line |
| PromptBuilder.CodeSectionWhenGiven | backend/main.py:76-77 | with code to modify, the modify instruction directly follows the header |
| PromptBuilder.CodeInSection | backend/main.py:76-77 | with code to modify, the code directly follows the modify instruction |
| PromptBuilder.NoCodeSection | backend/main.py:76-78 | without code, the examples heading directly follows the header |
| PromptBuilder.EndsWithRequest | backend/main.py:140 | the prompt ends with the closing request and contains the user prompt |
| PromptBuilder.PreambleInPrompt | backend/main.py:75-78 | whatever occurs in the header, code section and examples heading occurs at the same place in the prompt |
| PromptBuilder.ExamplesGrow | backend/main.py:80-87 | the example text for n examples is the text for m examples followed by the blocks of examples m+1 to n: earlier blocks are never rewritten |
| PromptBuilder.BlockShowsExample | backend/main.py:83-87 | an example block shows the example's number, title, author, description, tags and snippet |
| PromptBuilder.ExamplesInPrompt | backend/main.py:78-89 | whatever occurs in the examples occurs in the prompt, shifted by the header and code section |
| PromptBuilder.ExampleIncluded | backend/main.py:80-87 | for each k from 1 to the number of documents, example k, built from metadata k-1 and the first 300 characters of document k-1, appears in the prompt |
| PromptBuilder.ExampleBlock | backend/main.py:83-87 | the f-string of one example: number, title, author, description, tags and snippet; see BlockShowsExample |
| PromptBuilder.Examples | backend/main.py:80-87 | the blocks of the first n examples in order, numbered from 1; see ExamplesGrow, ExamplesInPrompt, ExampleIncluded |
| PromptBuilder.PromptText | backend/main.py:74-141 | the whole prompt with the requirements constant; see BuildPrompt, StartsWithHeader, CodeSectionWhenGiven, CodeInSection, NoCodeSection, EndsWithRequest |
| ShaderStore.NormalizeIdempotent | backend/main.py:254 | normalising a normalised prompt changes nothing |
| ShaderStore.NormalizeIgnoresCase | backend/main.py:254 | prompts that differ only in ASCII case normalise alike |
| ShaderStore.Normalize | backend/main.py:254 | `strip().lower()`; see NormalizeIdempotent, NormalizeIgnoresCase, Save |
| ShaderStore.PageShape | backend/main.py:277 | a page holds at most six records, taken in order from offset `(page-1)*6`, and exactly as many as remain up to six |
| ShaderStore.PagesCoverRecords | backend/main.py:277 | pages 1 to n in order are the first `6n` records, with none skipped or repeated |
| ShaderStore.ShortPageIsLast | backend/main.py:277 | every page after one that is not full is empty |
| ShaderStore.PageOf | backend/main.py:277 | `skip((page-1)*6).limit(6)` on the records in insertion order; see PageShape, PagesCoverRecords, ShortPageIsLast, Retrieve |
| ShaderStore.ShaderCollection.constructor | backend/main.py:243-266 | an empty collection satisfies the store invariant |
| ShaderStore.ShaderCollection.FindOne | backend/main.py:255 | none exactly when no record has that prompt and that code; otherwise a stored record with both |
| ShaderStore.ShaderCollection.Save | backend/main.py:243-266 | fails exactly when a record with the normalised prompt and the same code exists, naming its id and changing nothing; otherwise appends exactly one record with the normalised prompt and a fresh id; either way no two records share a (prompt, code) pair |
| ShaderStore.ShaderCollection.Retrieve | backend/main.py:269-283 | a page below 1 fails with the negative skip; otherwise the records of that page of six |
| Gallery.ResolvePageRule | frontend/src/app/gallery/page.tsx:11-15 | a missing or empty `page_number` redirects, and the redirect target shows page 1 with Previous disabled; any other value is shown as given |
| Gallery.ResolvePage | frontend/src/app/gallery/page.tsx:12-15 | a missing or empty `page_number` redirects to `/gallery?page_number=1`, and any other value is shown; see ResolvePageRule |
| Gallery.DigitRunIsLongest | frontend/src/app/gallery/page.tsx:79 | `parseInt` reads the longest run of digits |
| Gallery.ParseIntRoundTrip | frontend/src/app/gallery/page.tsx:79-90 | `parseInt` of a written integer gives the integer back |
| Gallery.ParseNegative | frontend/src/app/gallery/page.tsx:79 | a leading minus negates the parsed magnitude |
| Gallery.ParseInt | frontend/src/app/gallery/page.tsx:79 | JavaScript `parseInt`: leading whitespace, an optional sign, then the magnitude, or NaN; see ParseIntRoundTrip, ParseNegative |
| Gallery.ParseMagnitude | frontend/src/app/gallery/page.tsx:79 | the longest run of decimal digits, or of hex digits after "0x", or NaN when it is empty; see DigitRunIsLongest |
| Gallery.PreviousDisabledIff | frontend/src/app/gallery/page.tsx:82 | on a numbered page, Previous is disabled exactly when the page is at most 1 |
| Gallery.PreviousOnNaN | frontend/src/app/gallery/page.tsx:76-85 | a non-numeric page keeps Previous enabled, and Previous then leads to "NaN" |
| Gallery.PreviousDisabled | frontend/src/app/gallery/page.tsx:82 | `parseInt(page) <= 1`, false on NaN; see PreviousDisabledIff, PreviousOnNaN |
| Gallery.PreviousTarget | frontend/src/app/gallery/page.tsx:78-80 | `"/gallery?page_number=" + (parseInt(page) - 1)`, "NaN" on NaN; see PreviousOnNaN, PreviousThenNext |
| Gallery.PreviousThenNext | frontend/src/app/gallery/page.tsx:76-98 | Previous leads to page n-1, Next from there leads back to n, and Next leads to the look-ahead page of line 39 |
| Gallery.NextTarget | frontend/src/app/gallery/page.tsx:89-91 | `"/gallery?page_number=" + (parseInt(page) + 1)`; see PreviousThenNext |
| Gallery.LookAheadPage | frontend/src/app/gallery/page.tsx:39 | the page number `parseInt(page) + 1` of the look-ahead fetch; see PreviousThenNext |
| Gallery.NextDisabledOnLastPage | frontend/src/app/gallery/page.tsx:93-95 | against the store's pages of six, Next is disabled exactly when the next page is empty |
| Gallery.NextDisabled | frontend/src/app/gallery/page.tsx:93-95 | `results.length < 5 \|\| nextResults.length === 0`; see NextDisabledOnLastPage |
| Gallery.PreviewShape | frontend/src/app/gallery/page.tsx:124-129 | at most 28 characters; long prompts give the upper-cased first character, characters 1-24 and "..."; short prompts keep their length and change only the first character, which is upper-cased |
| Gallery.Preview | frontend/src/app/gallery/page.tsx:124-129 | the first character upper-cased, then characters 1-24 and "..." for prompts over 25 characters, otherwise the rest unchanged; see PreviewShape |
| Gallery.TitleCase | frontend/src/app/gallery/page.tsx:108-111 | same length; a word character that starts a word is upper-cased and every other character is unchanged |
| Gallery.TitleCaseIdempotent | frontend/src/app/gallery/page.tsx:108-111 | title-casing a title-cased description changes nothing |
| Text.LastIndexOf | frontend/src/app/components/speech.tsx:117 | JavaScript `lastIndexOf`: an occurrence with none to its right, or -1 when there is none |
| Text.Trim | frontend/src/app/components/speech.tsx:162 | no longer than the string, with no whitespace at either end |
| Text.TrimIsSlice | frontend/src/app/components/speech.tsx:162 | the trimmed string is the slice of the original that starts after its leading whitespace, and everything cut from either end is whitespace |
| Text.Lower | frontend/src/app/components/speech.tsx:114 | `toLowerCase` (and Python `lower` at backend/main.py:254) as an ASCII case map, character by character |
| Text.IntToString | frontend/src/app/gallery/page.tsx:79-90 | JavaScript `String` of an integer (and Python `str` at backend/main.py:83): a minus for negatives, then the decimal digits; see DigitsRoundTrip, ParseIntRoundTrip |
| Text.TrimStartAppend | src/app/components/speech.tsx:56 | trimming the front of `a + b`, where `b` does not start with whitespace, trims only `a` |
| Text.Drop | frontend/src/app/components/speech.tsx:161 | JavaScript `slice(start)` on strings and arrays (also src/app/components/speech.tsx:52): the first `start` elements followed by the result give the input back, and past the end the result is empty |
| Text.TrimStart | backend/main.py:201 | the part dropped from the front is all whitespace and the result does not start with whitespace |
| Text.TrimEnd | backend/main.py:201 | the part dropped from the back is all whitespace and the result does not end with whitespace |
| Text.In | backend/main.py:204 | Python's `in` on strings: true exactly when the pattern occurs somewhere in the text |
| Text.DigitsRoundTrip | frontend/src/app/gallery/page.tsx:79 | the decimal text of a number reads back as that number |

## Left out

- WebGL rendering, the page shells, `layout.tsx`/`head.tsx` and the backend scripts (`scrape.py`, `shapes.py`, `dump.py`, `gpt.py`) are not part of this model. They are scene setup, fetch wrappers and data loading around foreign libraries.
- The Gemini, Chroma, tiktoken and MongoDB clients are not modelled. `get_embedding`, `query_chroma`, `generate_shader` and `modify_shader` call those services. The model's answer is a parameter of the cleanup functions. The store is a sequence of records.
- `retrieve_shader` (backend/main.py:286-299) is not modelled. It is a lookup by id: a malformed id makes `ObjectId` raise (line 292), an unknown id returns `{"error": "Shader not found"}` (lines 294-295), and a found record is returned with its id converted to a string.
- The speech engine, React's render scheduling and the real 2000 ms clock are left out. Transcripts arrive as `Step` calls, and the timer is a token that `TimerFired` presents.
- Toast notifications, rotating loading messages and every `console.log`/`print` are left out, including the log at src/app/components/speech.tsx:50. The legacy parser's final log is kept as the `Logged` effect, because it is that parser's only output.
- Case mapping is ASCII-only, so length is preserved. JavaScript strings are sequences of characters rather than UTF-16 code units.
- `parseInt` returns an unbounded integer. Number precision and exponent formatting of very large values are not modelled.
- VoiceCommands.Dictaphone.TimerFired: the check `transcript.length === lastLength` (frontend/src/app/components/speech.tsx:169) compares two values from the same closure. It is always true, so it is not modelled.
- PromptBuilder.BuildPrompt: a metadata entry missing one of its four keys (a Python KeyError) is not modelled; entries are records. A missing entry is modelled as the `MissingMetadata` failure.
- PromptBuilder.NoCodeSection: it states that the examples heading directly follows the header. It does not state that the modify instruction occurs nowhere in the prompt, because the examples and the user prompt may contain that text.
- ShaderStore.ShaderCollection.Save: the UTC timestamp is a parameter, and MongoDB's ObjectId is a counter the store hands out. The raised `ValueError` is the `AlreadySaved` failure. Each save runs as one atomic step. In the source, `find_one` and `insert_one` are two calls in a plain `def` endpoint that FastAPI runs in a thread pool, and the collection has no unique index, so two identical saves at the same time can both insert; the store invariant that no two records share a (prompt, code) pair holds only when saves run one at a time.
- ShaderStore.ShaderCollection.Retrieve: natural order is taken to be insertion order. The conversion of `_id` to a string is not modelled. FastAPI's validation of `page` as an integer is outside the model.
- Gallery.NextDisabled: `results` and `nextResults` are filled by fetches, so their lengths are parameters. The lemma NextDisabledOnLastPage ties them to the store's pages.
- The requirements block of `build_prompt` is a plain string, not an f-string, so its doubled braces reach the model doubled; the constant keeps them doubled.
