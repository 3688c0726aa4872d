# chrome-helpers, modelled in Dafny

chrome-helpers is a browser extension with four tools:

- a résumé-versus-job **match scorer**: it reads the job page, asks the Gemini API for an analysis, and offers a follow-up chat coach;
- a **job description extractor**;
- a **job form filler**;
- a **YouTube Shorts remover**.

Most of the extension is DOM and `chrome.*` glue. This project models the logic underneath over plain data:

- text is `string`;
- DOM elements, form fields, sidebar entries and select options are records;
- a network body is a sequence of already-decoded chunks;
- `JSON.parse` and `JSON.stringify` are function parameters.

One module per core source file:

| module | source | form |
|---|---|---|
| `SseStream` | modules/job-match-scorer/matcher.js (stream reading) | functions for the line framing; methods with loops for the two read loops |
| `Matcher` | modules/job-match-scorer/matcher.js (prompt, URL, JSON cleaning, calls) | functions and lemmas; methods for the two calls |
| `Chat` | modules/job-match-scorer/chat.js | class `ChatPage` with the page state (`history`, bubbles, input, button) |
| `PageText` | modules/job-match-scorer/content.js | functions plus a selector-search loop |
| `DescriptionExtractor` | modules/job-description-extractor/content.js | the normalising chain as functions; the selector searches as loops |
| `FormFiller` | modules/job-form-filler/content.js | classification as functions; the fill pass as a method over `array<Field>` |
| `ModelSettings` | modules/job-match-scorer/settings.js | list functions plus class `SettingsPage` |
| `ShortsRemover` | modules/youtube-shorts-remover/content.js | class `ShortsPage` (entries, style and message counts, observer flag, counter) |
| `Popup` | popup.js | rendering functions plus class `PopupPage` (panel state and recorded effects) |

Shared modules:

- `JsString`: the JavaScript string built-ins the sources use. These are `trim`, `\s`, `indexOf`, `lastIndexOf`, `substring` with its argument swap, `split`, `replace` with `$` patterns, `includes`, `startsWith`, ASCII `toLowerCase`, and decimal formatting.
- `Whitespace`: run collapsing, with what each run becomes and the adjacency invariants.
- `Dom`: the "first selector in list order whose element is accepted" search.
- `Wrappers`: `Option`, `Result` and JavaScript truthiness.

## Model

| member | source | states |
|---|---|---|
| JsString.Trim | modules/job-match-scorer/chat.js:121 | the result is the piece of the input that starts after its leading white space, with only white space after it, and neither starts nor ends with white space |
| JsString.TrimEmpty | modules/job-match-scorer/chat.js:121 | trimming gives the empty string exactly when the input is all white space |
| JsString.TrimKeepsVisible | modules/job-match-scorer/content.js:40 | trimming removes white space only: the other characters all remain, in order |
| JsString.TrimClean | modules/job-match-scorer/settings.js:114-116 | trimming text that has no white space at either end changes nothing |
| JsString.IndexOf | modules/job-match-scorer/matcher.js:86 | -1 exactly when the character is absent; otherwise the position of its first occurrence |
| JsString.LastIndexOf | modules/job-match-scorer/matcher.js:87 | -1 exactly when the character is absent; otherwise the position of its last occurrence |
| JsString.Substring | modules/job-match-scorer/matcher.js:89 | `substring` clamps both bounds to the string, swaps them when reversed and returns exactly the characters between them; with bounds already in order and in range it is the plain slice |
| JsString.SubstringSwap | modules/job-match-scorer/matcher.js:89 | the order of the two bounds does not matter |
| JsString.Truncate | modules/job-match-scorer/matcher.js:56 | `substring(0, n)` is the prefix of length `min(n, length)`: the first n characters, or the whole text when it is no longer than n |
| JsString.Split | modules/job-match-scorer/matcher.js:27 | `split` yields at least one piece, and no piece holds the separator |
| JsString.JoinSplit | modules/job-match-scorer/matcher.js:27 | joining the pieces of a split with the separator gives back the text |
| JsString.SplitJoin | modules/job-match-scorer/matcher.js:27 | splitting the join of separator-free pieces gives back the pieces |
| JsString.SplitConcat | modules/job-match-scorer/matcher.js:27 | splitting `x + sep + y` is splitting x followed by splitting y |
| JsString.RemoveFenceLeavesNone | modules/job-match-scorer/matcher.js:85 | after removing every three-backtick fence none is left |
| JsString.DecimalRoundTrip | modules/job-match-scorer/matcher.js:13 | the decimal text of a status reads back as the status |
| Dom.FirstWhere | modules/job-match-scorer/content.js:25-31 | the index of the first selector, in list order, that is accepted; every earlier one is rejected; the length when none is accepted |
| Dom.FindFirst | modules/job-description-extractor/content.js:64-73 | the early-return selector loop ends at exactly the index FirstWhere describes |
| Whitespace.CollapseRuns | modules/job-match-scorer/content.js:40 | a global `replace` of a character class's runs by one space, the same for `\s+` here and for `[ \t]+` at modules/job-description-extractor/content.js:110; its contract says only that it never lengthens the text and what comes first; what each run becomes is stated by the rows below it |
| Whitespace.CollapseRunsPlain | modules/job-match-scorer/content.js:40 | text with no character of the class is unchanged |
| Whitespace.CollapseRunsSplit | modules/job-match-scorer/content.js:40 | text that is empty or ends outside the class collapses by itself: no run crosses its end |
| Whitespace.CollapseRunsRun | modules/job-match-scorer/content.js:40 | a non-empty run of class characters, with no class character after it, becomes exactly one space |
| Whitespace.CollapseRunsBetween | modules/job-description-extractor/content.js:110 | a maximal run between two pieces becomes exactly one space, and the pieces on either side collapse by themselves |
| Whitespace.CollapseRunsLast | modules/job-match-scorer/content.js:40 | a last character outside the class stays the last character |
| PageText.ContentElement | modules/job-match-scorer/content.js:25-34 | the chosen element is the body when no selector finds a substantial element; otherwise it is the element of a selector that does, and no earlier selector does |
| PageText.Normalize | modules/job-match-scorer/content.js:40 | collapsing and trimming never lengthen the text and bring in no character but the space; its other properties are the lemmas below |
| PageText.NormalizePlain | modules/job-match-scorer/content.js:40 | text without white space is unchanged |
| PageText.NormalizeBetween | modules/job-match-scorer/content.js:40 | a run of white space between two words becomes exactly one space: the result is the two normalised words with one space between them |
| PageText.NormalizeLineBreak | modules/job-match-scorer/content.js:40 | `"a\nb"` normalises to `"a b"`: a line break is not simply dropped |
| PageText.NormalizeCollapsed | modules/job-match-scorer/content.js:40 | after collapsing `\s+` to one space and trimming, the only white space is single spaces, never two in a row, and none at either end |
| PageText.NormalizeIdempotent | modules/job-match-scorer/content.js:40 | collapsing and trimming twice equals doing it once |
| PageText.NormalizeKeepsText | modules/job-match-scorer/content.js:40 | collapsing and trimming only replace or remove white space: every other character of the element text remains, in order |
| PageText.PageTextOf | modules/job-match-scorer/content.js:40-43 | the page text is the first 15000 characters of the normalised text, or all of it when that fits |
| PageText.PageTextKeepsText | modules/job-match-scorer/content.js:40-43 | the page text holds the non-white-space characters of the element text in order, all of them when the normalised text fits the limit, else a prefix of them |
| PageText.PageTextCollapsed | modules/job-match-scorer/content.js:40-43 | the cut text is still collapsed: single spaces only, no two together, no leading space |
| PageText.GetPageText | modules/job-match-scorer/content.js:21-44 | the text comes from the first selector whose element has more than 200 characters of text, else from the body, normalised and cut |
| PageText.HandleMessage | modules/job-match-scorer/content.js:47-58 | an `extract_job_text` request is answered with success, the page text, the URL and the title; any other request gets no answer |
| DescriptionExtractor.CrLfToLf | modules/job-description-extractor/content.js:108 | turning `\r\n` into `\n` never lengthens the text |
| DescriptionExtractor.CrLfToLfKeeps | modules/job-description-extractor/content.js:108 | the replacement removes carriage returns and nothing else: apart from `\r`, the text is unchanged, in order |
| DescriptionExtractor.CrLfToLfClean | modules/job-description-extractor/content.js:108 | text without a carriage return passes unchanged |
| DescriptionExtractor.CrLfToLfSplit | modules/job-description-extractor/content.js:108 | text that is empty or does not end in `\r` is rewritten by itself: no pair crosses its end |
| DescriptionExtractor.CrLfToLfPair | modules/job-description-extractor/content.js:108 | each `\r\n` pair becomes exactly one `\n`, and the text on either side is rewritten by itself |
| DescriptionExtractor.CrLfToLfLoneReturn | modules/job-description-extractor/content.js:108 | a `\r` that no `\n` follows is kept |
| DescriptionExtractor.CrToLf | modules/job-description-extractor/content.js:109 | every remaining `\r` becomes `\n`, position by position, so none is left |
| DescriptionExtractor.CrToLfKeeps | modules/job-description-extractor/content.js:109 | the replacement turns white space into white space and leaves every other character where it was |
| DescriptionExtractor.DropLeadingBlanks | modules/job-description-extractor/content.js:111 | removing blanks after each newline keeps the first character and never lengthens the text |
| DescriptionExtractor.DropLeadingBlanksKeeps | modules/job-description-extractor/content.js:111 | the replacement removes blanks and nothing else: apart from spaces and tabs, the text is unchanged, in order |
| DescriptionExtractor.LeadingAfterNewline | modules/job-description-extractor/content.js:111 | afterwards no newline is followed by a space or a tab |
| DescriptionExtractor.DropLeadingBlanksClean | modules/job-description-extractor/content.js:111 | text in which no blank follows a newline passes unchanged |
| DescriptionExtractor.DropLeadingBlanksSplit | modules/job-description-extractor/content.js:111 | text that is empty or ends in neither a newline nor a blank is rewritten by itself: no match crosses its end |
| DescriptionExtractor.DropLeadingBlanksRun | modules/job-description-extractor/content.js:111 | a newline and the whole run of blanks after it become that newline |
| DescriptionExtractor.DropLeadingBlanksKeepsBlanks | modules/job-description-extractor/content.js:111 | blanks that no newline comes before are kept |
| DescriptionExtractor.DropLeadingBlanksAfterNewline | modules/job-description-extractor/content.js:111 | in context: the blanks after a newline go and the text on either side is rewritten by itself |
| DescriptionExtractor.DropLeadingBlanksElsewhere | modules/job-description-extractor/content.js:111 | in context: blanks after any other character all stay |
| DescriptionExtractor.DropTrailingBlanks | modules/job-description-extractor/content.js:112 | removing blanks before each newline never lengthens the text, and a leading blank run before a newline becomes that newline |
| DescriptionExtractor.DropTrailingBlanksKeeps | modules/job-description-extractor/content.js:112 | the replacement removes blanks and nothing else: apart from spaces and tabs, the text is unchanged, in order |
| DescriptionExtractor.TrailingBeforeNewline | modules/job-description-extractor/content.js:112 | in tab-free text, afterwards no space comes right before a newline |
| DescriptionExtractor.DropTrailingBlanksClean | modules/job-description-extractor/content.js:112 | text in which no blank comes right before a newline passes unchanged |
| DescriptionExtractor.DropTrailingBlanksSplit | modules/job-description-extractor/content.js:112 | text that is empty or does not end in a blank is rewritten by itself: no match crosses its end |
| DescriptionExtractor.DropTrailingBlanksRun | modules/job-description-extractor/content.js:112 | a run of blanks and the newline after it become that newline |
| DescriptionExtractor.DropTrailingBlanksKeepsBlanks | modules/job-description-extractor/content.js:112 | blanks that no newline follows are kept |
| DescriptionExtractor.DropTrailingBlanksBeforeNewline | modules/job-description-extractor/content.js:112 | in context: the blanks before a newline go and the text on either side is rewritten by itself |
| DescriptionExtractor.DropTrailingBlanksElsewhere | modules/job-description-extractor/content.js:112 | in context: blanks before any other character, or at the end, all stay |
| DescriptionExtractor.CapNewlines | modules/job-description-extractor/content.js:113 | capping newline runs at two keeps the first two characters and never lengthens the text |
| DescriptionExtractor.CapNoTriple | modules/job-description-extractor/content.js:113 | after capping, no three newlines are consecutive |
| DescriptionExtractor.CapNewlinesKeeps | modules/job-description-extractor/content.js:113 | the cap removes newlines and nothing else: apart from `\n`, the text is unchanged, in order |
| DescriptionExtractor.CapNewlinesClean | modules/job-description-extractor/content.js:113 | text with no three newlines in a row passes unchanged |
| DescriptionExtractor.CapNewlinesSplit | modules/job-description-extractor/content.js:113 | text that is empty or does not end in a newline is capped by itself: no run crosses its end |
| DescriptionExtractor.CapNewlinesShortRun | modules/job-description-extractor/content.js:113 | a maximal run of one or two newlines is kept as it is |
| DescriptionExtractor.CapNewlinesLongRun | modules/job-description-extractor/content.js:113 | a maximal run of three or more newlines becomes exactly two |
| DescriptionExtractor.CapNewlinesBetween | modules/job-description-extractor/content.js:113 | in context: a maximal run becomes two newlines when it has three or more, else stays, and the text on either side is capped by itself |
| DescriptionExtractor.NormalizeDescription | modules/job-description-extractor/content.js:107-114 | the chain and the trim never lengthen the text; their shape and what they keep are NormalizedTidy and DescriptionKeepsText |
| DescriptionExtractor.NormalizedTidy | modules/job-description-extractor/content.js:107-114 | the normalised text has no `\r` and no tab, has no two spaces together and no space next to a newline, has no run of three newlines, and does not start or end with white space |
| DescriptionExtractor.DescriptionKeepsText | modules/job-description-extractor/content.js:107-114 | the replace chain and the trim only replace or remove white space: every other character of the element text remains, in order |
| DescriptionExtractor.CleanText | modules/job-description-extractor/content.js:104-117 | the clean text is the first 12000 characters of the normalised text, or all of it when that fits |
| DescriptionExtractor.CleanTextTidy | modules/job-description-extractor/content.js:107-117 | the cut text stays tidy (no `\r`, no tab, no two spaces together, no space next to a newline, no three newlines in a row) and does not start with white space; the cut may end on a space |
| DescriptionExtractor.CleanTextKeepsText | modules/job-description-extractor/content.js:104-117 | the clean text holds the non-white-space characters of the element text in order, all of them when the normalised text fits the limit, else a prefix of them |
| DescriptionExtractor.FindLinkedInDescription | modules/job-description-extractor/content.js:21-34 | the first LinkedIn candidate whose trimmed text exceeds 100 characters; none if there is no such candidate; a selector that throws aborts the search with its error |
| DescriptionExtractor.FindJobDescriptionElement | modules/job-description-extractor/content.js:63-75 | the first generic selector whose trimmed text exceeds 100 characters, skipping selectors that throw; else the body |
| DescriptionExtractor.ClassToken | modules/job-description-extractor/content.js:138 | the first space-separated token of the class name: a prefix with no space, followed by a space or by nothing |
| DescriptionExtractor.ExtractedFrom | modules/job-description-extractor/content.js:138 | the tag name, then `#id` when there is an id, then `.` and the first class token when there is a class |
| DescriptionExtractor.ExtractJobDescription | modules/job-description-extractor/content.js:123-141 | the LinkedIn choice, else the generic choice, cleaned; characterCount is the length of the returned text, at most 12000, and the text is tidy; a thrown LinkedIn selector makes the extraction fail |
| SseStream.ErrorMessage | modules/job-match-scorer/matcher.js:9-16 | a non-ok response reports the server message when it is a non-empty string, else `API Error: ` and the status |
| SseStream.ErrorMessageStatus | modules/job-match-scorer/matcher.js:13 | the text after `API Error: ` is the decimal status and reads back as it |
| SseStream.LineFragment | modules/job-match-scorer/matcher.js:29-37 | a line gives text exactly when it starts with `data: `, its trimmed payload is not `[DONE]`, and the parser yields truthy text; it is then that text |
| SseStream.LinesFragments | modules/job-match-scorer/matcher.js:27-38 | the lines of a chunk give at most one fragment each, and no fragment is empty |
| SseStream.StreamFragments | modules/job-match-scorer/matcher.js:22-39 | the fragments of a whole stream, none of them empty |
| SseStream.ConcatAppend | modules/job-match-scorer/matcher.js:35 | accumulating text distributes over concatenation of fragment lists |
| SseStream.ConcatEmpty | modules/job-match-scorer/matcher.js:82 | with no empty fragment, the accumulated text is empty exactly when there are no fragments |
| SseStream.LinesFragmentsAppend | modules/job-match-scorer/matcher.js:28-37 | the fragments of two line lists in a row are the fragments of each, in order |
| SseStream.StreamFragmentsAppend | modules/job-match-scorer/matcher.js:22-39 | the fragments of two chunk lists in a row are the fragments of each, in order |
| SseStream.SkippedLine | modules/job-match-scorer/matcher.js:29-36 | a line that gives nothing (not an event, `[DONE]`, or unparseable) can be removed without changing anything, so the stream carries on past it |
| SseStream.NonEventChunk | modules/job-match-scorer/matcher.js:29 | a single line that does not start with `data: ` contributes nothing |
| SseStream.TrailingNewline | modules/job-match-scorer/matcher.js:27 | a newline at the end of a chunk adds nothing |
| SseStream.NewlineJoin | modules/job-match-scorer/matcher.js:27 | a chunk made of two parts joined by a newline gives the fragments of each part, in order |
| SseStream.ChunkBoundaryAfterNewline | modules/job-match-scorer/matcher.js:26-27 | cutting the body right after a newline does not change the fragments |
| SseStream.OneLineChunk | modules/job-match-scorer/matcher.js:26-37 | a chunk with no newline is one line |
| SseStream.TwoChunks | modules/job-match-scorer/matcher.js:22-39 | two reads give the fragments of the first and then of the second |
| SseStream.SplitEventLost | modules/job-match-scorer/matcher.js:26-29 | a data line cut inside its `data: ` prefix across two reads gives nothing, although the whole line would give its text |
| SseStream.EventsRoundTrip | modules/job-match-scorer/matcher.js:28-37 | writing well-formed payloads as `data: ` lines and reading them back gives exactly the texts they denote, in order |
| SseStream.EventsChunkRoundTrip | modules/job-match-scorer/matcher.js:26-37 | the same holds for those lines joined by newlines into one chunk |
| SseStream.HandleStreamResponse | modules/job-match-scorer/matcher.js:8-41 | a non-ok response fails with the error message and reads nothing; a failed read fails with its error; otherwise the result is the in-order concatenation of the stream's fragments |
| SseStream.AccumulateChunk | modules/job-match-scorer/matcher.js:27-37 | the lines of one chunk add their fragments, in order, to the accumulated text |
| SseStream.YieldFragments | modules/job-match-scorer/matcher.js:112-142 | `streamChat` yields exactly the fragments the accumulating reader concatenates, ends with the read error if any, and yields nothing on a non-ok response |
| Matcher.TemplateParts | modules/job-match-scorer/matcher.js:4 | `{MODEL}` occurs in the URL template exactly between its head and its tail |
| Matcher.Endpoint | modules/job-match-scorer/matcher.js:48 | definition only: the first `{MODEL}` of the template replaced by the model id; EndpointOf and EndpointDollarPattern state what that gives |
| Matcher.EndpointOf | modules/job-match-scorer/matcher.js:48 | for a model id with no `$`, the endpoint is the template head, the id, then the template tail |
| Matcher.EndpointDollarPattern | modules/job-match-scorer/matcher.js:48 | `replace` honours `$` patterns: the id `$&` yields the template unchanged |
| Matcher.RequestUrl | modules/job-match-scorer/matcher.js:73 | definition only; RequestUrlParts states the URL's parts |
| Matcher.RequestUrlParts | modules/job-match-scorer/matcher.js:73 | the request URL is the endpoint followed by `?alt=sse&key=` and the key |
| Matcher.AnalysisPrompt | modules/job-match-scorer/matcher.js:50-59 | definition only; where the two cut inputs sit is PromptEmbedsResume and PromptEmbedsJob |
| Matcher.PromptEmbedsResume | modules/job-match-scorer/matcher.js:50-59 | right after the fixed head, the prompt holds the résumé cut to at most 30000 characters, a prefix of the résumé, and all of it when it fits |
| Matcher.PromptEmbedsJob | modules/job-match-scorer/matcher.js:50-59 | after the head, the cut résumé and the middle, the prompt holds the job description cut to at most 30000 characters, likewise a prefix |
| Matcher.PromptIgnoresTails | modules/job-match-scorer/matcher.js:56-59 | text beyond the first 30000 characters of either input does not change the prompt |
| Matcher.Unfenced | modules/job-match-scorer/matcher.js:85 | after removing the fences and trimming, no three-backtick fence remains |
| Matcher.JsonSpan | modules/job-match-scorer/matcher.js:86-90 | the brace span is a slice of the text |
| Matcher.CleanJson | modules/job-match-scorer/matcher.js:85-90 | the cleaned text is a slice of the unfenced text and contains no fence |
| Matcher.JsonSpanUnbraced | modules/job-match-scorer/matcher.js:88 | without both a `{` and a `}`, the text is kept whole |
| Matcher.JsonSpanObject | modules/job-match-scorer/matcher.js:86-89 | when the first `{` precedes the last `}`, the result is exactly the span from that `{` to that `}`, inclusive |
| Matcher.JsonSpanSwapped | modules/job-match-scorer/matcher.js:89 | when the last `}` comes before the first `{`, `substring` swaps its bounds and the result is the text strictly between them |
| Matcher.UnfencedFenced | modules/job-match-scorer/matcher.js:85 | a reply wrapped in a json fence cleans to the same text as its body |
| Matcher.CleanJsonFenced | modules/job-match-scorer/matcher.js:85-90 | the whole cleaning chain gives the same result for a fenced reply and its body |
| Matcher.AnalysisOutcome | modules/job-match-scorer/matcher.js:81-91 | the stream error, else "No content generated." when no fragment came, else the parse of the cleaned concatenated text |
| Matcher.AnalyzeJobMatch | modules/job-match-scorer/matcher.js:44-97 | a missing key fails with "API Key is missing." before the résumé is looked at; a missing résumé fails with "Resume content is missing."; both send nothing; otherwise one request is sent and its outcome returned |
| Matcher.ChatRequest | modules/job-match-scorer/matcher.js:101-110 | the chat request carries the history as its contents |
| Matcher.StreamChat | modules/job-match-scorer/matcher.js:101-143 | the request sent for the history, then the fragments and the error of the response |
| Chat.OrEmpty | modules/job-match-scorer/chat.js:61 | `x \|\| ''`: the value when it is truthy, else the empty string |
| Chat.ChatModel | modules/job-match-scorer/chat.js:44 | the stored model when it is truthy, else `gemini-1.5-pro`, and never empty |
| Chat.InitialPrompt | modules/job-match-scorer/chat.js:55-64 | definition only: the analysis prompt with the chat's indent and missing inputs read as empty; InitialPromptMissing and InitialPromptEmbedsResume state it |
| Chat.InitialPromptMissing | modules/job-match-scorer/chat.js:61-64 | a missing résumé or job description is treated as empty text |
| Chat.InitialPromptEmbedsResume | modules/job-match-scorer/chat.js:55-61 | the bootstrap prompt holds at most the first 30000 characters of the résumé, right after its head |
| Chat.Bootstrap | modules/job-match-scorer/chat.js:80-83 | exactly two turns: the user's prompt, then the model's JSON of the initial analysis |
| Chat.ReplyText | modules/job-match-scorer/chat.js:133-167 | the bubble shows the concatenated chunks, or "Thinking..." when none came, with `[Error: …]` appended after a failure |
| Chat.ChatPage.constructor | modules/job-match-scorer/chat.js:20-24 | the page starts with an empty history, no key, no model, empty input and an enabled button |
| Chat.ChatPage.Init | modules/job-match-scorer/chat.js:27-87 | without both a key and a chat context the history stays as it was and a missing-context note is shown; otherwise the two bootstrap turns are appended, the key and model are set, and a welcome is shown; a warning precedes either when the markdown renderer is missing |
| Chat.ChatPage.Start | modules/job-match-scorer/chat.js:43-83 | sets the key and the model and appends the bootstrap turns, touching nothing else |
| Chat.ChatPage.BeginSend | modules/job-match-scorer/chat.js:120-135 | input empty after trimming changes nothing; otherwise the trimmed text is appended as a user turn, the input is cleared, the button is disabled, and a Thinking bubble is added |
| Chat.ChatPage.StreamInto | modules/job-match-scorer/chat.js:143-161 | the returned text is the in-order concatenation of the chunks, and the slot bubble shows it |
| Chat.ChatPage.FinishSend | modules/job-match-scorer/chat.js:137-170 | success appends exactly one model turn holding the concatenated chunks; failure appends none and shows the error; the button is re-enabled on every path |
| Chat.ChatPage.SendMessage | modules/job-match-scorer/chat.js:120-171 | empty input is ignored; otherwise the request carries the history with the new user turn; the history grows by the model turn on success and by the user turn alone on failure; two bubbles are added, the user's text and the reply built from the streamed fragments, with the error appended when the call failed or the read broke off |
| Chat.Open | modules/job-match-scorer/chat.js:27-87 | a fresh page after init: the bootstrap turns when it can start, else an empty history |
| Chat.SendTwice | modules/job-match-scorer/chat.js:102-107 | the Enter key does not check the disabled button, so a second message typed while the first is pending is sent as well, and the history holds both user turns one after the other |
| FormFiller.NormalizeSearch | modules/job-form-filler/content.js:106 | length-preserving; each character is lower-cased, or becomes a space when it is not in `[a-z0-9\s]` |
| FormFiller.SearchString | modules/job-form-filler/content.js:93-106 | definition only: the field's attribute texts joined by a space, then normalised; its alphabet is SearchStringAlphabet |
| FormFiller.SearchStringAlphabet | modules/job-form-filler/content.js:93-106 | the search string holds only lower-case letters, digits and white space |
| FormFiller.FirstKey | modules/job-form-filler/content.js:116-128 | the first key, in declaration order, with an accepted keyword; none exactly when no key has one |
| FormFiller.Classify | modules/job-form-filler/content.js:91-129 | an `email` input is Email and a `tel` input is Phone whatever the attributes say; otherwise the first key in declaration order whose keyword occurs, with the refinement applied to the `name` keyword |
| FormFiller.ClassifyAsWritten | modules/job-form-filler/content.js:91-129 | the same with the refinement tested on the key, as the source writes it |
| FormFiller.RefinementNeverApplies | modules/job-form-filler/content.js:122 | no key is called `name`, so the refinement never rejects a keyword |
| FormFiller.RefinementMissesPartName | modules/job-form-filler/content.js:122 | a search string mentioning `first` or `last` and containing `name`, with no first-name or last-name keyword, is still taken for a full name |
| FormFiller.RefinementSkipsPartName | modules/job-form-filler/content.js:122 | with the refinement on the keyword, such a string is not taken for a full name through the bare `name` keyword |
| FormFiller.FullNameNeedsFullKeyword | modules/job-form-filler/content.js:23 | a field mentioning first or last classified as a full name contains a full-name keyword other than `name` |
| FormFiller.HyphenatedEmailNeverFound | modules/job-form-filler/content.js:26 | the keyword `e-mail` can never occur in a search string, whose hyphens became spaces |
| FormFiller.SpacedEmailFound | modules/job-form-filler/content.js:26 | the corrected keyword `e mail` is what `E-mail` normalises to, and it is found |
| FormFiller.EmailKeywordsAgree | modules/job-form-filler/content.js:26 | with either e-mail list, the e-mail key is found exactly when the search string contains `mail` |
| FormFiller.EmailSpellingHarmless | modules/job-form-filler/content.js:26 | the table as written and the corrected table pick the same first key for every search string, under either refinement |
| FormFiller.SelectChoice | modules/job-form-filler/content.js:188-213 | the first option whose lower-cased value or text equals the lower-cased value, or whose text contains it, skipping a placeholder at index 0; failing that, for a value starting with `+`, the first option whose text contains the raw value |
| FormFiller.FillSelect | modules/job-form-filler/content.js:183-221 | the option loop reports a match exactly when SelectChoice finds one, and keeps the old index otherwise |
| FormFiller.FillOutcome | modules/job-form-filler/content.js:157-180 | a non-select field takes the value and reports success; a select reports whether an option matched and selects it |
| FormFiller.ProfileValue | modules/job-form-filler/content.js:70 | the profile value of a key when it is present and non-empty |
| FormFiller.IsFieldFilled | modules/job-form-filler/content.js:82-88 | definition only: a checkbox or radio by its checked flag, a select by a selected index above 0 with a non-empty value, any other field by a non-blank value |
| FormFiller.Step | modules/job-form-filler/content.js:66-74 | a filled field is skipped and not counted; a counted fill needs an unfilled field, a key from the classifier as written and a truthy profile value; a step that is not counted leaves the field as it was; an unfilled, identified and valued field has exactly the outcome `fillField` gives it for that value |
| FormFiller.StepSkipsFilled | modules/job-form-filler/content.js:67 | an already-filled field is left as it is and not counted |
| FormFiller.StepChangesOnlyState | modules/job-form-filler/content.js:66-74 | a fill changes only a field's value or selected index, and nothing at all when it fails |
| FormFiller.StepFillsText | modules/job-form-filler/content.js:69-72 | an empty text field whose type `identifyFieldType` (as written) finds, and that has a truthy profile value, gets that value |
| FormFiller.StepFillsSelect | modules/job-form-filler/content.js:69-72 | an empty drop-down whose type `identifyFieldType` (as written) finds, and that has a truthy profile value, is counted exactly when `fillSelect` finds an option for the value, and then selects that option; otherwise it keeps its selection |
| FormFiller.StepLeavesTextFilled | modules/job-form-filler/content.js:82-88 | the filled text field then counts as filled |
| FormFiller.ClassifyIgnoresState | modules/job-form-filler/content.js:91-129 | classification, as written and corrected, does not depend on the field's value or selection |
| FormFiller.StepIdempotent | modules/job-form-filler/content.js:60-79 | filling a field twice is filling it once |
| FormFiller.CountFilled | modules/job-form-filler/content.js:64-74 | the number of successful fills, with the classifier as written, is at most the number of fields |
| FormFiller.FillField | modules/job-form-filler/content.js:157-180 | the array changes only at the field, to its fill outcome |
| FormFiller.StepField | modules/job-form-filler/content.js:66-74 | the array changes only at the field, to its step with the classifier as written |
| FormFiller.FillForms | modules/job-form-filler/content.js:60-79 | with no profile nothing changes and the count is 0; otherwise each field becomes its step, with the classifier as written, and the count is the number of successful fills |
| FormFiller.HandleMessage | modules/job-form-filler/content.js:254-259 | `trigger_fill` runs the pass and answers `done`, leaving the fields as they were when there is no profile; any other message changes nothing |
| FormFiller.LoadProfile | modules/job-form-filler/content.js:49-57 | a profile is used exactly when the filler is not disabled (enabled is not exactly false) and one is stored |
| ModelSettings.Kept | modules/job-match-scorer/settings.js:84-88 | a model is kept exactly when it supports `generateContent` and its name contains `gemini` |
| ModelSettings.OfferedModels | modules/job-match-scorer/settings.js:84-88 | a missing model list is empty; otherwise the kept models |
| ModelSettings.SortDescending | modules/job-match-scorer/settings.js:91 | the sort is a permutation of its input |
| ModelSettings.SortDescendingSorted | modules/job-match-scorer/settings.js:91 | for a strict weak order on names, the result is descending |
| ModelSettings.Insert | modules/job-match-scorer/settings.js:91 | the result holds the sorted models and the new one, each as often as before; where the new one lands is InsertPlace |
| ModelSettings.InsertPlace | modules/job-match-scorer/settings.js:91 | each insertion puts the model right after the models whose names it collates before, so in front of any whose names collate equal: ties keep their input order |
| ModelSettings.FetchedModels | modules/job-match-scorer/settings.js:84-91 | the offered list is descending and a permutation of the kept models |
| ModelSettings.OptionFor | modules/job-match-scorer/settings.js:50-53 | the label is the display name when it is truthy, else the value; a name without `models/` is its own value |
| ModelSettings.OptionValueOfName | modules/job-match-scorer/settings.js:50 | the option value of `models/<id>` is the id |
| ModelSettings.Options | modules/job-match-scorer/settings.js:47-55 | one option per model, in order |
| ModelSettings.ModelExists | modules/job-match-scorer/settings.js:38-40 | definition only: some option's value equals the given value |
| ModelSettings.FilledSelection | modules/job-match-scorer/settings.js:57-60 | an empty selection falls back to the first option's value, and a non-empty selection names an option |
| ModelSettings.OfferedSelectsFirst | modules/job-match-scorer/settings.js:57-60 | after listing offered models, the first one is selected |
| ModelSettings.WithSaved | modules/job-match-scorer/settings.js:25-34 | a saved model is always among the options afterwards; exactly one option is appended when it was missing; the existing options stay in front |
| ModelSettings.WithSavedIdempotent | modules/job-match-scorer/settings.js:25-34 | restoring the saved model twice adds nothing more |
| ModelSettings.Restored | modules/job-match-scorer/settings.js:13-18 | a truthy stored value replaces the field, else the field stays |
| ModelSettings.SaveReloadSave | modules/job-match-scorer/settings.js:114-116 | saving, reloading and saving again stores the same trimmed text |
| ModelSettings.FetchError | modules/job-match-scorer/settings.js:76-79 | a failed fetch reports the server's message when it is truthy, else the generic failure |
| ModelSettings.SettingsPage.constructor | modules/job-match-scorer/settings.js:5-7 | empty fields, no options |
| ModelSettings.SettingsPage.PopulateModelSelect | modules/job-match-scorer/settings.js:43-61 | the options are those of the models, and the selection falls back to the first |
| ModelSettings.OptionsLoop | modules/job-match-scorer/settings.js:47-54 | the loop appends exactly one option per model, in order |
| ModelSettings.SettingsPage.Load | modules/job-match-scorer/settings.js:12-35 | the stored key and résumé replace the fields when truthy; cached models fill the options; a saved model is added when missing and selected |
| ModelSettings.SettingsPage.FetchModels | modules/job-match-scorer/settings.js:64-107 | an empty trimmed key alerts and sends nothing; otherwise the URL carries the trimmed key; a failure is reported; a success lists the offered models, sorted, and caches them |
| ModelSettings.SettingsPage.Save | modules/job-match-scorer/settings.js:110-129 | the key and résumé are stored trimmed and the model as selected |
| ShortsRemover.SidebarShorts | modules/youtube-shorts-remover/content.js:196-217 | definition only: an href starting with `/shorts`, a title or an aria label containing `shorts` in lower case, or a trimmed lower-case text equal to `shorts` |
| ShortsRemover.CardShorts | modules/youtube-shorts-remover/content.js:243-246 | definition only: an href containing `/shorts/` |
| ShortsRemover.HideOne | modules/youtube-shorts-remover/content.js:192-206 | definition only: a visible entry the pass targets gets `display: none`, any other is left as it is; HideAll states the pass |
| ShortsRemover.HideAll | modules/youtube-shorts-remover/content.js:184-256 | a visible entry is hidden exactly when the pass targets it; hidden entries and untargeted ones are left as they were; only `display` ever changes |
| ShortsRemover.NewlyHiddenIsGrowth | modules/youtube-shorts-remover/content.js:224-227 | the hidden count grows by exactly the number of entries the pass newly hides |
| ShortsRemover.HideAllIdempotent | modules/youtube-shorts-remover/content.js:192-194 | a second pass changes nothing and hides nothing new |
| ShortsRemover.Unhide | modules/youtube-shorts-remover/content.js:325-330 | every entry with `display: none` gets its display cleared, and the others are untouched |
| ShortsRemover.UnhideUndoesHide | modules/youtube-shorts-remover/content.js:325-330 | un-hiding after a pass restores every entry that was plainly shown or hidden before it |
| ShortsRemover.HidePass | modules/youtube-shorts-remover/content.js:184-228 | the loop computes the pass and counts the entries it newly hides |
| ShortsRemover.UnhidePass | modules/youtube-shorts-remover/content.js:325-330 | the loop computes the un-hiding |
| ShortsRemover.InitialShouldHide | modules/youtube-shorts-remover/content.js:374-386 | hiding is on unless the stored flag is exactly false, and always on after a storage error |
| ShortsRemover.ShortsPage.constructor | modules/youtube-shorts-remover/content.js:11-15 | a page with no style, no message, no observer and a zero counter |
| ShortsRemover.ShortsPage.BlockShortsPage | modules/youtube-shorts-remover/content.js:154-182 | the blocked message is added only on a `/shorts/` path when none exists, so there is at most one |
| ShortsRemover.ShortsPage.RemoveSidebarItems | modules/youtube-shorts-remover/content.js:184-228 | the sidebar pass, with the counter grown by the newly hidden |
| ShortsRemover.ShortsPage.RemoveVideoCards | modules/youtube-shorts-remover/content.js:230-256 | the card pass, with the counter grown by the newly hidden |
| ShortsRemover.ShortsPage.Refresh | modules/youtube-shorts-remover/content.js:345-354 | one pass of all three removals |
| ShortsRemover.ShortsPage.Enable | modules/youtube-shorts-remover/content.js:258-307 | with a body: one style, the observer on, both passes, and the message on a Shorts page; without a body nothing changes |
| ShortsRemover.ShortsPage.Disable | modules/youtube-shorts-remover/content.js:309-342 | every hidden entry shown again; style, message and observer gone; the counter reset to 0 |
| ShortsRemover.ShortsPage.UpdateState | modules/youtube-shorts-remover/content.js:360-366 | enabling gives exactly the new state `Enable` gives (style, observer, message, both passes and counter, or nothing without a body); disabling exactly that of `Disable`; the location fields never change |
| ShortsRemover.ShortsPage.Init | modules/youtube-shorts-remover/content.js:369-386 | the new state is that of enabling when the initial rule says hide and that of disabling otherwise, field by field |
| ShortsRemover.ShortsPage.HandleMessage | modules/youtube-shorts-remover/content.js:389-400 | `updateShortsVisibility` answers success and leaves the page exactly as enabling or disabling does; any other message changes nothing and is not answered |
| ShortsRemover.ShortsPage.ContentChanged | modules/youtube-shorts-remover/content.js:345-358 | while observing, the new content goes through both passes, the blocked-page check and the counter; otherwise it is shown as it came; the blocking state and location never change |
| ShortsRemover.ShortsPage.NavigateAsWritten | modules/youtube-shorts-remover/content.js:402-413 | as written, a URL change re-runs the removals, the blocked-page check and the counter whether or not blocking is on; the same URL changes nothing |
| ShortsRemover.ShortsPage.Navigate | modules/youtube-shorts-remover/content.js:402-413 | corrected: a URL change re-runs the removals, the blocked-page check and the counter only while blocking is on; otherwise, or on the same URL, nothing but the location changes |
| ShortsRemover.DisableThenNavigateAsWritten | modules/youtube-shorts-remover/content.js:309-342 | after disabling, a navigation hides a Shorts entry again and adds the blocked message |
| ShortsRemover.DisableThenNavigate | modules/youtube-shorts-remover/content.js:402-413 | with the correction, after disabling the entry stays visible and no message appears |
| Popup.ScoreColor | popup.js:172 | green above 80, orange above 50 up to 80, red at 50 or below |
| Popup.ScoreColorMonotone | popup.js:172 | a higher score never gets a worse band |
| Popup.ItemsHtml | popup.js:178 | one `<li>` per item, in order |
| Popup.Section | popup.js:177-182 | a section appears exactly when its list is present and non-empty |
| Popup.FeedbackHtml | popup.js:176-183 | the feedback is empty exactly when both lists are missing or empty |
| Popup.ItemsRoundTrip | popup.js:178 | the item list reads back from its HTML, in order |
| Popup.SectionRoundTrip | popup.js:177-182 | a section reads back as its items |
| Popup.FeedbackRoundTrip | popup.js:176-183 | the feedback reads back as the Missing Skills items followed by the Tips items: each section appears for its non-empty list, Missing Skills first |
| Popup.FromTab | popup.js:106-129 | definition only: no tab, a thrown error, or a reply without text fail; otherwise the reply; ReadPage and ExtractedIff state it |
| Popup.Extract | popup.js:98-129 | definition only: the configuration guard before FromTab; UnconfiguredStopsFirst and ExtractedIff state it |
| Popup.FinalDelivery | popup.js:111-125 | the first reply when it came; otherwise the injection error, or the reply to the second message |
| Popup.ReadPage | popup.js:106-129 | the extraction step after the guard: no tab, no reply text, or a thrown error fail; otherwise the page data |
| Popup.ExtractedIff | popup.js:98-129 | extraction succeeds exactly when configured, with a tab, and a reply carrying non-empty text, and then yields that reply |
| Popup.UnconfiguredStopsFirst | popup.js:98-103 | analysis stops before any extraction exactly when the key or the résumé is not configured |
| Popup.FirstReplyWins | popup.js:111-114 | once the first message is answered, injection and retry play no part |
| Popup.ListenerReplyExtracted | popup.js:127-128 | the content script's reply is extracted exactly when its text is non-empty |
| Popup.Render | popup.js:166-183 | definition only; RenderAnalysis states what is shown |
| Popup.RenderAnalysis | popup.js:166-183 | the score, its colour on the text and the ring, the summary and the feedback |
| Popup.PopupPage.constructor | popup.js:22-24 | the initial panel, with nothing configured, extracted or recorded |
| Popup.PopupPage.LoadToggle | popup.js:29-34 | the toggle starts checked unless the stored flag is exactly false, the same rule the content script uses |
| Popup.PopupPage.ToggleChanged | popup.js:37-51 | the toggle takes the state the user set; that state is stored; the update message goes to the tab only when its URL contains `youtube.com` |
| Popup.PopupPage.FillFormClicked | popup.js:56-66 | a `trigger_fill` message to the active tab, if there is one |
| Popup.PopupPage.OpenPage | popup.js:70-85 | opens the extension page in a new tab |
| Popup.PopupPage.AnalyzeClicked | popup.js:89-142 | unconfigured: alert and open the settings; failed: alert with the error; extracted: show the preview with the page text; the button is restored on every path |
| Popup.PopupPage.ShowExtraction | popup.js:126-141 | shows the outcome of an extraction step |
| Popup.PopupPage.ConfirmClicked | popup.js:147-206 | without the settings kept by an earlier Analyze click nothing happens; otherwise one analysis call with the configured key, résumé, edited preview and model, whose key and résumé are always truthy because `currentConfig` only ever holds settings that passed the Analyze guard (the invariant `Valid`); success renders the result and saves the chat context (résumé, edited text, analysis); failure alerts; the buttons are restored on both |
| Popup.PopupPage.CancelClicked | popup.js:208-211 | hides the preview and the result |

## Left out

- Network I/O: `fetch`, `reader.read()` and `TextDecoder`. A response is a record: ok flag, status, optional server message, the decoded chunks in order, and an optional read error after them. The request is returned, not sent.
- `JSON.parse` and `JSON.stringify` are parameters. `JSON.parse` becomes `payload -> Option<text>` for stream events and `text -> Result<Analysis>` for the cleaned reply. The `candidates[0].content.parts[0].text` path is part of the payload parser.
- `chrome.storage`, `chrome.tabs`, `chrome.runtime` and `chrome.scripting`, and the message listeners. Stored values and replies are parameters. The popup records the messages, stores and tabs it would issue as effects.
- Timers and scheduling are not modelled. This covers `setTimeout`, `debounce`, the popup's 100 ms retry wait, the shorts remover's 500 ms and 1500 ms re-runs, the LinkedIn "See more" click with its 400 ms wait, and the form filler's highlight timeout. A `MutationObserver` callback is one method call (`ContentChanged`, `Navigate`).
- Rendering: `marked` and `innerHTML`, the `getStyles` CSS text, the score-ring styling beyond its colour, the chat's model badge and sidebar, and event dispatch.
- DOM semantics: `innerText`, the extractor's clone with its noise-tag removal and its `li`/block newline insertion. An element carries the text these produce, as a field.
- `findLabelForInput` is not modelled: a field carries its label text.
- `querySelector` syntax errors are not modelled: a selector that throws is a field of the query record.
- `select.value` defaulting is modelled only as "an empty selection falls back to the first option".
- `localeCompare` is locale-dependent, so it is replaced by an abstract strict weak order on names.
- ModelSettings.SortDescending: stability is stated for each insertion (ModelSettings.InsertPlace), not as one lemma about the whole sort.
- DescriptionExtractor.CrLfToLf: its own contract gives only the length bound; what each pair becomes is stated by CrLfToLfPair and CrLfToLfLoneReturn.
- DescriptionExtractor.DropLeadingBlanks, DescriptionExtractor.DropTrailingBlanks: their own contracts give only bounds and the first character; what each match becomes is stated by the AfterNewline/Elsewhere and BeforeNewline/Elsewhere lemmas.
- DescriptionExtractor.CapNewlines: its own contract gives only bounds and the first two characters; what each run becomes is stated by CapNewlinesBetween.
- Character semantics: `toLowerCase` is modelled on ASCII only, and lengths are counted in characters, not UTF-16 code units.
- The fill pass's colour highlight, its dispatched `input`/`change` events and its `try`/`catch` are not modelled. A fill of a text field always succeeds.
- `observeMutations` in modules/job-form-filler/content.js is defined but never called, so it is not modelled.
- modules/job-form-filler/settings.js is not part of this model; it only copies form entries to and from storage.
- Chat: the clear-history and update-context buttons, the context tabs, and the markdown rendering of replies are not modelled. The bubbles only record their text.
- Chat: the bootstrap prompt in chat.js is indented with 8 spaces where matcher.js uses 4, although the source comments say the two must match. The model keeps both indents as written (`ChatIndent`, `MatcherIndent`) and states no lemma about the difference.
- Matcher: a data line split across two reads is lost, as written (`SplitEventLost`); the model does not repair it.
- Matcher: an undefined job description would throw a TypeError in `substring`. The model types it as a string.
- Matcher.JsonSpanObject: stated for text in which no `{` comes before the object and no `}` after it. That is the case where the first `{` precedes the last `}`. The swapped order is `JsonSpanSwapped`.
- Settings: the fetch button's label and disabled state and a failing `response.json()` are not modelled.
- Shorts remover: the observer and style nodes are counted rather than kept as DOM nodes.
- Shorts remover: the `lastCheck` clock value in `stats` (`Date.now()`, set at modules/youtube-shorts-remover/content.js:14, 336 and 350) is not modelled; only `elementsHidden` is.
- Popup: the analysis call's outcome is a parameter of `ConfirmClicked`; `Matcher.AnalyzeJobMatch` models the call itself.
- Popup: the extraction deliveries and the script injection are parameters. With them, only the path of `chrome.runtime.getURL` is modelled, and storage failures, including a failing `storage.set`, are not. The score (`matchScore`) is an integer, not an arbitrary JSON value.
- Popup.FeedbackRoundTrip: stated only for items containing no `<`, since an item holding markup cannot be told apart from the list around it.
- Popup: the chat-coach button's click handler is registered inside the confirm button's `if` block (popup.js:214-219). The model treats opening the chat as one more `OpenPage`.

## Findings

| source | as written | input that shows it | evidently intended | confidence | as-written member | corrected member |
|---|---|---|---|---|---|---|
| modules/job-form-filler/content.js:122 | the refinement against first/last names tests `key === 'name'`, but no mapping key is `name` (the key is `fullName`), so it never applies | a field labelled `First-time name`, whose search string `first time name` mentions `first` and contains `name` but no first-name or last-name keyword | test the keyword: `keyword === 'name'`, so that the bare `name` does not classify a field mentioning first or last | not executed | FormFiller.ClassifyAsWritten, FormFiller.RefinementNeverApplies, FormFiller.RefinementMissesPartName | FormFiller.Classify, FormFiller.RefinementSkipsPartName, FormFiller.FullNameNeedsFullKeyword |
| modules/job-form-filler/content.js:26 | the email keyword `e-mail` is searched in a string where line 106 has turned every `-` into a space, so it is dead; it has no visible effect, because every string containing `e mail` also contains the keyword `mail` | a field labelled `E-mail`, whose search string `e mail` the keyword `e-mail` misses (the keyword `mail` finds it) | the keyword written the way normalisation leaves it, `e mail` | not executed | FormFiller.HyphenatedEmailNeverFound | FormFiller.SpacedEmailFound, FormFiller.EmailKeywordsAgree, FormFiller.EmailSpellingHarmless |
| modules/youtube-shorts-remover/content.js:402-413 | the URL-change observer is created once in `init` and never disconnected; after blocking was switched off, a navigation still runs the removal pass and the blocked-page message | disable on a page with a Shorts sidebar entry, then navigate to a `/shorts/` URL | re-run the removals on navigation only while blocking is enabled | not executed | ShortsRemover.ShortsPage.NavigateAsWritten, ShortsRemover.DisableThenNavigateAsWritten | ShortsRemover.ShortsPage.Navigate, ShortsRemover.DisableThenNavigate |

The fill pass (`FormFiller.Step`, `FormFiller.StepField`, `FormFiller.FillForms`) classifies with `FormFiller.ClassifyAsWritten`, so its contracts describe what the code does, refinement and e-mail list included. The corrected `FormFiller.Classify` is a separate function with its own lemmas. The shorts page offers both URL observers: `NavigateAsWritten` as the code runs, `Navigate` as corrected.
