/**
 * The job-match client: the endpoint and request URL, the analysis prompt, the cleaning
 * of the model's reply into a JSON text, the one-shot `analyzeJobMatch` and the request
 * side of the multi-turn `streamChat`.
 */
module Matcher {
  import opened Wrappers
  import opened JsString
  import opened SseStream

  /** The API host and the models path in front of the placeholder. */
  const ApiHost: string := "https://generativelanguage.googleapis.com"
  const ModelsPath: string := "/v1beta/models/"
  const UrlHead: string := ApiHost + ModelsPath
  const ModelPlaceholder: string := "{MODEL}"
  const UrlTail: string := ":streamGenerateContent"
  /** The endpoint template: the model path with a `{MODEL}` placeholder. */
  const BaseUrlTemplate: string := UrlHead + ModelPlaceholder + UrlTail
  const DefaultModel: string := "gemini-1.5-pro"
  /** How many characters of the resume and of the job description a prompt embeds. */
  const PromptLimit: nat := 30000

  /** The indentation of the prompt lines in the analysis client and in the chat page. */
  const MatcherIndent: string := "    "
  const ChatIndent: string := "        "

  datatype Role = User | Model

  /** One entry of a request's `contents`: the role, when there is one, and the text of its
      single part. */
  datatype Turn = Turn(role: Option<Role>, text: string)

  /** A POST to the streaming endpoint: its URL and the `contents` of its JSON body. */
  datatype Request = Request(url: string, contents: seq<Turn>)

  /** The analysis object the model is asked to produce, as `JSON.parse` gives it back;
      absent fields are `None`. */
  datatype Analysis = Analysis(
    matchScore: int,
    keyMatchingSkills: Option<seq<string>>,
    missingCriticalSkills: Option<seq<string>>,
    improvementTips: Option<seq<string>>,
    summary: Option<string>)

  /** `JSON.parse` of the cleaned reply: the analysis, or the message of its `SyntaxError`. */
  type AnalysisParser = string -> Result<Analysis>

  /** How a template literal or `String(value)` renders a string that may be `null`. */
  function TemplateText(s: Option<string>): string {
    if s.Some? then s.value else "null"
  }

  // ---------------------------------------------------------------------------
  // endpoint and URL

  /** `BASE_URL_TEMPLATE.replace("{MODEL}", modelId)` */
  function Endpoint(modelId: string): string {
    ReplaceFirst(BaseUrlTemplate, ModelPlaceholder, modelId)
  }

  /** `${endpoint}?alt=sse&key=${apiKey}` */
  function RequestUrl(endpoint: string, apiKey: string): string {
    endpoint + "?alt=sse&key=" + apiKey
  }

  /** The placeholder occurs in the template right after the fixed head, and nowhere before. */
  lemma TemplateParts()
    ensures IndexOfSeq(BaseUrlTemplate, ModelPlaceholder) == |UrlHead|
  {
    assert '{' !in ApiHost && '{' !in ModelsPath;
    IndexOfSeqAt(UrlHead, ModelPlaceholder, UrlTail);
  }

  /** A model id without `$` lands verbatim between the fixed parts of the endpoint. */
  lemma EndpointOf(modelId: string)
    requires '$' !in modelId
    ensures Endpoint(modelId) == UrlHead + modelId + UrlTail
  {
    TemplateParts();
    SubstitutionPlain(modelId, ModelPlaceholder, UrlHead, UrlTail);
    assert BaseUrlTemplate[..|UrlHead|] == UrlHead;
    assert BaseUrlTemplate[|UrlHead| + |ModelPlaceholder|..] == UrlTail;
  }

  /** A `$` in the model id is read as a replacement pattern: `$&` puts the placeholder back. */
  lemma EndpointDollarPattern()
    ensures Endpoint("$&") == BaseUrlTemplate
  {
    TemplateParts();
    assert Substitution("$&", ModelPlaceholder, UrlHead, UrlTail) == ModelPlaceholder + Substitution("", ModelPlaceholder, UrlHead, UrlTail);
    assert BaseUrlTemplate[..|UrlHead|] == UrlHead;
    assert BaseUrlTemplate[|UrlHead| + |ModelPlaceholder|..] == UrlTail;
  }

  /** The URL is the endpoint followed by the query, which ends with the key. */
  lemma RequestUrlParts(modelId: string, apiKey: string)
    requires '$' !in modelId
    ensures RequestUrl(Endpoint(modelId), apiKey) == UrlHead + modelId + UrlTail + "?alt=sse&key=" + apiKey
  {
    EndpointOf(modelId);
  }

  // ---------------------------------------------------------------------------
  // the prompt

  const RoleLine: string := "Role: You are an expert ATS (Application Tracking System) and Career Coach."
  const TaskLine: string := "Task: Analyze the fit between the candidate's RESUME and the JOB DESCRIPTION."
  /** The lines after the job description: the JSON shape asked for and the closing advice. */
  const OutputLines: seq<string> := [
    "Output Format: JSON only.",
    "{",
    "    \"matchScore\": number (0-100),",
    "    \"keyMatchingSkills\": [\"skill1\", \"skill2\"],",
    "    \"missingCriticalSkills\": [\"skill1\", \"skill2\"],",
    "    \"improvementTips\": [\"tip1\", \"tip2\", \"tip3\"],",
    "    \"summary\": \"1-2 sentence verdict.\"",
    "}",
    "Never include markdown blocks like ```json. Just the raw JSON."]

  /** Each line prefixed by the indentation and followed by a newline. */
  function Indented(indent: string, lines: seq<string>): string {
    if lines == [] then "" else Indented(indent, lines[..|lines| - 1]) + indent + lines[|lines| - 1] + "\n"
  }

  /** The prompt text up to the opening quote of the resume. */
  function PromptHead(indent: string): string {
    "\n" + indent + RoleLine + "\n\n" + indent + TaskLine + "\n\n" + indent + "RESUME:\n" + indent + "\""
  }

  /** The prompt text between the resume and the job description. */
  function PromptMiddle(indent: string): string {
    "\"\n\n" + indent + "JOB DESCRIPTION:\n" + indent + "\""
  }

  /** The prompt text after the job description: the output format, then the indentation of
      the template literal's closing line. */
  function PromptTail(indent: string): string {
    "\"\n\n" + Indented(indent, OutputLines) + indent
  }

  /** The analysis prompt, its lines indented by `indent`, embedding the first 30000
      characters of the resume and of the job description. */
  function AnalysisPrompt(indent: string, resume: string, jobDescription: string): string {
    PromptHead(indent) + Truncate(resume, PromptLimit) + PromptMiddle(indent)
      + Truncate(jobDescription, PromptLimit) + PromptTail(indent)
  }

  /** Where the resume sits in the prompt: right after the head, cut to 30000 characters. */
  lemma PromptEmbedsResume(indent: string, resume: string, jobDescription: string)
    ensures var p := AnalysisPrompt(indent, resume, jobDescription);
      var t := Truncate(resume, PromptLimit);
      var h := |PromptHead(indent)|;
      h + |t| <= |p| && p[h..h + |t|] == t && t == resume[..|t|] && |t| <= PromptLimit
      && (|resume| <= PromptLimit ==> t == resume)
  {
    var t := Truncate(resume, PromptLimit);
    var rest := PromptMiddle(indent) + Truncate(jobDescription, PromptLimit) + PromptTail(indent);
    assert AnalysisPrompt(indent, resume, jobDescription) == PromptHead(indent) + t + rest;
  }

  /** Where the job description sits in the prompt: after the head, the resume and the
      middle, cut to 30000 characters. */
  lemma PromptEmbedsJob(indent: string, resume: string, jobDescription: string)
    ensures var p := AnalysisPrompt(indent, resume, jobDescription);
      var t := Truncate(jobDescription, PromptLimit);
      var k := |PromptHead(indent)| + |Truncate(resume, PromptLimit)| + |PromptMiddle(indent)|;
      k + |t| <= |p| && p[k..k + |t|] == t && t == jobDescription[..|t|] && |t| <= PromptLimit
      && (|jobDescription| <= PromptLimit ==> t == jobDescription)
  {
    var front := PromptHead(indent) + Truncate(resume, PromptLimit) + PromptMiddle(indent);
    var t := Truncate(jobDescription, PromptLimit);
    assert AnalysisPrompt(indent, resume, jobDescription) == front + t + PromptTail(indent);
  }

  lemma TruncateIgnoresTail(s: string, extra: string, n: nat)
    requires |s| >= n
    ensures Truncate(s + extra, n) == Truncate(s, n)
  {
    assert (s + extra)[0..n] == s[0..n];
  }

  /** Characters past the first 30000 of either input do not reach the prompt. */
  lemma PromptIgnoresTails(indent: string, resume: string, moreResume: string, jobDescription: string, moreJob: string)
    requires |resume| >= PromptLimit && |jobDescription| >= PromptLimit
    ensures AnalysisPrompt(indent, resume + moreResume, jobDescription + moreJob)
      == AnalysisPrompt(indent, resume, jobDescription)
  {
    TruncateIgnoresTail(resume, moreResume, PromptLimit);
    TruncateIgnoresTail(jobDescription, moreJob, PromptLimit);
  }

  // ---------------------------------------------------------------------------
  // cleaning the reply

  const JsonFence: string := "```json"

  /** The reply with every fence marker removed and white space trimmed. */
  function Unfenced(fullText: string): (r: string)
    ensures !Contains(r, Fence)
  {
    var noFences := RemoveAll(RemoveAll(fullText, JsonFence), Fence);
    RemoveFenceLeavesNone(RemoveAll(fullText, JsonFence));
    SliceAvoids(Trim(noFences), noFences, Fence);
    Trim(noFences)
  }

  /** The span from the first `{` to the last `}` of a text that has both, with
      `substring`'s swap when the last `}` comes first; otherwise the text itself. */
  function JsonSpan(text: string): (r: string)
    ensures IsSlice(r, text)
  {
    var jsonStart := IndexOf(text, '{');
    var jsonEnd := LastIndexOf(text, '}');
    SliceOfSelf(text);
    if jsonStart != -1 && jsonEnd != -1 then Substring(text, jsonStart, jsonEnd + 1) else text
  }

  /** The cleaned reply: a slice of the unfenced text, so it holds no fence either. */
  function CleanJson(fullText: string): (r: string)
    ensures IsSlice(r, Unfenced(fullText))
    ensures !Contains(r, Fence)
  {
    var r := JsonSpan(Unfenced(fullText));
    SliceAvoids(r, Unfenced(fullText), Fence);
    r
  }

  /** A text without a `{` or without a `}` is kept whole. */
  lemma JsonSpanUnbraced(text: string)
    requires '{' !in text || '}' !in text
    ensures JsonSpan(text) == text
  {
  }

  /** With the first `{` before the last `}`: whatever surrounds the object, as long as no
      `{` comes before it and no `}` after it, is cut away. */
  lemma JsonSpanObject(before: string, body: string, after: string)
    requires |body| >= 1 && body[0] == '{' && body[|body| - 1] == '}'
    requires '{' !in before && '}' !in after
    ensures JsonSpan(before + body + after) == body
  {
    var text := before + body + after;
    var i := |before|;
    var j := |before| + |body| - 1;
    assert text[i] == '{' && text[..i] == before;
    IndexOfFirst(text, '{', i);
    assert text[j] == '}' && text[j + 1..] == after;
    LastIndexOfLast(text, '}', j);
    assert text[i..j + 1] == body;
  }

  lemma IndexOfFirst(s: string, c: char, i: nat)
    requires i < |s| && s[i] == c && c !in s[..i]
    ensures IndexOf(s, c) == i
  {
    forall m | 0 <= m < i
      ensures s[m] != c
    {
      assert s[..i][m] == s[m];
    }
    var k := IndexOf(s, c);
    forall m | 0 <= m < k
      ensures s[m] != c
    {
      assert s[..k][m] == s[m];
    }
  }

  lemma LastIndexOfLast(s: string, c: char, j: nat)
    requires j < |s| && s[j] == c && c !in s[j + 1..]
    ensures LastIndexOf(s, c) == j
  {
    forall m | j < m < |s|
      ensures s[m] != c
    {
      assert s[j + 1..][m - j - 1] == s[m];
    }
    var k := LastIndexOf(s, c);
    forall m | k < m < |s|
      ensures s[m] != c
    {
      assert s[k + 1..][m - k - 1] == s[m];
    }
  }

  /** When the last `}` precedes the first `{`, `substring` swaps its bounds and the result
      is the text strictly between them. */
  lemma JsonSpanSwapped(before: string, middle: string, after: string)
    requires '{' !in before && '{' !in middle && '}' !in middle && '}' !in after
    ensures JsonSpan(before + "}" + middle + "{" + after) == middle
  {
    var text := before + "}" + middle + "{" + after;
    var j := |before|;
    var i := |before| + 1 + |middle|;
    assert text[i] == '{' && text[..i] == before + "}" + middle;
    IndexOfFirst(text, '{', i);
    assert text[j] == '}' && text[j + 1..] == middle + "{" + after;
    LastIndexOfLast(text, '}', j);
    SubstringInBounds(text, i, j + 1);
    assert text[j + 1..i] == middle;
  }

  /** `substring` with both bounds inside the text: the slice between them, in either order. */
  lemma SubstringInBounds(text: string, start: nat, end: nat)
    requires start <= |text| && end <= |text|
    ensures start <= end ==> Substring(text, start, end) == text[start..end]
    ensures end < start ==> Substring(text, start, end) == text[end..start]
  {
    assert Clamp(start, |text|) == start && Clamp(end, |text|) == end;
  }

  /** A reply wrapped in a ```` ```json ```` fence is unfenced to the same text as the bare
      reply. */
  lemma UnfencedFenced(body: string)
    requires '`' !in body
    ensures Unfenced(JsonFence + body + Fence) == Unfenced(body)
  {
    StripJsonFence(body);
    StripFence(body);
    RemoveAllPrefix(body, "", JsonFence);
    RemoveAllPrefix(body, "", Fence);
    assert body + "" == body;
  }

  /** So the fenced and the bare reply clean to the same JSON text. */
  lemma CleanJsonFenced(body: string)
    requires '`' !in body
    ensures CleanJson(JsonFence + body + Fence) == CleanJson(body)
  {
    UnfencedFenced(body);
  }

  lemma StripJsonFence(body: string)
    requires '`' !in body
    ensures RemoveAll(JsonFence + body + Fence, JsonFence) == body + Fence
  {
    assert JsonFence + body + Fence == JsonFence + (body + Fence);
    RemoveAllHead(JsonFence, body + Fence);
    RemoveAllPrefix(body, Fence, JsonFence);
    RemoveAllShort(Fence, JsonFence);
  }

  lemma StripFence(body: string)
    requires '`' !in body
    ensures RemoveAll(body + Fence, Fence) == body
  {
    RemoveAllPrefix(body, Fence, Fence);
    assert Fence == Fence + "";
    RemoveAllHead(Fence, "");
    assert body + "" == body;
  }

  lemma RemoveAllShort(s: string, p: string)
    requires p != [] && |s| < |p|
    ensures RemoveAll(s, p) == s
  {
  }

  // ---------------------------------------------------------------------------
  // the one-shot analysis

  /** The request `analyzeJobMatch` sends; an absent model id takes the default. */
  function AnalysisRequest(apiKey: string, resumeText: string, jobDescription: string, modelId: Option<string>): Request {
    var endpoint := Endpoint(modelId.GetOr(DefaultModel));
    Request(RequestUrl(endpoint, apiKey), [Turn(None, AnalysisPrompt(MatcherIndent, resumeText, jobDescription))])
  }

  /** What the analysis yields once the request is sent: the stream's error, "No content
      generated." when no line carried text, or the parse of the cleaned reply. */
  function AnalysisOutcome(resp: ApiResponse, parse: PayloadParser, parseAnalysis: AnalysisParser): (r: Result<Analysis>)
    ensures !resp.ok ==> r == Failure(ErrorMessage(resp.status, resp.errorMessage))
    ensures resp.ok && resp.readError.Some? ==> r == Failure(resp.readError.value)
    ensures resp.ok && resp.readError.None? && StreamFragments(resp.chunks, parse) == [] ==>
      r == Failure("No content generated.")
    ensures resp.ok && resp.readError.None? && StreamFragments(resp.chunks, parse) != [] ==>
      r == parseAnalysis(CleanJson(Concat(StreamFragments(resp.chunks, parse))))
  {
    if !resp.ok then Failure(ErrorMessage(resp.status, resp.errorMessage))
    else if resp.readError.Some? then Failure(resp.readError.value)
    else
      var fragments := StreamFragments(resp.chunks, parse);
      var fullText := Concat(fragments);
      ConcatEmpty(fragments);
      if fullText == "" then Failure("No content generated.")
      else parseAnalysis(CleanJson(fullText))
  }

  /** `analyzeJobMatch`: the argument guards, in order, then one request and its outcome. */
  method AnalyzeJobMatch(
    apiKey: Option<string>, resumeText: Option<string>, jobDescription: string, modelId: Option<string>,
    resp: ApiResponse, parse: PayloadParser, parseAnalysis: AnalysisParser)
    returns (request: Option<Request>, r: Result<Analysis>)
    ensures !Truthy(apiKey) ==> request == None && r == Failure("API Key is missing.")
    ensures Truthy(apiKey) && !Truthy(resumeText) ==> request == None && r == Failure("Resume content is missing.")
    ensures Truthy(apiKey) && Truthy(resumeText) ==>
      request == Some(AnalysisRequest(apiKey.value, resumeText.value, jobDescription, modelId))
      && r == AnalysisOutcome(resp, parse, parseAnalysis)
  {
    if !Truthy(apiKey) {
      return None, Failure("API Key is missing.");
    }
    if !Truthy(resumeText) {
      return None, Failure("Resume content is missing.");
    }
    var endpoint := Endpoint(modelId.GetOr(DefaultModel));
    var prompt := AnalysisPrompt(MatcherIndent, resumeText.value, jobDescription);
    request := Some(Request(RequestUrl(endpoint, apiKey.value), [Turn(None, prompt)]));
    var fullText := HandleStreamResponse(resp, parse);
    if fullText.Failure? {
      return request, Failure(fullText.error);
    }
    ConcatEmpty(StreamFragments(resp.chunks, parse));
    if fullText.value == "" {
      return request, Failure("No content generated.");
    }
    r := parseAnalysis(CleanJson(fullText.value));
  }

  // ---------------------------------------------------------------------------
  // the chat stream

  /** The request `streamChat` sends for a history; the key and model id of a chat page that
      never loaded them are `null` and render as such. */
  function ChatRequest(apiKey: Option<string>, history: seq<Turn>, modelId: Option<string>): (r: Request)
    ensures r.contents == history
  {
    Request(RequestUrl(Endpoint(TemplateText(modelId)), TemplateText(apiKey)), history)
  }

  /** `streamChat`: the request it sends, the fragments it yields in order, and the error it
      finally throws, if any. */
  method StreamChat(apiKey: Option<string>, history: seq<Turn>, modelId: Option<string>, resp: ApiResponse, parse: PayloadParser)
    returns (request: Request, fragments: seq<string>, error: Option<string>)
    ensures request == ChatRequest(apiKey, history, modelId)
    ensures !resp.ok ==> fragments == [] && error == Some(ErrorMessage(resp.status, resp.errorMessage))
    ensures resp.ok ==> fragments == StreamFragments(resp.chunks, parse) && error == resp.readError
  {
    var endpoint := Endpoint(TemplateText(modelId));
    request := Request(RequestUrl(endpoint, TemplateText(apiKey)), history);
    fragments, error := YieldFragments(resp, parse);
  }
}
