/**
 * The chat page: it bootstraps a two-turn history from the saved analysis context and then
 * appends one user turn per message sent and one model turn per stream that completes.
 */
module Chat {
  import opened Wrappers
  import opened JsString
  import opened SseStream
  import opened Matcher

  /** What the popup saved for the chat: the configured resume, the job description shown in
      the preview, and the analysis the model returned. */
  datatype ChatContext = ChatContext(resumeText: Option<string>, jobDescription: Option<string>, initialOutput: Analysis)

  /** The stored values `init` reads; `None` is a key that was never set. */
  datatype Stored = Stored(chatContext: Option<ChatContext>, geminiApiKey: Option<string>, selectedModel: Option<string>)

  datatype Speaker = SystemNote | UserNote | AiNote

  /** One message bubble of the chat area and the text it shows. */
  datatype Bubble = Bubble(speaker: Speaker, text: string)

  /** `JSON.stringify` of the initial analysis. */
  type Stringify = Analysis -> string

  const MarkedWarning: string := "Warning: Markdown rendering library failed to load. Responses will be raw text."
  const MissingContext: string := "Error: Missing API Key or Analysis Context. Please run an analysis via the popup first."
  const Welcome: string := "I've analyzed your fit for this role. What would you like to know? I can help rewrite sections, explain gaps, or prepare for interviews."
  const Thinking: string := "Thinking..."

  /** `value || ''` on a text that may be absent. */
  function OrEmpty(s: Option<string>): (r: string)
    ensures Truthy(s) ==> r == s.value
    ensures !Truthy(s) ==> r == ""
  {
    s.GetOr("")
  }

  /** The model the page talks to: the stored choice when it is non-empty, else the default. */
  function ChatModel(selectedModel: Option<string>): (m: string)
    ensures Truthy(selectedModel) ==> m == selectedModel.value
    ensures !Truthy(selectedModel) ==> m == DefaultModel
    ensures m != ""
  {
    if Truthy(selectedModel) then selectedModel.value else DefaultModel
  }

  /** The first turn of the history: the analysis prompt with the chat page's indentation,
      a missing resume or job description standing for an empty one. */
  function InitialPrompt(ctx: ChatContext): string {
    AnalysisPrompt(ChatIndent, OrEmpty(ctx.resumeText), OrEmpty(ctx.jobDescription))
  }

  /** A missing resume or job description yields the same prompt as an empty one. */
  lemma InitialPromptMissing(ctx: ChatContext)
    ensures InitialPrompt(ctx) == InitialPrompt(ChatContext(Some(OrEmpty(ctx.resumeText)), Some(OrEmpty(ctx.jobDescription)), ctx.initialOutput))
    ensures ctx.resumeText.None? && ctx.jobDescription.None? ==> InitialPrompt(ctx) == AnalysisPrompt(ChatIndent, "", "")
  {
  }

  /** The bootstrap prompt embeds at most the first 30000 characters of the resume, right
      after the fixed head. */
  lemma InitialPromptEmbedsResume(ctx: ChatContext)
    ensures var p := InitialPrompt(ctx);
      var t := Truncate(OrEmpty(ctx.resumeText), PromptLimit);
      var h := |PromptHead(ChatIndent)|;
      h + |t| <= |p| && p[h..h + |t|] == t && |t| <= PromptLimit && t == OrEmpty(ctx.resumeText)[..|t|]
  {
    PromptEmbedsResume(ChatIndent, OrEmpty(ctx.resumeText), OrEmpty(ctx.jobDescription));
  }

  /** The two turns a successful `init` pushes. */
  function Bootstrap(ctx: ChatContext, stringify: Stringify): (h: seq<Turn>)
    ensures |h| == 2 && h[0].role == Some(User) && h[1].role == Some(Model)
    ensures h[0].text == InitialPrompt(ctx) && h[1].text == stringify(ctx.initialOutput)
  {
    [Turn(Some(User), InitialPrompt(ctx)), Turn(Some(Model), stringify(ctx.initialOutput))]
  }

  /** Whether `init` finds what it needs: a non-empty key and a saved context. */
  predicate CanStart(stored: Stored) {
    Truthy(stored.geminiApiKey) && stored.chatContext.Some?
  }

  /** The text of the reply bubble once a stream has delivered `fragments` and ended with
      `error`, markdown rendering taken as the identity. */
  function ReplyText(fragments: seq<string>, error: Option<string>): (t: string)
    ensures error.None? && fragments != [] ==> t == Concat(fragments)
    ensures error.None? && fragments == [] ==> t == Thinking
    ensures error.Some? && fragments == [] ==> t == Thinking + "\n[Error: " + error.value + "]"
    ensures error.Some? && fragments != [] ==> t == Concat(fragments) + "\n[Error: " + error.value + "]"
  {
    var shown := if fragments == [] then Thinking else Concat(fragments);
    if error.Some? then shown + "\n[Error: " + error.value + "]" else shown
  }

  /** Pushing two elements one after the other appends both. */
  lemma AppendPair<T>(s: seq<T>, a: T, b: T)
    ensures s + [a] + [b] == s + [a, b]
  {
  }

  class ChatPage {
    /** `state.history`: the turns sent with every request. */
    var history: seq<Turn>
    /** `state.apiKey` and `state.modelId`, `null` until `init` succeeds. */
    var apiKey: Option<string>
    var modelId: Option<string>
    /** The text in the input box. */
    var input: string
    /** Whether the send button is disabled. */
    var sendDisabled: bool
    /** The chat area's bubbles, oldest first. */
    var bubbles: seq<Bubble>

    /** The page as loaded, before `init` runs. */
    constructor ()
      ensures history == [] && apiKey == None && modelId == None
      ensures input == "" && !sendDisabled && bubbles == []
    {
      history := [];
      apiKey := None;
      modelId := None;
      input := "";
      sendDisabled := false;
      bubbles := [];
    }

    /** `init`: warn when the markdown library is missing, then either report the missing
        configuration and stop, or load the key and model and push the two bootstrap turns. */
    method Init(stored: Stored, markedLoaded: bool, stringify: Stringify)
      modifies this
      ensures CanStart(stored) ==>
        history == old(history) + Bootstrap(stored.chatContext.value, stringify)
        && apiKey == stored.geminiApiKey && modelId == Some(ChatModel(stored.selectedModel))
      ensures !CanStart(stored) ==>
        history == old(history) && apiKey == old(apiKey) && modelId == old(modelId)
      ensures bubbles == old(bubbles) + (if markedLoaded then [] else [Bubble(SystemNote, MarkedWarning)])
        + [if CanStart(stored) then Bubble(AiNote, Welcome) else Bubble(SystemNote, MissingContext)]
      ensures input == old(input) && sendDisabled == old(sendDisabled)
    {
      if !markedLoaded {
        bubbles := bubbles + [Bubble(SystemNote, MarkedWarning)];
      }
      if !Truthy(stored.geminiApiKey) || stored.chatContext.None? {
        bubbles := bubbles + [Bubble(SystemNote, MissingContext)];
        return;
      }
      Start(stored.geminiApiKey, stored.chatContext.value, stored.selectedModel, stringify);
      bubbles := bubbles + [Bubble(AiNote, Welcome)];
    }

    /** The successful part of `init`: load the key and model, then push the prompt turn and
        the analysis turn. */
    method Start(key: Option<string>, ctx: ChatContext, selectedModel: Option<string>, stringify: Stringify)
      modifies this
      ensures history == old(history) + Bootstrap(ctx, stringify)
      ensures apiKey == key && modelId == Some(ChatModel(selectedModel))
      ensures bubbles == old(bubbles) && input == old(input) && sendDisabled == old(sendDisabled)
    {
      apiKey := key;
      modelId := Some(ChatModel(selectedModel));
      var prompt := Turn(Some(User), InitialPrompt(ctx));
      var analysis := Turn(Some(Model), stringify(ctx.initialOutput));
      history := history + [prompt];
      history := history + [analysis];
      AppendPair(old(history), prompt, analysis);
    }

    /** The synchronous part of `sendMessage`, up to opening the stream: ignore input that is
        blank once trimmed, else clear the box, show the text, disable the button, push the
        user turn and show the placeholder reply bubble, whose index is returned. */
    method BeginSend() returns (started: bool, slot: nat)
      modifies this
      ensures started <==> Trim(old(input)) != ""
      ensures !started ==>
        history == old(history) && input == old(input)
        && sendDisabled == old(sendDisabled) && bubbles == old(bubbles)
      ensures started ==>
        input == "" && sendDisabled
        && history == old(history) + [Turn(Some(User), Trim(old(input)))]
        && bubbles == old(bubbles) + [Bubble(UserNote, Trim(old(input))), Bubble(AiNote, Thinking)]
        && slot == |bubbles| - 1
      ensures apiKey == old(apiKey) && modelId == old(modelId)
    {
      var text := Trim(input);
      if text == "" {
        return false, 0;
      }
      input := "";
      bubbles := bubbles + [Bubble(UserNote, text)];
      sendDisabled := true;
      history := history + [Turn(Some(User), text)];
      bubbles := bubbles + [Bubble(AiNote, Thinking)];
      started, slot := true, |bubbles| - 1;
    }

    /** The rest of `sendMessage`, once the stream has yielded `fragments` and ended with
        `error`: accumulate the fragments into the reply, push one model turn holding their
        concatenation only when the stream completed, and re-enable the button either way. */
    method FinishSend(slot: nat, fragments: seq<string>, error: Option<string>)
      requires slot < |bubbles| && bubbles[slot] == Bubble(AiNote, Thinking)
      modifies this
      ensures error.None? ==> history == old(history) + [Turn(Some(Model), Concat(fragments))]
      ensures error.Some? ==> history == old(history)
      ensures bubbles == old(bubbles)[slot := Bubble(AiNote, ReplyText(fragments, error))]
      ensures !sendDisabled
      ensures apiKey == old(apiKey) && modelId == old(modelId) && input == old(input)
    {
      var fullResponse := StreamInto(slot, fragments);
      if error.None? {
        history := history + [Turn(Some(Model), fullResponse)];
      } else {
        var shown := bubbles[slot].text;
        bubbles := bubbles[slot := Bubble(AiNote, shown + "\n[Error: " + error.value + "]")];
      }
      sendDisabled := false;
    }

    /** The `for await` loop of `sendMessage`: each fragment is added to the reply, which the
        placeholder bubble then shows in full. */
    method StreamInto(slot: nat, fragments: seq<string>) returns (fullResponse: string)
      requires slot < |bubbles| && bubbles[slot] == Bubble(AiNote, Thinking)
      modifies this
      ensures fullResponse == Concat(fragments)
      ensures bubbles == old(bubbles)[slot := Bubble(AiNote, ReplyText(fragments, None))]
      ensures history == old(history) && sendDisabled == old(sendDisabled)
      ensures apiKey == old(apiKey) && modelId == old(modelId) && input == old(input)
    {
      fullResponse := "";
      var i := 0;
      while i < |fragments|
        invariant 0 <= i <= |fragments|
        invariant fullResponse == Concat(fragments[..i])
        invariant bubbles == old(bubbles)[slot := Bubble(AiNote, if i == 0 then Thinking else fullResponse)]
        invariant history == old(history) && sendDisabled == old(sendDisabled)
        invariant apiKey == old(apiKey) && modelId == old(modelId) && input == old(input)
      {
        ConcatStep(fragments[..i], Some(fragments[i]));
        assert fragments[..i] + AsSeq(Some(fragments[i])) == fragments[..i + 1];
        fullResponse := fullResponse + fragments[i];
        bubbles := bubbles[slot := Bubble(AiNote, fullResponse)];
        i := i + 1;
      }
      assert fragments[..i] == fragments;
    }

    /** `sendMessage` run to its end: the request it sends, if it sends one. */
    method SendMessage(resp: ApiResponse, parse: PayloadParser) returns (request: Option<Request>)
      modifies this
      ensures var text := Trim(old(input));
        if text == "" then
          request == None && history == old(history) && bubbles == old(bubbles)
          && input == old(input) && sendDisabled == old(sendDisabled)
        else
          var sent := old(history) + [Turn(Some(User), text)];
          request == Some(ChatRequest(old(apiKey), sent, old(modelId)))
          && input == "" && !sendDisabled
          && (!resp.ok || resp.readError.Some? ==> history == sent)
          && (resp.ok && resp.readError.None? ==>
                history == sent + [Turn(Some(Model), Concat(StreamFragments(resp.chunks, parse)))])
          && var fragments := if resp.ok then StreamFragments(resp.chunks, parse) else [];
             var error := if resp.ok then resp.readError else Some(ErrorMessage(resp.status, resp.errorMessage));
             bubbles == old(bubbles) + [Bubble(UserNote, text), Bubble(AiNote, ReplyText(fragments, error))]
      ensures apiKey == old(apiKey) && modelId == old(modelId)
    {
      ghost var shown := bubbles;
      var started, slot := BeginSend();
      if !started {
        return None;
      }
      ghost var placed := bubbles;
      var req, fragments, error := StreamChat(apiKey, history, modelId, resp, parse);
      request := Some(req);
      FinishSend(slot, fragments, error);
      assert placed[slot := Bubble(AiNote, ReplyText(fragments, error))]
        == shown + [Bubble(UserNote, Trim(old(input))), Bubble(AiNote, ReplyText(fragments, error))];
    }
  }

  /** The page loading: a fresh page that runs `init` once. Its history is then empty, or
      exactly the two bootstrap turns. */
  method Open(stored: Stored, markedLoaded: bool, stringify: Stringify) returns (page: ChatPage)
    ensures fresh(page)
    ensures CanStart(stored) ==>
      page.history == Bootstrap(stored.chatContext.value, stringify)
      && page.apiKey == stored.geminiApiKey && page.modelId == Some(ChatModel(stored.selectedModel))
    ensures !CanStart(stored) ==> page.history == [] && page.apiKey == None && page.modelId == None
    ensures !page.sendDisabled && page.input == ""
  {
    page := new ChatPage();
    page.Init(stored, markedLoaded, stringify);
  }

  /** The Enter key calls `sendMessage` without looking at the disabled button, so a second
      message can start while the first reply is still streaming: its request carries both
      user turns and no reply between them. */
  method SendTwice(page: ChatPage, first: string, second: string) returns (request: Request)
    requires Trim(first) != "" && Trim(second) != ""
    modifies page
    ensures page.history == old(page.history) + [Turn(Some(User), Trim(first)), Turn(Some(User), Trim(second))]
    ensures request == ChatRequest(old(page.apiKey), page.history, old(page.modelId))
    ensures page.sendDisabled
  {
    ghost var h0 := page.history;
    var t1, t2 := Turn(Some(User), Trim(first)), Turn(Some(User), Trim(second));
    page.input := first;
    var started1, slot1 := page.BeginSend();
    assert started1;
    ghost var h1 := page.history;
    assert h1 == h0 + [t1];
    page.input := second;
    var started2, slot2 := page.BeginSend();
    assert started2;
    assert page.history == h1 + [t2];
    AppendPair(h0, t1, t2);
    request := ChatRequest(page.apiKey, page.history, page.modelId);
  }
}
