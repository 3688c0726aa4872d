/**
 * The toolbar popup: the Shorts toggle, the form-fill and settings buttons, and the two-step
 * job analysis (extract and preview, then confirm and render the score, the feedback
 * sections and the context the chat coach starts from).
 */
module Popup {
  import opened Wrappers
  import opened JsString
  import opened Matcher
  import Chat
  import PageText
  import ShortsRemover

  // ---------------------------------------------------------------------------
  // score colour

  const Green: string := "#27ae60"
  const Orange: string := "#e67e22"
  const Red: string := "#c0392b"

  /** The colour of the score text and of the score ring: green above 80, orange above 50,
      red otherwise. */
  function ScoreColor(score: int): (c: string)
    ensures c == Green <==> score > 80
    ensures c == Orange <==> 50 < score <= 80
    ensures c == Red <==> score <= 50
  {
    if score > 80 then Green else if score > 50 then Orange else Red
  }

  /** How good a band is: red, orange, green. */
  function BandRank(color: string): nat {
    if color == Green then 2 else if color == Orange then 1 else 0
  }

  /** A higher score never gets a worse band. */
  lemma ScoreColorMonotone(lower: int, higher: int)
    requires lower <= higher
    ensures BandRank(ScoreColor(lower)) <= BandRank(ScoreColor(higher))
  {
  }

  // ---------------------------------------------------------------------------
  // feedback sections

  const H4: string := "<h4>"
  const MissingTitle: string := "\U{26A0}\U{FE0F} Missing Skills"
  const TipsTitle: string := "\U{1F4A1} Tips"
  /** The heading of the Missing Skills section. */
  const MissingOpen: string := H4 + MissingTitle + "</h4>"
  /** The heading of the Tips section. */
  const TipsOpen: string := H4 + TipsTitle + "</h4>"

  /** One list item. */
  function Li(s: string): string {
    "<li>" + s + "</li>"
  }

  /** `items.map(s => `<li>${s}</li>`).join('')`: one item per entry, in list order. */
  function ItemsHtml(items: seq<string>): (r: string)
    ensures |r| >= 9 * |items|
    decreases |items|
  {
    if items == [] then "" else Li(items[0]) + ItemsHtml(items[1..])
  }

  /** The list is present and has at least one entry (`list && list.length > 0`). */
  predicate NonEmpty(list: Option<seq<string>>) {
    list.Some? && |list.value| > 0
  }

  /** The entries of a list that may be absent. */
  function Entries(list: Option<seq<string>>): seq<string> {
    if list.Some? then list.value else []
  }

  /** A heading followed by the list of its items. */
  function SectionHtml(open: string, items: seq<string>): string {
    open + "<ul>" + ItemsHtml(items) + "</ul>"
  }

  /** A section, or nothing when the list is empty or absent. */
  function Section(open: string, list: Option<seq<string>>): (r: string)
    ensures r == "" <==> !NonEmpty(list)
  {
    if NonEmpty(list) then SectionHtml(open, list.value) else ""
  }

  /** The feedback HTML: the Missing Skills section, then the Tips section. */
  function FeedbackHtml(missing: Option<seq<string>>, tips: Option<seq<string>>): (r: string)
    ensures r == "" <==> !NonEmpty(missing) && !NonEmpty(tips)
  {
    Section(MissingOpen, missing) + Section(TipsOpen, tips)
  }

  /** Reads back the leading list items of `h`: each is the text up to the next `<`, closed by
      `</li>`; the unread rest is returned with them. */
  function ParseItems(h: string): (r: (seq<string>, string))
    ensures |r.1| <= |h|
    decreases |h|
  {
    if StartsWith(h, "<li>") then
      var body := h[4..];
      var k := IndexOf(body, '<');
      if k >= 0 && StartsWith(body[k..], "</li>") then
        var more := ParseItems(body[k + 5..]);
        ([body[..k]] + more.0, more.1)
      else ([], h)
    else ([], h)
  }

  /** Reads back a section with heading `open` at the head of `h`: its items and the rest, or
      no items and all of `h` when no such section starts there. */
  function ParseSection(open: string, h: string): (seq<string>, string) {
    if StartsWith(h, open + "<ul>") then
      var body := ParseItems(h[|open| + 4..]);
      if StartsWith(body.1, "</ul>") then (body.0, body.1[5..]) else ([], h)
    else ([], h)
  }

  /** Reads back the Missing Skills items and the Tips items of a feedback HTML. */
  function ParseFeedback(h: string): (seq<string>, seq<string>) {
    var missing := ParseSection(MissingOpen, h);
    var tips := ParseSection(TipsOpen, missing.1);
    (missing.0, tips.0)
  }

  /** No item holds a `<`, so that no item text can be taken for markup. */
  predicate PlainItems(list: Option<seq<string>>) {
    forall i :: 0 <= i < |Entries(list)| ==> '<' !in Entries(list)[i]
  }

  lemma IndexOfAfter(s: string, t: string)
    requires '<' !in s && t != [] && t[0] == '<'
    ensures IndexOf(s + t, '<') == |s|
  {
    var u := s + t;
    assert u[|s|] == '<';
    assert u[..|s|] == s;
  }

  /** One item, read back. */
  lemma ParseItemsCons(x: string, tail: string)
    requires '<' !in x
    ensures ParseItems(Li(x) + tail) == ([x] + ParseItems(tail).0, ParseItems(tail).1)
  {
    var h := Li(x) + tail;
    var after := "</li>" + tail;
    assert h == "<li>" + (x + after);
    assert h[..4] == "<li>";
    var body := h[4..];
    assert body == x + after;
    IndexOfAfter(x, after);
    assert body[|x|..] == after;
    assert after[..5] == "</li>";
    assert body[|x| + 5..] == tail;
    assert body[..|x|] == x;
  }

  /** Each item comes back, in order, and the parse stops where the items end. */
  lemma {:induction false} ItemsRoundTrip(items: seq<string>, rest: string)
    requires forall i :: 0 <= i < |items| ==> '<' !in items[i]
    requires !StartsWith(rest, "<li>")
    ensures ParseItems(ItemsHtml(items) + rest) == (items, rest)
    decreases |items|
  {
    if items == [] {
      assert ItemsHtml(items) + rest == rest;
    } else {
      var tail := ItemsHtml(items[1..]) + rest;
      assert ItemsHtml(items) + rest == Li(items[0]) + tail;
      ParseItemsCons(items[0], tail);
      ItemsRoundTrip(items[1..], rest);
      assert [items[0]] + items[1..] == items;
    }
  }

  /** A section comes back with its items and the text after it. */
  lemma SectionRoundTrip(open: string, items: seq<string>, rest: string)
    requires forall i :: 0 <= i < |items| ==> '<' !in items[i]
    ensures ParseSection(open, SectionHtml(open, items) + rest) == (items, rest)
  {
    var after := "</ul>" + rest;
    var h := SectionHtml(open, items) + rest;
    assert h == (open + "<ul>") + (ItemsHtml(items) + after);
    assert h[..|open| + 4] == open + "<ul>";
    assert h[|open| + 4..] == ItemsHtml(items) + after;
    assert after[1] == '/';
    ItemsRoundTrip(items, after);
    assert after[..5] == "</ul>";
    assert after[5..] == rest;
  }

  /** No Tips section starts where a Missing Skills heading is looked for. */
  lemma OpensDiffer(items: seq<string>)
    ensures !StartsWith(SectionHtml(TipsOpen, items), MissingOpen + "<ul>")
  {
    var h := SectionHtml(TipsOpen, items);
    assert h == TipsOpen + ("<ul>" + ItemsHtml(items) + "</ul>");
    assert TipsOpen == "<h4>" + (TipsTitle + "</h4>");
    assert MissingOpen == "<h4>" + (MissingTitle + "</h4>");
    assert h[4] == TipsTitle[0];
    assert (MissingOpen + "<ul>")[4] == MissingTitle[0];
  }

  /** The feedback HTML gives back exactly the Missing Skills items and the Tips items, in
      list order: a section is there exactly when its list is non-empty, and Missing Skills
      comes first. */
  lemma FeedbackRoundTrip(missing: Option<seq<string>>, tips: Option<seq<string>>)
    requires PlainItems(missing) && PlainItems(tips)
    ensures ParseFeedback(FeedbackHtml(missing, tips)) == (Entries(missing), Entries(tips))
  {
    var t := Section(TipsOpen, tips);
    var h := Section(MissingOpen, missing) + t;
    if NonEmpty(missing) {
      assert Entries(missing) == missing.value;
      SectionRoundTrip(MissingOpen, missing.value, t);
    } else {
      assert h == t;
      if NonEmpty(tips) {
        OpensDiffer(tips.value);
      }
    }
    assert ParseSection(MissingOpen, h).1 == t;
    if NonEmpty(tips) {
      assert Entries(tips) == tips.value;
      SectionRoundTrip(TipsOpen, tips.value, "");
      assert t == SectionHtml(TipsOpen, tips.value) + "";
    }
  }

  // ---------------------------------------------------------------------------
  // configuration and extraction

  /** The stored settings the analysis reads. */
  datatype Config = Config(geminiApiKey: Option<string>, userResume: Option<string>, selectedModel: Option<string>)

  /** Both the key and the resume are set and non-empty. */
  predicate Configured(config: Config) {
    Truthy(config.geminiApiKey) && Truthy(config.userResume)
  }

  /** The active tab: its id and, when the popup may see it, its URL. */
  datatype Tab = Tab(id: int, url: Option<string>)

  /** What a message to the page's content script comes back with: its reply, which may be
      missing, or the rejection's error message. */
  datatype Delivery = Delivered(reply: Option<PageText.PageResponse>) | Rejected(message: string)

  /** How the extraction step ends. */
  datatype Extraction = Unconfigured | Failed(error: ExtractError) | Extracted(data: PageText.PageResponse)

  /** Why the extraction step threw: no active tab, no text in the page's answer, or the
      message of a rejected delivery. */
  datatype ExtractError = NoActiveTab | NoPageText | Thrown(message: string)

  /** The `message` of the error thrown. */
  function ExtractErrorText(e: ExtractError): string {
    match e
    case NoActiveTab => "No active tab"
    case NoPageText => "Could not extract text. If this persists, please reload the page."
    case Thrown(m) => m
  }

  /** An alert the popup raises. */
  datatype Alert = ConfigMissing | ExtractionFailed(error: ExtractError) | AnalysisFailed(message: string)

  /** The text of an alert. */
  function AlertText(alert: Alert): string {
    match alert
    case ConfigMissing => "Please configure your Gemini API Key and Resume in settings first."
    case ExtractionFailed(e) => "Extraction failed: " + ExtractErrorText(e)
    case AnalysisFailed(m) => "Analysis failed: " + m
  }

  /** An extension page the popup opens in a new tab. */
  datatype ExtensionPage = FormFillerSettings | JobMatchSettings | ChatCoach

  /** The path of an extension page, which `chrome.runtime.getURL` turns into its URL. */
  function PagePath(page: ExtensionPage): string {
    match page
    case FormFillerSettings => "modules/job-form-filler/settings.html"
    case JobMatchSettings => "modules/job-match-scorer/settings.html"
    case ChatCoach => "modules/job-match-scorer/chat.html"
  }

  const ShortsHost: string := "youtube.com"

  /** The reply the extraction works with: the first message's, or, when the content script
      was not ready, that of the message sent again after injecting it. */
  function FinalDelivery(first: Delivery, injectError: Option<string>, retry: Delivery): (d: Delivery)
    ensures first.Delivered? ==> d == first
    ensures first.Rejected? && injectError.Some? ==> d == Rejected(injectError.value)
    ensures first.Rejected? && injectError.None? ==> d == retry
  {
    if first.Delivered? then first
    else if injectError.Some? then Rejected(injectError.value)
    else retry
  }

  /** The extraction step once the settings are complete: the active tab's page data, or
      why there is none. */
  function FromTab(tab: Option<Tab>, first: Delivery, injectError: Option<string>, retry: Delivery): Extraction {
    if tab.None? then Failed(NoActiveTab)
    else
      match FinalDelivery(first, injectError, retry)
      case Rejected(m) => Failed(Thrown(m))
      case Delivered(reply) =>
        if reply.None? || reply.value.text == "" then Failed(NoPageText) else Extracted(reply.value)
  }

  /** The extraction step, from the stored settings, the active tab and the deliveries. */
  function Extract(config: Config, tab: Option<Tab>, first: Delivery, injectError: Option<string>, retry: Delivery): Extraction {
    if !Configured(config) then Unconfigured else FromTab(tab, first, injectError, retry)
  }

  /** The `try` block of step 1 after the guard: ask the tab, inject the content script and ask
      again when it was not ready, and check that text came back. */
  method ReadPage(tab: Option<Tab>, first: Delivery, injectError: Option<string>, retry: Delivery)
    returns (step: Extraction)
    ensures step == FromTab(tab, first, injectError, retry)
    ensures step != Unconfigured
  {
    if tab.None? {
      return Failed(NoActiveTab);
    }
    var pageData := first;
    if first.Rejected? {
      if injectError.Some? {
        return Failed(Thrown(injectError.value));
      }
      pageData := retry;
    }
    if pageData.Rejected? {
      return Failed(Thrown(pageData.message));
    }
    if pageData.reply.None? || pageData.reply.value.text == "" {
      return Failed(NoPageText);
    }
    step := Extracted(pageData.reply.value);
  }

  /** The preview is offered exactly when the settings are complete, there is an active tab
      and the page answered with non-empty text, and what it offers is that answer. */
  lemma ExtractedIff(config: Config, tab: Option<Tab>, first: Delivery, injectError: Option<string>, retry: Delivery)
    ensures Extract(config, tab, first, injectError, retry).Extracted? <==>
      Configured(config) && tab.Some? &&
      FinalDelivery(first, injectError, retry).Delivered? &&
      FinalDelivery(first, injectError, retry).reply.Some? &&
      FinalDelivery(first, injectError, retry).reply.value.text != ""
    ensures Extract(config, tab, first, injectError, retry).Extracted? ==>
      Extract(config, tab, first, injectError, retry).data == FinalDelivery(first, injectError, retry).reply.value
  {
  }

  /** Incomplete settings stop the analysis before any tab or message is looked at. */
  lemma UnconfiguredStopsFirst(config: Config, tab: Option<Tab>, first: Delivery, injectError: Option<string>, retry: Delivery)
    ensures Extract(config, tab, first, injectError, retry) == Unconfigured <==> !Configured(config)
  {
  }

  /** When the content script answers the first message, injection and the second message
      make no difference. */
  lemma FirstReplyWins(config: Config, tab: Option<Tab>, first: Delivery,
                       injectError: Option<string>, retry: Delivery, injectError': Option<string>, retry': Delivery)
    requires first.Delivered?
    ensures Extract(config, tab, first, injectError, retry) == Extract(config, tab, first, injectError', retry')
  {
  }

  /** A page whose listener answers with the page text is extracted exactly when that text
      is not empty. */
  lemma ListenerReplyExtracted(config: Config, tab: Tab, response: PageText.PageResponse)
    requires Configured(config)
    ensures Extract(config, Some(tab), Delivered(Some(response)), None, Rejected("")).Extracted? <==> response.text != ""
  {
  }

  // ---------------------------------------------------------------------------
  // the popup page

  /** A button's text and whether it is disabled. */
  datatype Button = Button(text: string, disabled: bool)

  /** The rendered analysis: score text, summary, score colour, ring colour and feedback. */
  datatype ResultView = ResultView(score: string, summary: string, color: string, ringColor: string, feedback: string)

  /** A message the popup sends to the active tab. */
  datatype TabMessage = UpdateShortsVisibility(tabId: int, shouldHide: bool) | TriggerFill(tabId: int)

  const AnalyzeLabel: string := "Analyze"
  const ExtractingLabel: string := "Extracting..."
  const ConfirmLabel: string := "Run AI Analysis"
  const AnalyzingLabel: string := "Analyzing..."

  /** The tab is a YouTube page, so the Shorts remover is listening there. */
  predicate OnShortsHost(tab: Option<Tab>) {
    tab.Some? && tab.value.url.Some? && Contains(tab.value.url.value, ShortsHost)
  }

  /** How an analysis renders. */
  function Render(a: Analysis): ResultView {
    var color := ScoreColor(a.matchScore);
    ResultView(IntToDecimal(a.matchScore), a.summary.GetOr(""), color, color,
               FeedbackHtml(a.missingCriticalSkills, a.improvementTips))
  }

  /** The rendering of step 2: the score and its colour, the summary, and the feedback built
      section by section. */
  method RenderAnalysis(a: Analysis) returns (v: ResultView)
    ensures v == Render(a)
  {
    var score := a.matchScore;
    var color := ScoreColor(score);
    var feedbackHtml := "";
    if a.missingCriticalSkills.Some? && |a.missingCriticalSkills.value| > 0 {
      feedbackHtml := feedbackHtml + SectionHtml(MissingOpen, a.missingCriticalSkills.value);
    }
    assert feedbackHtml == Section(MissingOpen, a.missingCriticalSkills);
    var missing := feedbackHtml;
    if a.improvementTips.Some? && |a.improvementTips.value| > 0 {
      feedbackHtml := feedbackHtml + SectionHtml(TipsOpen, a.improvementTips.value);
    }
    assert feedbackHtml == missing + Section(TipsOpen, a.improvementTips);
    v := ResultView(IntToDecimal(score), a.summary.GetOr(""), color, color, feedbackHtml);
  }

  /** The arguments of one call of `analyzeJobMatch`; what that call sends is modelled by
      `Matcher.AnalyzeJobMatch`. */
  datatype AnalysisCall = AnalysisCall(apiKey: Option<string>, resumeText: Option<string>, jobDescription: string, modelId: Option<string>)

  /** What the popup has done outside its own page: the values it stored, the alerts it
      raised, the tabs it opened, the messages it sent and the analyses it asked for, each
      oldest first. */
  datatype Effects = Effects(
    storedHideShorts: Option<bool>,
    chatContext: Option<Chat.ChatContext>,
    alerts: seq<Alert>,
    openedTabs: seq<ExtensionPage>,
    sent: seq<TabMessage>,
    analyses: seq<AnalysisCall>)

  const NoEffects: Effects := Effects(None, None, [], [], [], [])

  /** The analysis part of the popup's page: the two buttons of the flow, the cancel button,
      which of the two panels is hidden, the preview box and the rendered result. */
  datatype Panel = Panel(
    analyzeButton: Button,
    confirmButton: Button,
    cancelDisabled: bool,
    previewHidden: bool,
    resultHidden: bool,
    previewText: string,
    view: ResultView)

  /** The panel as the popup opens: both parts hidden, nothing rendered. */
  const InitialPanel: Panel :=
    Panel(Button(AnalyzeLabel, false), Button(ConfirmLabel, false), false, true, true, "", ResultView("", "", "", "", ""))

  class PopupPage {
    /** Whether the Shorts toggle is checked. */
    var shortsChecked: bool
    var panel: Panel
    /** `currentConfig`: the settings of the last extraction that got past the guard. */
    var currentConfig: Option<Config>
    /** `extractedPageData`. */
    var extracted: Option<PageText.PageResponse>
    var effects: Effects

    /** `currentConfig` is only ever a configuration that passed the guard. */
    predicate Valid()
      reads this
    {
      currentConfig.Some? ==> Configured(currentConfig.value)
    }

    /** The popup as it opens. */
    constructor ()
      ensures Valid()
      ensures !shortsChecked && panel == InitialPanel
      ensures currentConfig == None && extracted == None && effects == NoEffects
    {
      shortsChecked := false;
      panel := InitialPanel;
      currentConfig := None;
      extracted := None;
      effects := NoEffects;
    }

    /** The stored `hideShorts` sets the toggle: checked unless it is exactly `false`, which is
        what the Shorts remover itself decides from the same value. */
    method LoadToggle(hideShorts: Option<bool>)
      modifies this
      ensures shortsChecked <==> hideShorts != Some(false)
      ensures shortsChecked == ShortsRemover.InitialShouldHide(false, hideShorts)
      ensures panel == old(panel) && currentConfig == old(currentConfig)
      ensures extracted == old(extracted) && effects == old(effects)
    {
      shortsChecked := hideShorts != Some(false);
    }

    /** The user sets the toggle to `checked`: the new state is stored, and the active tab
        is told of it only when that tab is a YouTube page. */
    method ToggleChanged(checked: bool, tab: Option<Tab>)
      modifies this
      ensures shortsChecked == checked
      ensures OnShortsHost(tab) ==>
        effects == old(effects).(storedHideShorts := Some(checked),
                                 sent := old(effects).sent + [UpdateShortsVisibility(tab.value.id, checked)])
      ensures !OnShortsHost(tab) ==> effects == old(effects).(storedHideShorts := Some(checked))
      ensures panel == old(panel)
      ensures currentConfig == old(currentConfig) && extracted == old(extracted)
    {
      shortsChecked := checked;
      var isHidden := shortsChecked;
      effects := effects.(storedHideShorts := Some(isHidden));
      if tab.Some? && tab.value.url.Some? && Contains(tab.value.url.value, ShortsHost) {
        effects := effects.(sent := effects.sent + [UpdateShortsVisibility(tab.value.id, isHidden)]);
      }
    }

    /** The fill button asks the active tab, when there is one, to fill its forms. */
    method FillFormClicked(tab: Option<Tab>)
      modifies this
      ensures tab.Some? ==> effects == old(effects).(sent := old(effects).sent + [TriggerFill(tab.value.id)])
      ensures tab.None? ==> effects == old(effects)
      ensures shortsChecked == old(shortsChecked) && panel == old(panel)
      ensures currentConfig == old(currentConfig) && extracted == old(extracted)
    {
      if tab.Some? {
        effects := effects.(sent := effects.sent + [TriggerFill(tab.value.id)]);
      }
    }

    /** The two settings buttons and the chat button each open one extension page. */
    method OpenPage(page: ExtensionPage)
      modifies this
      ensures effects == old(effects).(openedTabs := old(effects).openedTabs + [page])
      ensures shortsChecked == old(shortsChecked) && panel == old(panel)
      ensures currentConfig == old(currentConfig) && extracted == old(extracted)
    {
      effects := effects.(openedTabs := effects.openedTabs + [page]);
    }

    /** Step 1, extract and preview: hide both panels; stop with an alert and the settings page
        when the key or resume is missing; otherwise keep the settings, ask the page for its
        text (injecting the content script and asking again when it was not ready), and show
        the text in the preview, or alert why there is none. The button is restored either way. */
    method AnalyzeClicked(config: Config, tab: Option<Tab>, first: Delivery, injectError: Option<string>, retry: Delivery)
      requires Valid()
      modifies this
      ensures Valid()
      ensures match Extract(config, tab, first, injectError, retry)
        case Unconfigured =>
          effects == old(effects).(alerts := old(effects).alerts + [ConfigMissing],
                                   openedTabs := old(effects).openedTabs + [JobMatchSettings])
          && currentConfig == old(currentConfig) && extracted == old(extracted)
          && panel == old(panel).(analyzeButton := Button(AnalyzeLabel, false), previewHidden := true, resultHidden := true)
        case Failed(e) =>
          effects == old(effects).(alerts := old(effects).alerts + [ExtractionFailed(e)])
          && currentConfig == Some(config) && extracted == old(extracted)
          && panel == old(panel).(analyzeButton := Button(AnalyzeLabel, false), previewHidden := true, resultHidden := true)
        case Extracted(data) =>
          effects == old(effects)
          && currentConfig == Some(config) && extracted == Some(data)
          && panel == old(panel).(analyzeButton := Button(AnalyzeLabel, false), previewHidden := false,
                                  resultHidden := true, previewText := data.text)
      ensures shortsChecked == old(shortsChecked)
    {
      panel := panel.(analyzeButton := Button(ExtractingLabel, true), resultHidden := true, previewHidden := true);
      if !Truthy(config.geminiApiKey) || !Truthy(config.userResume) {
        effects := effects.(alerts := effects.alerts + [ConfigMissing], openedTabs := effects.openedTabs + [JobMatchSettings]);
        panel := panel.(analyzeButton := Button(AnalyzeLabel, false));
        return;
      }
      currentConfig := Some(config);
      var step := ReadPage(tab, first, injectError, retry);
      ShowExtraction(step);
    }

    /** The end of step 1 once the settings are kept: alert why there is no text, or show the
        text in the preview; then restore the button. */
    method ShowExtraction(step: Extraction)
      modifies this
      ensures match step
        case Unconfigured =>
          effects == old(effects) && extracted == old(extracted)
          && panel == old(panel).(analyzeButton := Button(AnalyzeLabel, false))
        case Failed(e) =>
          effects == old(effects).(alerts := old(effects).alerts + [ExtractionFailed(e)])
          && extracted == old(extracted)
          && panel == old(panel).(analyzeButton := Button(AnalyzeLabel, false))
        case Extracted(data) =>
          effects == old(effects) && extracted == Some(data)
          && panel == old(panel).(analyzeButton := Button(AnalyzeLabel, false), previewHidden := false,
                                  previewText := data.text)
      ensures shortsChecked == old(shortsChecked) && currentConfig == old(currentConfig)
    {
      if step.Failed? {
        effects := effects.(alerts := effects.alerts + [ExtractionFailed(step.error)]);
      } else if step.Extracted? {
        extracted := Some(step.data);
        panel := panel.(previewText := step.data.text, previewHidden := false);
      }
      panel := panel.(analyzeButton := Button(AnalyzeLabel, false));
    }

    /** Step 2, confirm: with settings kept by step 1, ask for the analysis of the preview
        text as it now stands, so the call always carries a key and a resume; when it resolves to an analysis, render the score, its colour,
        the summary and the feedback, store the chat context and swap the preview for the
        result; when it fails, alert the error. The buttons are restored either way. */
    method ConfirmClicked(outcome: Result<Analysis>)
      requires Valid()
      modifies this
      ensures Valid()
      ensures old(currentConfig).None? ==> panel == old(panel) && effects == old(effects)
      ensures old(currentConfig).Some? ==>
        var config := old(currentConfig).value;
        var call := AnalysisCall(config.geminiApiKey, config.userResume, old(panel).previewText, config.selectedModel);
        match outcome
        case Success(a) =>
          panel == old(panel).(confirmButton := Button(ConfirmLabel, false), cancelDisabled := false,
                               previewHidden := true, resultHidden := false, view := Render(a))
          && effects == old(effects).(chatContext := Some(Chat.ChatContext(config.userResume, Some(old(panel).previewText), a)),
                                      analyses := old(effects).analyses + [call])
        case Failure(m) =>
          panel == old(panel).(confirmButton := Button(ConfirmLabel, false), cancelDisabled := false)
          && effects == old(effects).(alerts := old(effects).alerts + [AnalysisFailed(m)],
                                      analyses := old(effects).analyses + [call])
      ensures old(currentConfig).Some? ==>
        var call := effects.analyses[|effects.analyses| - 1];
        Truthy(call.apiKey) && Truthy(call.resumeText)
      ensures shortsChecked == old(shortsChecked)
      ensures currentConfig == old(currentConfig) && extracted == old(extracted)
    {
      if currentConfig.None? {
        return;
      }
      var config := currentConfig.value;
      panel := panel.(confirmButton := Button(AnalyzingLabel, true), cancelDisabled := true);
      var finalJobText := panel.previewText;
      effects := effects.(analyses := effects.analyses + [AnalysisCall(config.geminiApiKey, config.userResume, finalJobText, config.selectedModel)]);
      if outcome.Success? {
        var a := outcome.value;
        var v := RenderAnalysis(a);
        panel := panel.(view := v);
        effects := effects.(chatContext := Some(Chat.ChatContext(config.userResume, Some(finalJobText), a)));
        panel := panel.(previewHidden := true, resultHidden := false);
      } else {
        effects := effects.(alerts := effects.alerts + [AnalysisFailed(outcome.error)]);
      }
      panel := panel.(confirmButton := Button(ConfirmLabel, false), cancelDisabled := false);
    }

    /** Cancel hides both the preview and the result. */
    method CancelClicked()
      modifies this
      ensures panel == old(panel).(previewHidden := true, resultHidden := true)
      ensures shortsChecked == old(shortsChecked) && currentConfig == old(currentConfig)
      ensures extracted == old(extracted) && effects == old(effects)
    {
      panel := panel.(previewHidden := true, resultHidden := true);
    }
  }
}
