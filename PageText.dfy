/**
 * The job-match scorer's content script: it picks the page's main content element, collapses
 * its white space and answers the popup with at most 15000 characters of it.
 */
module PageText {
  import opened Wrappers
  import opened JsString
  import opened Whitespace
  import opened Dom

  /** The containers tried, most specific first. */
  const ContentSelectors: seq<string> := [
    ".job-description", "#job-description", ".description", ".jobs-description-content",
    ".job-details", "main", "article", "body"]

  /** An element counts as the content once its text is longer than this. */
  const MinContentLength: nat := 200
  /** How many characters of the page text are sent. */
  const PageTextLimit: nat := 15000

  /** The selector matches an element whose text is long enough. */
  predicate Substantial(lookup: Lookup, selector: string) {
    lookup(selector).Some? && |lookup(selector).value.innerText| > MinContentLength
  }

  /** The selector test of the loop, as a function of the selector. */
  function SubstantialIn(lookup: Lookup): string -> bool {
    selector => Substantial(lookup, selector)
  }

  /** The element whose text is sent: the element of the first selector that finds a
      substantial one, else the body. */
  function ContentElement(lookup: Lookup, body: Element): (r: Element)
    ensures (forall k :: 0 <= k < |ContentSelectors| ==> !Substantial(lookup, ContentSelectors[k])) ==> r == body
    ensures (exists k :: 0 <= k < |ContentSelectors| && Substantial(lookup, ContentSelectors[k])) ==>
      exists k :: 0 <= k < |ContentSelectors| && Substantial(lookup, ContentSelectors[k])
        && r == lookup(ContentSelectors[k]).value
        && forall j :: 0 <= j < k ==> !Substantial(lookup, ContentSelectors[j])
  {
    var k := FirstWhere(ContentSelectors, SubstantialIn(lookup));
    if k < |ContentSelectors| then lookup(ContentSelectors[k]).value else body
  }

  /** `text.replace(/\s+/g, ' ').trim()`: it is never longer than the text, and the only
      character it can bring in is the space. */
  function Normalize(text: string): (r: string)
    ensures |r| <= |text|
    ensures forall c :: c in r ==> c in text || c == ' '
  {
    CollapseRunsChars(text, IsSpace);
    Trim(CollapseRuns(text, IsSpace))
  }

  /** Normalised text holds no white space but single spaces, and none at either end. */
  predicate Collapsed(s: string) {
    SpacesOnly(s, IsSpace) && NoAdj(s, ' ', ' ') && (s == [] || (s[0] != ' ' && s[|s| - 1] != ' '))
  }

  lemma NormalizeCollapsed(text: string)
    ensures Collapsed(Normalize(text))
  {
    var c := CollapseRuns(text, IsSpace);
    CollapseRunsClean(text, IsSpace);
    SpacesOnlySlice(Normalize(text), c, IsSpace);
    NoAdjSlice(Normalize(text), c, ' ', ' ');
  }

  /** Normalising twice is normalising once. */
  lemma NormalizeIdempotent(text: string)
    ensures Normalize(Normalize(text)) == Normalize(text)
  {
    var n := Normalize(text);
    NormalizeCollapsed(text);
    CollapseRunsFixed(n, IsSpace);
    TrimClean(n);
  }

  /** Normalising removes or replaces white space only: the visible characters of the text
      all survive, in their order. */
  lemma NormalizeKeepsText(text: string)
    ensures Without(Normalize(text), IsSpace) == Without(text, IsSpace)
  {
    var c := CollapseRuns(text, IsSpace);
    CollapseRunsKeeps(text, IsSpace);
    TrimKeepsVisible(c);
  }

  /** Text without white space is left as it is. */
  lemma NormalizePlain(text: string)
    requires forall i :: 0 <= i < |text| ==> !IsSpace(text[i])
    ensures Normalize(text) == text
  {
    CollapseRunsPlain(text, IsSpace);
    TrimClean(text);
  }

  /** Each run of white space between two words becomes exactly one space: the normalised
      text is the normalised words joined by a single space. */
  lemma NormalizeBetween(a: string, w: string, b: string)
    requires a != [] && !IsSpace(a[0]) && !IsSpace(a[|a| - 1])
    requires w != [] && forall i :: 0 <= i < |w| ==> IsSpace(w[i])
    requires b != [] && !IsSpace(b[0]) && !IsSpace(b[|b| - 1])
    ensures Normalize(a + w + b) == Normalize(a) + " " + Normalize(b)
  {
    var ca, cb := CollapseRuns(a, IsSpace), CollapseRuns(b, IsSpace);
    CollapseRunsBetween(a, w, b, IsSpace);
    CollapseRunsLast(a, IsSpace);
    CollapseRunsLast(b, IsSpace);
    TrimClean(ca);
    TrimClean(cb);
    var r := ca + " " + cb;
    assert r[0] == ca[0] && r[|r| - 1] == cb[|cb| - 1];
    TrimClean(r);
  }

  /** A line break between two words reads as one space. */
  lemma NormalizeLineBreak()
    ensures Normalize("a\nb") == "a b"
  {
    assert "a\nb" == "a" + "\n" + "b";
    NormalizePlain("a");
    NormalizePlain("b");
    NormalizeBetween("a", "\n", "b");
  }

  /** The text `getPageText` returns for an element's text: the first 15000 characters of the
      normalised text, or all of it when it is shorter. */
  function PageTextOf(text: string): (r: string)
    ensures |r| == if |Normalize(text)| <= PageTextLimit then |Normalize(text)| else PageTextLimit
    ensures |r| <= PageTextLimit && |r| <= |Normalize(text)| && r == Normalize(text)[..|r|]
    ensures |Normalize(text)| <= PageTextLimit ==> r == Normalize(text)
  {
    Truncate(Normalize(text), PageTextLimit)
  }

  /** The page text holds the visible characters of the element's text, in order, cut
      short only when the normalised text is over the limit. */
  lemma PageTextKeepsText(text: string)
    ensures Without(PageTextOf(text), IsSpace) <= Without(text, IsSpace)
    ensures |Normalize(text)| <= PageTextLimit ==> Without(PageTextOf(text), IsSpace) == Without(text, IsSpace)
  {
    NormalizeKeepsText(text);
    PrefixWithout(PageTextOf(text), Normalize(text), IsSpace);
  }

  /** The prefix keeps the normalised shape, except that the cut may end it with a space. */
  lemma PageTextCollapsed(text: string)
    ensures var r := PageTextOf(text);
      SpacesOnly(r, IsSpace) && NoAdj(r, ' ', ' ') && (r == [] || r[0] != ' ')
  {
    var n := Normalize(text);
    var r := PageTextOf(text);
    NormalizeCollapsed(text);
    assert r == n[0..|r|];
    SpacesOnlySlice(r, n, IsSpace);
    NoAdjSlice(r, n, ' ', ' ');
  }

  /** `getPageText`: the selector loop, stopping at the first substantial element, then the
      clean-up of that element's text. */
  method GetPageText(lookup: Lookup, body: Element) returns (text: string)
    ensures text == PageTextOf(ContentElement(lookup, body).innerText)
  {
    var k := FindFirst(ContentSelectors, SubstantialIn(lookup));
    var content := if k < |ContentSelectors| then lookup(ContentSelectors[k]).value else body;
    text := Truncate(Normalize(content.innerText), PageTextLimit);
  }

  datatype PageResponse = PageResponse(success: bool, text: string, url: string, title: string)

  /** The message listener: an `extract_job_text` request is answered with the page text,
      the page's URL and its title; any other request goes unanswered. */
  method HandleMessage(action: string, lookup: Lookup, body: Element, url: string, title: string)
    returns (response: Option<PageResponse>)
    ensures action == "extract_job_text" ==>
      response == Some(PageResponse(true, PageTextOf(ContentElement(lookup, body).innerText), url, title))
    ensures action != "extract_job_text" ==> response == None
  {
    if action == "extract_job_text" {
      var text := GetPageText(lookup, body);
      response := Some(PageResponse(true, text, url, title));
    } else {
      response := None;
    }
  }
}
