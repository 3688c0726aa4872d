/**
 * The YouTube Shorts remover: the passes that hide sidebar entries and video cards leading
 * to Shorts, the blocked-page message, the injected style sheet, switching the blocking on
 * and off, and what the page observers do.
 */
module ShortsRemover {
  import opened Wrappers
  import opened JsString

  // ---------------------------------------------------------------------------
  // Entries and the hiding passes

  /** A sidebar entry or a video card: the `href`, `title` and `aria-label` of the link the
      pass reads (absent when there is no such link or attribute), the trimmed-before-use
      text of the entry's label (absent when it has none), and its inline `style.display`. */
  datatype Entry = Entry(href: Option<string>, title: Option<string>, ariaLabel: Option<string>,
                         text: Option<string>, display: string)

  predicate IsHidden(e: Entry) {
    e.display == "none"
  }

  /** A sidebar entry leads to Shorts when its link's `href` starts with `/shorts`, its
      title or aria-label lower-cased mentions `shorts`, or its label text, trimmed and
      lower-cased, is exactly `shorts`. */
  predicate SidebarShorts(e: Entry) {
    StartsWith(e.href.GetOr(""), "/shorts")
    || Contains(LowerAscii(e.title.GetOr("")), "shorts")
    || Contains(LowerAscii(e.ariaLabel.GetOr("")), "shorts")
    || (e.text.Some? && LowerAscii(Trim(e.text.value)) == "shorts")
  }

  /** A video card leads to Shorts when the `href` of its thumbnail or title link contains
      `/shorts/`. */
  predicate CardShorts(e: Entry) {
    Contains(e.href.GetOr(""), "/shorts/")
  }

  /** One entry after a pass: a visible entry the pass targets gets `display: none`. */
  function HideOne(e: Entry, targets: Entry -> bool): Entry {
    if !IsHidden(e) && targets(e) then e.(display := "none") else e
  }

  /** The entries after a pass: an entry that was visible is hidden exactly when the pass
      targets it, and an entry that was hidden is left as it was. */
  function HideAll(entries: seq<Entry>, targets: Entry -> bool): (r: seq<Entry>)
    ensures |r| == |entries|
    ensures forall i :: 0 <= i < |entries| && !IsHidden(entries[i]) ==>
      (IsHidden(r[i]) <==> targets(entries[i]))
    ensures forall i :: 0 <= i < |entries| && !IsHidden(entries[i]) && !targets(entries[i]) ==> r[i] == entries[i]
    ensures forall i :: 0 <= i < |entries| && IsHidden(entries[i]) ==> r[i] == entries[i]
    ensures forall i :: 0 <= i < |entries| ==> r[i].(display := entries[i].display) == entries[i]
  {
    seq(|entries|, i requires 0 <= i < |entries| => HideOne(entries[i], targets))
  }

  /** The number of entries a pass hides: visible and targeted. */
  function NewlyHidden(entries: seq<Entry>, targets: Entry -> bool): (n: nat)
    ensures n <= |entries|
    decreases |entries|
  {
    if entries == [] then 0
    else
      var last := entries[|entries| - 1];
      NewlyHidden(entries[..|entries| - 1], targets) + (if !IsHidden(last) && targets(last) then 1 else 0)
  }

  /** The number of hidden entries. */
  function HiddenCount(entries: seq<Entry>): (n: nat)
    ensures n <= |entries|
    decreases |entries|
  {
    if entries == [] then 0
    else HiddenCount(entries[..|entries| - 1]) + (if IsHidden(entries[|entries| - 1]) then 1 else 0)
  }

  /** The counter a pass adds is exactly the growth in the number of hidden entries. */
  lemma {:induction false} NewlyHiddenIsGrowth(entries: seq<Entry>, targets: Entry -> bool)
    ensures HiddenCount(HideAll(entries, targets)) == HiddenCount(entries) + NewlyHidden(entries, targets)
    decreases |entries|
  {
    if entries != [] {
      var n := |entries|;
      var front := entries[..n - 1];
      assert HideAll(entries, targets)[..n - 1] == HideAll(front, targets);
      NewlyHiddenIsGrowth(front, targets);
    }
  }

  /** A second pass over the result of a pass hides nothing new and changes nothing. */
  lemma {:induction false} HideAllIdempotent(entries: seq<Entry>, targets: Entry -> bool)
    ensures HideAll(HideAll(entries, targets), targets) == HideAll(entries, targets)
    ensures NewlyHidden(HideAll(entries, targets), targets) == 0
    decreases |entries|
  {
    var r := HideAll(entries, targets);
    assert HideAll(r, targets) == r;
    if entries != [] {
      var n := |entries|;
      assert r[..n - 1] == HideAll(entries[..n - 1], targets);
      HideAllIdempotent(entries[..n - 1], targets);
    }
  }

  /** Every entry made visible again: an inline `display: none` is cleared and every other
      entry is left as it was. */
  function Unhide(entries: seq<Entry>): (r: seq<Entry>)
    ensures |r| == |entries|
    ensures forall i :: 0 <= i < |r| ==> !IsHidden(r[i])
    ensures forall i :: 0 <= i < |r| && !IsHidden(entries[i]) ==> r[i] == entries[i]
    ensures forall i :: 0 <= i < |r| && IsHidden(entries[i]) ==> r[i] == entries[i].(display := "")
  {
    seq(|entries|, i requires 0 <= i < |entries| =>
      if IsHidden(entries[i]) then entries[i].(display := "") else entries[i])
  }

  /** Un-hiding after a pass restores every entry whose inline display was empty or `none`
      to what un-hiding before the pass would have made of it. */
  lemma UnhideUndoesHide(entries: seq<Entry>, targets: Entry -> bool)
    ensures forall i :: 0 <= i < |entries| && (entries[i].display == "" || IsHidden(entries[i])) ==>
      Unhide(HideAll(entries, targets))[i] == Unhide(entries)[i]
  {
    forall i | 0 <= i < |entries| && (entries[i].display == "" || IsHidden(entries[i]))
      ensures Unhide(HideAll(entries, targets))[i] == Unhide(entries)[i]
    {
      var e := entries[i];
      if !IsHidden(e) && targets(e) {
        assert HideAll(entries, targets)[i] == e.(display := "none");
        assert e.(display := "") == e;
      }
    }
  }

  /** A hiding pass as the `forEach` loops run it: every visible entry the pass targets is
      hidden and counted. */
  method HidePass(entries: seq<Entry>, targets: Entry -> bool) returns (result: seq<Entry>, hiddenCount: nat)
    ensures result == HideAll(entries, targets)
    ensures hiddenCount == NewlyHidden(entries, targets)
  {
    result := [];
    hiddenCount := 0;
    var i := 0;
    while i < |entries|
      invariant 0 <= i <= |entries|
      invariant |result| == i
      invariant forall j :: 0 <= j < i ==> result[j] == HideOne(entries[j], targets)
      invariant hiddenCount == NewlyHidden(entries[..i], targets)
    {
      var entry := entries[i];
      assert entries[..i + 1][..i] == entries[..i];
      if entry.display == "none" {
        result := result + [entry];
      } else if targets(entry) {
        result := result + [entry.(display := "none")];
        hiddenCount := hiddenCount + 1;
      } else {
        result := result + [entry];
      }
      i := i + 1;
    }
    assert entries[..i] == entries;
  }

  /** The un-hiding loop of `disableShortsBlocking`. */
  method UnhidePass(entries: seq<Entry>) returns (result: seq<Entry>)
    ensures result == Unhide(entries)
  {
    result := [];
    var i := 0;
    while i < |entries|
      invariant 0 <= i <= |entries|
      invariant result == Unhide(entries[..i])
    {
      var entry := entries[i];
      if entry.display == "none" {
        entry := entry.(display := "");
      }
      result := result + [entry];
      i := i + 1;
    }
    assert entries[..i] == entries;
  }

  // ---------------------------------------------------------------------------
  // The page

  /** The initial blocking state: on after a storage error, and otherwise unless the stored
      `hideShorts` is exactly `false`. */
  function InitialShouldHide(storageError: bool, hideShorts: Option<bool>): (r: bool)
    ensures storageError ==> r
    ensures !r <==> !storageError && hideShorts == Some(false)
  {
    storageError || hideShorts != Some(false)
  }

  /** The page as the content script sees and changes it. */
  class ShortsPage {
    /** The guide and mini-guide entries of the sidebar, in document order. */
    var sidebar: seq<Entry>
    /** The video, grid-video and rich-item cards, in document order. */
    var cards: seq<Entry>
    /** `location.href` and `location.pathname`. */
    var href: string
    var path: string
    /** The last URL the navigation observer saw. */
    var lastUrl: string
    /** Whether `document.body` exists. */
    var hasBody: bool
    /** The number of elements with the style sheet's id, and with the blocked message's. */
    var styles: nat
    var messages: nat
    /** Whether the mutation observer is connected. */
    var observing: bool
    /** `stats.elementsHidden` */
    var elementsHidden: nat

    /** At most one style sheet and at most one blocked message exist. */
    predicate Valid()
      reads this
    {
      styles <= 1 && messages <= 1
    }

    constructor (sidebar: seq<Entry>, cards: seq<Entry>, href: string, path: string, hasBody: bool)
      ensures Valid()
      ensures this.sidebar == sidebar && this.cards == cards
      ensures this.href == href && this.path == path && lastUrl == href && this.hasBody == hasBody
      ensures styles == 0 && messages == 0 && !observing && elementsHidden == 0
    {
      this.sidebar := sidebar;
      this.cards := cards;
      this.href := href;
      this.path := path;
      lastUrl := href;
      this.hasBody := hasBody;
      styles := 0;
      messages := 0;
      observing := false;
      elementsHidden := 0;
    }

    /** `blockShortsPage`: on a `/shorts/` page with no message yet, and a body to put it in,
        the message is added. */
    method BlockShortsPage()
      requires Valid()
      modifies this
      ensures Valid()
      ensures messages == if StartsWith(path, "/shorts/") && old(messages) == 0 && hasBody then 1 else old(messages)
      ensures sidebar == old(sidebar) && cards == old(cards) && styles == old(styles)
      ensures href == old(href) && path == old(path) && lastUrl == old(lastUrl) && hasBody == old(hasBody)
      ensures observing == old(observing) && elementsHidden == old(elementsHidden)
    {
      if !StartsWith(path, "/shorts/") {
        return;
      }
      if messages > 0 {
        return;
      }
      if hasBody {
        messages := messages + 1;
      }
    }

    /** `removeShortsSidebarItems` */
    method RemoveSidebarItems()
      modifies this
      ensures sidebar == HideAll(old(sidebar), SidebarShorts)
      ensures elementsHidden == old(elementsHidden) + NewlyHidden(old(sidebar), SidebarShorts)
      ensures cards == old(cards) && styles == old(styles) && messages == old(messages)
      ensures href == old(href) && path == old(path) && lastUrl == old(lastUrl) && hasBody == old(hasBody)
      ensures observing == old(observing)
    {
      var result, hiddenCount := HidePass(sidebar, SidebarShorts);
      sidebar := result;
      if hiddenCount > 0 {
        elementsHidden := elementsHidden + hiddenCount;
      }
    }

    /** `removeShortsVideoCards` */
    method RemoveVideoCards()
      modifies this
      ensures cards == HideAll(old(cards), CardShorts)
      ensures elementsHidden == old(elementsHidden) + NewlyHidden(old(cards), CardShorts)
      ensures sidebar == old(sidebar) && styles == old(styles) && messages == old(messages)
      ensures href == old(href) && path == old(path) && lastUrl == old(lastUrl) && hasBody == old(hasBody)
      ensures observing == old(observing)
    {
      var result, hiddenCount := HidePass(cards, CardShorts);
      cards := result;
      if hiddenCount > 0 {
        elementsHidden := elementsHidden + hiddenCount;
      }
    }

    /** The debounced re-check: the blocked page, then both passes. */
    method Refresh()
      requires Valid()
      modifies this
      ensures Valid()
      ensures messages == if StartsWith(path, "/shorts/") && old(messages) == 0 && hasBody then 1 else old(messages)
      ensures sidebar == HideAll(old(sidebar), SidebarShorts) && cards == HideAll(old(cards), CardShorts)
      ensures elementsHidden == old(elementsHidden) + NewlyHidden(old(sidebar), SidebarShorts) + NewlyHidden(old(cards), CardShorts)
      ensures styles == old(styles) && observing == old(observing)
      ensures href == old(href) && path == old(path) && lastUrl == old(lastUrl) && hasBody == old(hasBody)
    {
      BlockShortsPage();
      RemoveSidebarItems();
      RemoveVideoCards();
    }

    /** `enableShortsBlocking`: without a body nothing happens yet; otherwise the style sheet
        is injected unless present, the blocked page is handled, both passes run and the
        observer is connected. */
    method Enable()
      requires Valid()
      modifies this
      ensures Valid()
      ensures !old(hasBody) ==> unchanged(this)
      ensures old(hasBody) ==> styles == 1 && observing
      ensures old(hasBody) ==>
        messages == if StartsWith(path, "/shorts/") then 1 else old(messages)
      ensures old(hasBody) ==>
        sidebar == HideAll(old(sidebar), SidebarShorts) && cards == HideAll(old(cards), CardShorts)
      ensures old(hasBody) ==>
        elementsHidden == old(elementsHidden) + NewlyHidden(old(sidebar), SidebarShorts) + NewlyHidden(old(cards), CardShorts)
      ensures href == old(href) && path == old(path) && lastUrl == old(lastUrl) && hasBody == old(hasBody)
    {
      if !hasBody {
        return;
      }
      if styles == 0 {
        styles := styles + 1;
      }
      Refresh();
      observing := true;
    }

    /** `disableShortsBlocking`: the style sheet and the message are removed, every entry
        hidden with an inline `display: none` is shown again, the observer is disconnected
        and the counter is reset. */
    method Disable()
      requires Valid()
      modifies this
      ensures Valid()
      ensures styles == 0 && messages == 0 && !observing && elementsHidden == 0
      ensures sidebar == Unhide(old(sidebar)) && cards == Unhide(old(cards))
      ensures href == old(href) && path == old(path) && lastUrl == old(lastUrl) && hasBody == old(hasBody)
    {
      if styles > 0 {
        styles := styles - 1;
      }
      if messages > 0 {
        messages := messages - 1;
      }
      sidebar := UnhidePass(sidebar);
      cards := UnhidePass(cards);
      observing := false;
      elementsHidden := 0;
    }

    /** `updateState`: the blocking is enabled or disabled, with the effect of `Enable` or
        `Disable`. */
    method UpdateState(shouldHide: bool)
      requires Valid()
      modifies this
      ensures Valid()
      ensures shouldHide && !old(hasBody) ==> unchanged(this)
      ensures shouldHide && old(hasBody) ==> styles == 1 && observing
      ensures shouldHide && old(hasBody) ==>
        messages == if StartsWith(path, "/shorts/") then 1 else old(messages)
      ensures shouldHide && old(hasBody) ==>
        sidebar == HideAll(old(sidebar), SidebarShorts) && cards == HideAll(old(cards), CardShorts)
      ensures shouldHide && old(hasBody) ==>
        elementsHidden == old(elementsHidden) + NewlyHidden(old(sidebar), SidebarShorts) + NewlyHidden(old(cards), CardShorts)
      ensures !shouldHide ==> styles == 0 && messages == 0 && !observing && elementsHidden == 0
      ensures !shouldHide ==> sidebar == Unhide(old(sidebar)) && cards == Unhide(old(cards))
      ensures href == old(href) && path == old(path) && lastUrl == old(lastUrl) && hasBody == old(hasBody)
    {
      if shouldHide {
        Enable();
      } else {
        Disable();
      }
    }

    /** `init`'s storage callback: `updateState` with the initial blocking state. */
    method Init(storageError: bool, hideShorts: Option<bool>)
      requires Valid()
      modifies this
      ensures Valid()
      ensures InitialShouldHide(storageError, hideShorts) && !old(hasBody) ==> unchanged(this)
      ensures InitialShouldHide(storageError, hideShorts) && old(hasBody) ==> styles == 1 && observing
      ensures InitialShouldHide(storageError, hideShorts) && old(hasBody) ==>
        messages == if StartsWith(path, "/shorts/") then 1 else old(messages)
      ensures InitialShouldHide(storageError, hideShorts) && old(hasBody) ==>
        sidebar == HideAll(old(sidebar), SidebarShorts) && cards == HideAll(old(cards), CardShorts)
      ensures InitialShouldHide(storageError, hideShorts) && old(hasBody) ==>
        elementsHidden == old(elementsHidden) + NewlyHidden(old(sidebar), SidebarShorts) + NewlyHidden(old(cards), CardShorts)
      ensures !InitialShouldHide(storageError, hideShorts) ==> styles == 0 && messages == 0 && !observing && elementsHidden == 0
      ensures !InitialShouldHide(storageError, hideShorts) ==> sidebar == Unhide(old(sidebar)) && cards == Unhide(old(cards))
      ensures href == old(href) && path == old(path) && lastUrl == old(lastUrl) && hasBody == old(hasBody)
    {
      UpdateState(InitialShouldHide(storageError, hideShorts));
    }

    /** The `updateShortsVisibility` message switches the blocking and is answered with
        success; other messages are not answered. */
    method HandleMessage(action: string, shouldHide: bool) returns (response: Option<bool>)
      requires Valid()
      modifies this
      ensures Valid()
      ensures action == "updateShortsVisibility" ==> response == Some(true)
      ensures action != "updateShortsVisibility" ==> response.None? && unchanged(this)
      ensures action == "updateShortsVisibility" && shouldHide && !old(hasBody) ==> unchanged(this)
      ensures action == "updateShortsVisibility" && shouldHide && old(hasBody) ==> styles == 1 && observing
      ensures action == "updateShortsVisibility" && shouldHide && old(hasBody) ==>
        messages == if StartsWith(path, "/shorts/") then 1 else old(messages)
      ensures action == "updateShortsVisibility" && shouldHide && old(hasBody) ==>
        sidebar == HideAll(old(sidebar), SidebarShorts) && cards == HideAll(old(cards), CardShorts)
      ensures action == "updateShortsVisibility" && shouldHide && old(hasBody) ==>
        elementsHidden == old(elementsHidden) + NewlyHidden(old(sidebar), SidebarShorts) + NewlyHidden(old(cards), CardShorts)
      ensures action == "updateShortsVisibility" && !shouldHide ==>
        styles == 0 && messages == 0 && !observing && elementsHidden == 0
      ensures action == "updateShortsVisibility" && !shouldHide ==>
        sidebar == Unhide(old(sidebar)) && cards == Unhide(old(cards))
      ensures href == old(href) && path == old(path) && lastUrl == old(lastUrl) && hasBody == old(hasBody)
    {
      if action == "updateShortsVisibility" {
        UpdateState(shouldHide);
        response := Some(true);
      } else {
        response := None;
      }
    }

    /** The page's content changes; the mutation observer re-checks it while it is
        connected. */
    method ContentChanged(newSidebar: seq<Entry>, newCards: seq<Entry>)
      requires Valid()
      modifies this
      ensures Valid()
      ensures !old(observing) ==> sidebar == newSidebar && cards == newCards && messages == old(messages) && elementsHidden == old(elementsHidden)
      ensures old(observing) ==> sidebar == HideAll(newSidebar, SidebarShorts) && cards == HideAll(newCards, CardShorts)
      ensures old(observing) ==>
        messages == if StartsWith(path, "/shorts/") && old(messages) == 0 && hasBody then 1 else old(messages)
      ensures old(observing) ==>
        elementsHidden == old(elementsHidden) + NewlyHidden(newSidebar, SidebarShorts) + NewlyHidden(newCards, CardShorts)
      ensures observing == old(observing) && styles == old(styles) && hasBody == old(hasBody)
      ensures href == old(href) && path == old(path) && lastUrl == old(lastUrl)
    {
      sidebar := newSidebar;
      cards := newCards;
      if observing {
        Refresh();
      }
    }

    /** The navigation observer as the source writes it: on a new URL it re-checks the page
        whether or not the blocking is on. */
    method NavigateAsWritten(newHref: string, newPath: string)
      requires Valid()
      modifies this
      ensures Valid()
      ensures href == newHref && path == newPath
      ensures newHref != old(lastUrl) ==>
        lastUrl == newHref && sidebar == HideAll(old(sidebar), SidebarShorts) && cards == HideAll(old(cards), CardShorts) &&
        messages == (if StartsWith(newPath, "/shorts/") && old(messages) == 0 && hasBody then 1 else old(messages))
      ensures newHref != old(lastUrl) ==>
        elementsHidden == old(elementsHidden) + NewlyHidden(old(sidebar), SidebarShorts) + NewlyHidden(old(cards), CardShorts)
      ensures newHref == old(lastUrl) ==>
        lastUrl == old(lastUrl) && sidebar == old(sidebar) && cards == old(cards) && messages == old(messages) &&
        elementsHidden == old(elementsHidden)
      ensures observing == old(observing) && styles == old(styles) && hasBody == old(hasBody)
    {
      href := newHref;
      path := newPath;
      if href != lastUrl {
        lastUrl := href;
        Refresh();
      }
    }

    /** The navigation observer, re-checking the page only while the blocking is on. */
    method Navigate(newHref: string, newPath: string)
      requires Valid()
      modifies this
      ensures Valid()
      ensures href == newHref && path == newPath && lastUrl == newHref
      ensures !old(observing) || newHref == old(lastUrl) ==>
        sidebar == old(sidebar) && cards == old(cards) && messages == old(messages) && elementsHidden == old(elementsHidden)
      ensures old(observing) && newHref != old(lastUrl) ==>
        sidebar == HideAll(old(sidebar), SidebarShorts) && cards == HideAll(old(cards), CardShorts)
      ensures old(observing) && newHref != old(lastUrl) ==>
        messages == if StartsWith(newPath, "/shorts/") && old(messages) == 0 && hasBody then 1 else old(messages)
      ensures old(observing) && newHref != old(lastUrl) ==>
        elementsHidden == old(elementsHidden) + NewlyHidden(old(sidebar), SidebarShorts) + NewlyHidden(old(cards), CardShorts)
      ensures observing == old(observing) && styles == old(styles) && hasBody == old(hasBody)
    {
      href := newHref;
      path := newPath;
      if href != lastUrl {
        lastUrl := href;
        if observing {
          Refresh();
        }
      }
    }
  }

  /** A sidebar entry linking to the Shorts feed. */
  const ShortsLink := Entry(Some("/shorts"), None, None, None, "")

  /** Switching the blocking off and then following a link to a Short on the page: as
      written, the entry is hidden again and the blocked message appears, with the blocking
      off. */
  method DisableThenNavigateAsWritten() returns (page: ShortsPage)
    ensures !page.observing && page.styles == 0
    ensures |page.sidebar| == 1 && IsHidden(page.sidebar[0]) && page.messages == 1
  {
    page := new ShortsPage([ShortsLink], [], "https://www.youtube.com/", "/", true);
    page.Disable();
    assert StartsWith("/shorts/abc", "/shorts/");
    assert SidebarShorts(ShortsLink) by {
      assert StartsWith("/shorts", "/shorts");
    }
    page.NavigateAsWritten("https://www.youtube.com/shorts/abc", "/shorts/abc");
  }

  /** The same steps with the corrected observer leave the page as the switch left it. */
  method DisableThenNavigate() returns (page: ShortsPage)
    ensures !page.observing && page.styles == 0
    ensures |page.sidebar| == 1 && !IsHidden(page.sidebar[0]) && page.messages == 0
  {
    page := new ShortsPage([ShortsLink], [], "https://www.youtube.com/", "/", true);
    page.Disable();
    page.Navigate("https://www.youtube.com/shorts/abc", "/shorts/abc");
  }
}
