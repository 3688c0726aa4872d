/**
 * Page elements as the content scripts see them: plain records instead of DOM nodes, and
 * `document.querySelector` as a function from a selector to its first match.
 */
module Dom {
  import opened Wrappers

  /** An element: its tag name, `id`, `className`, its `innerText`, and the `innerText` of the
      clone the description extractor prepares from it (noise tags removed, list items
      dashed, block ends broken). */
  datatype Element = Element(tagName: string, id: string, className: string, innerText: string, cloneText: string)

  /** `document.querySelector(selector)` for selectors that are valid CSS. */
  type Lookup = string -> Option<Element>

  /** `document.querySelector(selector)` where the selector may be rejected: the element, no
      element, or the message of the `SyntaxError` it throws. */
  datatype QueryResult = Found(element: Element) | NotFound | Invalid(message: string)
  type Query = string -> QueryResult

  /** The position of the first selector, in list order, that satisfies `accept`, or the
      length of the list when none does. */
  function FirstWhere(selectors: seq<string>, accept: string -> bool): (k: nat)
    ensures k <= |selectors|
    ensures forall j :: 0 <= j < k ==> !accept(selectors[j])
    ensures k < |selectors| ==> accept(selectors[k])
    decreases |selectors|
  {
    if selectors == [] then 0
    else if accept(selectors[0]) then 0
    else 1 + FirstWhere(selectors[1..], accept)
  }

  /** The two properties pin the first position down. */
  lemma FirstWhereIs(selectors: seq<string>, accept: string -> bool, k: nat)
    requires k <= |selectors|
    requires forall j :: 0 <= j < k ==> !accept(selectors[j])
    requires k < |selectors| ==> accept(selectors[k])
    ensures FirstWhere(selectors, accept) == k
  {
  }

  /** A selector loop that stops at the first selector `accept` admits. */
  method FindFirst(selectors: seq<string>, accept: string -> bool) returns (k: nat)
    ensures k == FirstWhere(selectors, accept)
  {
    k := 0;
    while k < |selectors|
      invariant 0 <= k <= |selectors|
      invariant forall j :: 0 <= j < k ==> !accept(selectors[j])
    {
      if accept(selectors[k]) {
        break;
      }
      k := k + 1;
    }
    FirstWhereIs(selectors, accept, k);
  }
}
