/**
 * The job-application form filler: deciding whether a form control already holds a value,
 * guessing which profile entry a control asks for from its attributes and label, choosing
 * the option of a drop-down, and the pass over every control of the page that fills the
 * empty ones and counts the successes.
 */
module FormFiller {
  import opened Wrappers
  import opened JsString

  // ---------------------------------------------------------------------------
  // Profile keys and their keywords

  /** The entries of the saved profile, in the declaration order of the keyword table. */
  datatype Key =
    | FirstName | LastName | FullName
    | Email | Phone | CountryCode
    | Address | City | State | ZipCode | Country
    | LinkedIn | GitHub | Portfolio
    | CurrentCompany | CurrentTitle | YearsOfExperience

  /** The order in which the classifier tries the keys. */
  const KeyOrder: seq<Key> := [
    FirstName, LastName, FullName,
    Email, Phone, CountryCode,
    Address, City, State, ZipCode, Country,
    LinkedIn, GitHub, Portfolio,
    CurrentCompany, CurrentTitle, YearsOfExperience
  ]

  /** The property name under which the profile stores each entry. */
  function KeyName(k: Key): string {
    match k
    case FirstName => "firstName"
    case LastName => "lastName"
    case FullName => "fullName"
    case Email => "email"
    case Phone => "phone"
    case CountryCode => "countryCode"
    case Address => "address"
    case City => "city"
    case State => "state"
    case ZipCode => "zipCode"
    case Country => "country"
    case LinkedIn => "linkedin"
    case GitHub => "github"
    case Portfolio => "portfolio"
    case CurrentCompany => "currentCompany"
    case CurrentTitle => "currentTitle"
    case YearsOfExperience => "yearsOfExperience"
  }

  /** The keywords of each key, in table order, with the e-mail keyword spelled as it can
      appear in a search string. */
  function Keywords(k: Key): seq<string> {
    match k
    case FirstName => ["first name", "firstname", "fname", "given name", "givenname", "legal first name"]
    case LastName => ["last name", "lastname", "lname", "surname", "family name", "legal last name"]
    case FullName => ["full name", "fullname", "name", "legal name", "your name", "complete name"]
    case Email => ["email", "e mail", "mail", "email address"]
    case Phone => ["phone", "mobile", "cell", "telephone", "phone number", "contact number", "tel"]
    case CountryCode => ["country code", "phone code", "dial code"]
    case Address => ["address", "street", "street address", "location", "residence"]
    case City => ["city", "town", "municipality"]
    case State => ["state", "province", "region", "territory"]
    case ZipCode => ["zip", "zip code", "postal", "postal code", "postcode"]
    case Country => ["country", "nation"]
    case LinkedIn => ["linkedin", "linked in", "linkedin profile", "linkedin url"]
    case GitHub => ["github", "git hub", "github profile", "github url"]
    case Portfolio => ["portfolio", "website", "personal site", "personal website", "blog", "url"]
    case CurrentCompany => ["current company", "employer", "current employer", "organization", "company"]
    case CurrentTitle => ["current title", "job title", "current position", "position", "role"]
    case YearsOfExperience => ["years of experience", "years experience", "yoe", "experience years", "total experience"]
  }

  /** The keyword table as the source writes it: the e-mail list carries `"e-mail"`. */
  function KeywordsAsWritten(k: Key): seq<string> {
    if k == Email then ["email", "e-mail", "mail", "email address"] else Keywords(k)
  }

  // ---------------------------------------------------------------------------
  // Form controls

  /** One `<option>` of a drop-down: its visible text and its value. */
  datatype SelectOption = SelectOption(text: string, value: string)

  /** A form control as the filler reads it: tag name, `type`, `name`, `id`, the
      `autocomplete` and `aria-label` attributes (absent is `None`), `placeholder` (a
      drop-down has none), the `innerText` of its label when one is found, and its state:
      `checked`, the text `value`, and for a drop-down its options and `selectedIndex`. */
  datatype Field = Field(
    tagName: string, inputType: string, name: string, id: string,
    autocomplete: Option<string>, ariaLabel: Option<string>, placeholder: Option<string>,
    labelText: Option<string>,
    checked: bool, value: string, options: seq<SelectOption>, selectedIndex: int)

  predicate IsSelect(f: Field) {
    f.tagName == "SELECT"
  }

  /** `select.value`: the value of the selected option, empty when none is selected. */
  function SelectValue(f: Field): string {
    if 0 <= f.selectedIndex < |f.options| then f.options[f.selectedIndex].value else ""
  }

  /** Whether a control already holds a meaningful value: a checkbox or radio button when it
      is checked, a drop-down when an option past the first with a non-empty value is
      selected, any other control when its value is not blank. */
  predicate IsFieldFilled(f: Field) {
    if f.inputType == "checkbox" || f.inputType == "radio" then f.checked
    else if IsSelect(f) then f.selectedIndex > 0 && SelectValue(f) != ""
    else f.value != "" && Trim(f.value) != ""
  }

  // ---------------------------------------------------------------------------
  // The search string

  /** The characters the normalised search string keeps: ASCII lower-case letters, digits
      and the white space of `\s`. */
  predicate Searchable(c: char) {
    ('a' <= c <= 'z') || ('0' <= c <= '9') || IsSpace(c)
  }

  /** `s.toLowerCase().replace(/[^a-z0-9\s]/g, ' ')` */
  function NormalizeSearch(s: string): (r: string)
    ensures |r| == |s|
    ensures forall k :: 0 <= k < |r| ==> Searchable(r[k])
    ensures forall k :: 0 <= k < |s| && Searchable(LowerChar(s[k])) ==> r[k] == LowerChar(s[k])
  {
    seq(|s|, k requires 0 <= k < |s| => if Searchable(LowerChar(s[k])) then LowerChar(s[k]) else ' ')
  }

  /** The attributes the classifier reads, in order, followed by the label text when a label
      was found; an absent attribute joins as the empty string. */
  function AttributeTexts(f: Field): seq<string> {
    [f.name, f.id, f.autocomplete.GetOr(""), f.ariaLabel.GetOr(""), f.placeholder.GetOr("")]
    + (if f.labelText.Some? then [f.labelText.value] else [])
  }

  function SearchString(f: Field): string {
    NormalizeSearch(Join(AttributeTexts(f), " "))
  }

  /** No search string contains a character outside the kept class. */
  lemma SearchStringAlphabet(f: Field, c: char)
    requires c in SearchString(f)
    ensures Searchable(c)
  {
  }

  // ---------------------------------------------------------------------------
  // Classification

  /** The search string mentions a first or a last name. */
  predicate MentionsPart(search: string) {
    Contains(search, "first") || Contains(search, "last")
  }

  /** Whether a keyword of a key counts as found: it occurs in the search string, unless it
      is the bare keyword `"name"` and the search string mentions a first or last name. */
  function Accept(search: string): (Key, string) -> bool {
    (k: Key, keyword: string) => Contains(search, keyword) && !(keyword == "name" && MentionsPart(search))
  }

  /** The refinement as the source writes it: it compares the key, not the keyword, with
      `"name"`. */
  function AcceptAsWritten(search: string): (Key, string) -> bool {
    (k: Key, keyword: string) => Contains(search, keyword) && !(KeyName(k) == "name" && MentionsPart(search))
  }

  /** Some keyword of key `k` is accepted. */
  predicate HasKeyword(k: Key, keywords: Key -> seq<string>, accept: (Key, string) -> bool) {
    exists i :: 0 <= i < |keywords(k)| && accept(k, keywords(k)[i])
  }

  function HasKeywordIn(keywords: Key -> seq<string>, accept: (Key, string) -> bool): nat -> bool {
    (j: nat) => j < |KeyOrder| && HasKeyword(KeyOrder[j], keywords, accept)
  }

  /** The first position from `from` on, below `n`, that `accept` admits, or `n` when there
      is none. */
  function FirstIndex(n: nat, accept: nat -> bool, from: nat): (k: nat)
    requires from <= n
    ensures from <= k <= n
    ensures forall j :: from <= j < k ==> !accept(j)
    ensures k < n ==> accept(k)
    decreases n - from
  {
    if from == n then n
    else if accept(from) then from
    else FirstIndex(n, accept, from + 1)
  }

  /** The first key, in table order, with an accepted keyword. */
  function FirstKey(keywords: Key -> seq<string>, accept: (Key, string) -> bool): (r: Option<Key>)
    ensures r.None? <==> forall j :: 0 <= j < |KeyOrder| ==> !HasKeyword(KeyOrder[j], keywords, accept)
    ensures r.Some? ==>
      exists j :: 0 <= j < |KeyOrder| && KeyOrder[j] == r.value && HasKeyword(KeyOrder[j], keywords, accept) &&
        forall i :: 0 <= i < j ==> !HasKeyword(KeyOrder[i], keywords, accept)
  {
    var accepted := HasKeywordIn(keywords, accept);
    var j := FirstIndex(|KeyOrder|, accepted, 0);
    assert forall i :: 0 <= i < j ==> !HasKeyword(KeyOrder[i], keywords, accept) by {
      forall i | 0 <= i < j
        ensures !HasKeyword(KeyOrder[i], keywords, accept)
      {
        assert !accepted(i);
      }
    }
    if j < |KeyOrder| then
      assert accepted(j);
      Some(KeyOrder[j])
    else
      None
  }

  /** `identifyFieldType`: an `email` input is an e-mail field and a `tel` input a phone
      field, whatever their attributes say; otherwise the first key, in table order, with a
      keyword found in the search string, and `None` when there is none. */
  function Classify(f: Field): (r: Option<Key>)
    ensures f.inputType == "email" ==> r == Some(Email)
    ensures f.inputType == "tel" ==> r == Some(Phone)
    ensures f.inputType != "email" && f.inputType != "tel" ==>
      r == FirstKey(Keywords, Accept(SearchString(f)))
  {
    if f.inputType == "email" then Some(Email)
    else if f.inputType == "tel" then Some(Phone)
    else FirstKey(Keywords, Accept(SearchString(f)))
  }

  /** `identifyFieldType` as the source writes it. */
  function ClassifyAsWritten(f: Field): (r: Option<Key>)
    ensures f.inputType == "email" ==> r == Some(Email)
    ensures f.inputType == "tel" ==> r == Some(Phone)
    ensures f.inputType != "email" && f.inputType != "tel" ==>
      r == FirstKey(KeywordsAsWritten, AcceptAsWritten(SearchString(f)))
  {
    if f.inputType == "email" then Some(Email)
    else if f.inputType == "tel" then Some(Phone)
    else FirstKey(KeywordsAsWritten, AcceptAsWritten(SearchString(f)))
  }

  /** As written, the refinement never applies: no profile key is called `"name"`, so a
      keyword counts as soon as it occurs. */
  lemma RefinementNeverApplies(search: string, k: Key, keyword: string)
    ensures AcceptAsWritten(search)(k, keyword) == Contains(search, keyword)
  {
    assert KeyName(k) != "name";
  }

  /** The key at position `j` is the first with an accepted keyword. */
  lemma FirstKeyAt(keywords: Key -> seq<string>, accept: (Key, string) -> bool, j: nat)
    requires j < |KeyOrder| && HasKeyword(KeyOrder[j], keywords, accept)
    requires forall i :: 0 <= i < j ==> !HasKeyword(KeyOrder[i], keywords, accept)
    ensures FirstKey(keywords, accept) == Some(KeyOrder[j])
  {
    var r := FirstKey(keywords, accept);
    var m :| 0 <= m < |KeyOrder| && KeyOrder[m] == r.value && HasKeyword(KeyOrder[m], keywords, accept) &&
      forall i :: 0 <= i < m ==> !HasKeyword(KeyOrder[i], keywords, accept);
    assert m == j;
  }

  /** No keyword at all of key `k` occurs in the search string. */
  predicate Absent(search: string, k: Key) {
    forall i :: 0 <= i < |Keywords(k)| ==> !Contains(search, Keywords(k)[i])
  }

  /** A search string that mentions a last or first name and contains the bare `"name"` but
      no first-name or last-name keyword is classified as a full name by the code as written. */
  lemma RefinementMissesPartName(search: string)
    requires MentionsPart(search) && Contains(search, "name")
    requires Absent(search, FirstName) && Absent(search, LastName)
    ensures FirstKey(KeywordsAsWritten, AcceptAsWritten(search)) == Some(FullName)
  {
    var written := AcceptAsWritten(search);
    AbsentNotWritten(search, FirstName);
    AbsentNotWritten(search, LastName);
    assert written(FullName, KeywordsAsWritten(FullName)[2]);
    FullNameThird(KeywordsAsWritten, written);
  }

  /** A full name is found when neither a first nor a last name is. */
  lemma FullNameThird(keywords: Key -> seq<string>, accept: (Key, string) -> bool)
    requires !HasKeyword(FirstName, keywords, accept) && !HasKeyword(LastName, keywords, accept)
    requires HasKeyword(FullName, keywords, accept)
    ensures FirstKey(keywords, accept) == Some(FullName)
  {
    assert KeyOrder[0] == FirstName && KeyOrder[1] == LastName && KeyOrder[2] == FullName;
    FirstKeyAt(keywords, accept, 2);
  }

  /** As written, a key none of whose keywords occurs has no accepted keyword. */
  lemma AbsentNotWritten(search: string, k: Key)
    requires k != Email && Absent(search, k)
    ensures !HasKeyword(k, KeywordsAsWritten, AcceptAsWritten(search))
  {
    var written := AcceptAsWritten(search);
    forall i | 0 <= i < |KeywordsAsWritten(k)|
      ensures !written(k, KeywordsAsWritten(k)[i])
    {
      assert KeywordsAsWritten(k)[i] == Keywords(k)[i];
    }
  }

  /** The same search string is not a full name under the intended refinement. */
  lemma RefinementSkipsPartName(search: string)
    requires MentionsPart(search)
    requires forall i :: 0 <= i < |Keywords(FullName)| && i != 2 ==> !Contains(search, Keywords(FullName)[i])
    ensures FirstKey(Keywords, Accept(search)) != Some(FullName)
  {
    var intended := Accept(search);
    assert Keywords(FullName)[2] == "name";
    assert !HasKeyword(FullName, Keywords, intended);
    assert forall j :: 0 <= j < |KeyOrder| && KeyOrder[j] == FullName ==> j == 2;
  }

  /** With the intended refinement, a search string that mentions a first or last name is a
      full name only through a full-name keyword other than the bare `"name"`. */
  lemma FullNameNeedsFullKeyword(f: Field)
    requires f.inputType != "email" && f.inputType != "tel"
    requires Classify(f) == Some(FullName) && MentionsPart(SearchString(f))
    ensures exists keyword :: keyword in Keywords(FullName) && keyword != "name" && Contains(SearchString(f), keyword)
  {
    var search := SearchString(f);
    var j :| 0 <= j < |KeyOrder| && KeyOrder[j] == FullName && HasKeyword(FullName, Keywords, Accept(search));
    var i :| 0 <= i < |Keywords(FullName)| && Accept(search)(FullName, Keywords(FullName)[i]);
    assert Keywords(FullName)[i] in Keywords(FullName);
  }

  /** As written, the keyword `"e-mail"` can never be found: the search string keeps no
      hyphen. */
  lemma HyphenatedEmailNeverFound(f: Field)
    ensures "e-mail" in KeywordsAsWritten(Email)
    ensures !Contains(SearchString(f), "e-mail")
  {
    if Contains(SearchString(f), "e-mail") {
      assert "e-mail"[1] == '-';
      ContainsChars(SearchString(f), "e-mail", '-');
      SearchStringAlphabet(f, '-');
    }
  }

  /** The spelling `E-mail` of a form becomes `e mail` in the search string, which the
      corrected keyword finds. */
  lemma SpacedEmailFound()
    ensures NormalizeSearch("E-mail") == "e mail"
    ensures "e mail" in Keywords(Email)
    ensures Accept(NormalizeSearch("E-mail"))(Email, "e mail")
  {
    var s := NormalizeSearch("E-mail");
    assert s[0] == 'e' && s[1] == ' ' && s[2] == 'm' && s[3] == 'a' && s[4] == 'i' && s[5] == 'l';
    assert s == "e mail";
    assert StartsWith(s, "e mail");
  }

  /** Every e-mail keyword of either list contains `mail`. */
  lemma MailInside(search: string, keyword: string)
    requires keyword in {"email", "e mail", "e-mail", "mail", "email address"}
    requires Contains(search, keyword)
    ensures Contains(search, "mail")
  {
    var k := if keyword == "mail" then 0 else if keyword == "e mail" || keyword == "e-mail" then 2 else 1;
    assert keyword[k..k + 4] == "mail";
    ContainsInner(search, keyword, "mail", k);
  }

  /** The e-mail key is found, under either list and either refinement, exactly when the
      search string contains `mail`: the misspelt keyword changes nothing. */
  lemma EmailKeywordsAgree(search: string, keywords: Key -> seq<string>, accept: (Key, string) -> bool)
    requires keywords(Email) == Keywords(Email) || keywords(Email) == KeywordsAsWritten(Email)
    requires forall keyword :: keyword != "name" ==> (accept(Email, keyword) <==> Contains(search, keyword))
    ensures HasKeyword(Email, keywords, accept) <==> Contains(search, "mail")
  {
    var list := keywords(Email);
    assert list[2] == "mail";
    if HasKeyword(Email, keywords, accept) {
      var i :| 0 <= i < |list| && accept(Email, list[i]);
      MailInside(search, list[i]);
    }
  }

  /** Tables that agree on which keys are found give the same first key. */
  lemma SameFirstKey(k1: Key -> seq<string>, k2: Key -> seq<string>, accept: (Key, string) -> bool)
    requires forall k :: HasKeyword(k, k1, accept) <==> HasKeyword(k, k2, accept)
    ensures FirstKey(k1, accept) == FirstKey(k2, accept)
  {
    var r1 := FirstKey(k1, accept);
    if r1.Some? {
      var j :| 0 <= j < |KeyOrder| && KeyOrder[j] == r1.value && HasKeyword(KeyOrder[j], k1, accept) &&
        forall i :: 0 <= i < j ==> !HasKeyword(KeyOrder[i], k1, accept);
      FirstKeyAt(k2, accept, j);
    }
  }

  /** The hyphenated keyword is dead but harmless: with either refinement, the table as
      written classifies every search string as the corrected table does. */
  lemma EmailSpellingHarmless(search: string)
    ensures FirstKey(KeywordsAsWritten, AcceptAsWritten(search)) == FirstKey(Keywords, AcceptAsWritten(search))
    ensures FirstKey(KeywordsAsWritten, Accept(search)) == FirstKey(Keywords, Accept(search))
  {
    forall keyword
      ensures AcceptAsWritten(search)(Email, keyword) <==> Contains(search, keyword)
    {
      RefinementNeverApplies(search, Email, keyword);
    }
    EmailKeywordsAgree(search, Keywords, AcceptAsWritten(search));
    EmailKeywordsAgree(search, KeywordsAsWritten, AcceptAsWritten(search));
    EmailKeywordsAgree(search, Keywords, Accept(search));
    EmailKeywordsAgree(search, KeywordsAsWritten, Accept(search));
    forall k: Key
      ensures HasKeyword(k, KeywordsAsWritten, AcceptAsWritten(search)) <==> HasKeyword(k, Keywords, AcceptAsWritten(search))
      ensures HasKeyword(k, KeywordsAsWritten, Accept(search)) <==> HasKeyword(k, Keywords, Accept(search))
    {
      if k != Email {
        assert KeywordsAsWritten(k) == Keywords(k);
      }
    }
    SameFirstKey(KeywordsAsWritten, Keywords, AcceptAsWritten(search));
    SameFirstKey(KeywordsAsWritten, Keywords, Accept(search));
  }

  // ---------------------------------------------------------------------------
  // Drop-downs

  /** Option 0 is a placeholder when its lower-cased text mentions "select" or "choose". */
  predicate IsPlaceholder(options: seq<SelectOption>, i: nat)
    requires i < |options|
  {
    i == 0 && (Contains(LowerAscii(options[i].text), "select") || Contains(LowerAscii(options[i].text), "choose"))
  }

  /** The first pass: option `i` is not a placeholder and its lower-cased value or text
      equals, or its lower-cased text contains, the lower-cased value. */
  predicate Picks(options: seq<SelectOption>, i: nat, lowerValue: string)
    requires i < |options|
  {
    var optText := LowerAscii(options[i].text);
    var optValue := LowerAscii(options[i].value);
    !IsPlaceholder(options, i) && (optValue == lowerValue || optText == lowerValue || Contains(optText, lowerValue))
  }

  /** The country-code pass: the raw text of option `i` contains the raw value. */
  predicate PicksPlus(options: seq<SelectOption>, i: nat, value: string)
    requires i < |options|
  {
    Contains(options[i].text, value)
  }

  function PicksIn(options: seq<SelectOption>, lowerValue: string): nat -> bool {
    (i: nat) => i < |options| && Picks(options, i, lowerValue)
  }

  function PicksPlusIn(options: seq<SelectOption>, value: string): nat -> bool {
    (i: nat) => i < |options| && PicksPlus(options, i, value)
  }

  /** The option `fillSelect` selects for `value`: the first option the first pass picks;
      failing that, when the value starts with `+`, the first option whose text contains it;
      otherwise none. */
  function SelectChoice(options: seq<SelectOption>, value: string): (r: Option<nat>)
    ensures r.Some? ==> r.value < |options|
    ensures (exists i :: 0 <= i < |options| && Picks(options, i, LowerAscii(value))) ==>
      r.Some? && Picks(options, r.value, LowerAscii(value)) &&
      forall i :: 0 <= i < r.value ==> !Picks(options, i, LowerAscii(value))
    ensures (forall i :: 0 <= i < |options| ==> !Picks(options, i, LowerAscii(value))) ==>
      if StartsWith(value, "+") && exists i :: 0 <= i < |options| && PicksPlus(options, i, value) then
        r.Some? && PicksPlus(options, r.value, value) &&
        forall i :: 0 <= i < r.value ==> !PicksPlus(options, i, value)
      else
        r.None?
  {
    var lowerValue := LowerAscii(value);
    var picks := PicksIn(options, lowerValue);
    var k := FirstIndex(|options|, picks, 0);
    assert forall i :: 0 <= i < k ==> !Picks(options, i, lowerValue) by {
      forall i | 0 <= i < k
        ensures !Picks(options, i, lowerValue)
      {
        assert !picks(i);
      }
    }
    if k < |options| then
      assert picks(k);
      Some(k)
    else if StartsWith(value, "+") then
      var plus := PicksPlusIn(options, value);
      var m := FirstIndex(|options|, plus, 0);
      assert forall i :: 0 <= i < m ==> !PicksPlus(options, i, value) by {
        forall i | 0 <= i < m
          ensures !PicksPlus(options, i, value)
        {
          assert !plus(i);
        }
      }
      if m < |options| then
        assert plus(m);
        Some(m)
      else
        None
    else
      None
  }

  /** `fillSelect`: two passes over the options under a `matched` flag; returns the new
      `selectedIndex` (unchanged when nothing matched) and whether an option matched. */
  method FillSelect(options: seq<SelectOption>, selectedIndex: int, value: string) returns (index: int, matched: bool)
    ensures matched <==> SelectChoice(options, value).Some?
    ensures index == if matched then SelectChoice(options, value).value else selectedIndex
  {
    var lowerValue := LowerAscii(value);
    ghost var picks := PicksIn(options, lowerValue);
    ghost var first := FirstIndex(|options|, picks, 0);
    matched := false;
    index := selectedIndex;
    var i := 0;
    while i < |options|
      invariant 0 <= i <= |options|
      invariant matched <==> first < i
      invariant matched ==> index == first
      invariant !matched ==> index == selectedIndex
    {
      if !matched {
        var optText := LowerAscii(options[i].text);
        var optValue := LowerAscii(options[i].value);
        if !(i == 0 && (Contains(optText, "select") || Contains(optText, "choose"))) {
          if optValue == lowerValue || optText == lowerValue || Contains(optText, lowerValue) {
            assert picks(i);
            index := i;
            matched := true;
          }
        } else {
          assert !picks(i);
        }
      }
      i := i + 1;
    }
    if !matched && StartsWith(value, "+") {
      ghost var plus := PicksPlusIn(options, value);
      ghost var second := FirstIndex(|options|, plus, 0);
      i := 0;
      while i < |options|
        invariant 0 <= i <= |options|
        invariant matched <==> second < i
        invariant matched ==> index == second
        invariant !matched ==> index == selectedIndex
      {
        if !matched {
          if Contains(options[i].text, value) {
            assert plus(i);
            index := i;
            matched := true;
          }
        }
        i := i + 1;
      }
    }
  }

  // ---------------------------------------------------------------------------
  // Filling

  /** The control after a fill attempt, and whether the attempt reported success. */
  datatype Outcome = Outcome(field: Field, success: bool)

  /** `fillField`: a drop-down gets the option `fillSelect` chooses and succeeds when one was
      chosen; any other control gets the value and succeeds. */
  function FillOutcome(f: Field, value: string): (r: Outcome)
    ensures !IsSelect(f) ==> r == Outcome(f.(value := value), true)
    ensures IsSelect(f) ==> r.success == SelectChoice(f.options, value).Some?
    ensures IsSelect(f) && r.success ==> r.field == f.(selectedIndex := SelectChoice(f.options, value).value)
    ensures IsSelect(f) && !r.success ==> r.field == f
  {
    if IsSelect(f) then
      var choice := SelectChoice(f.options, value);
      if choice.Some? then Outcome(f.(selectedIndex := choice.value), true) else Outcome(f, false)
    else
      Outcome(f.(value := value), true)
  }

  /** The saved profile, by key. */
  type Profile = map<Key, string>

  /** `profileData[type]` when it is truthy. */
  function ProfileValue(profile: Profile, k: Key): (r: Option<string>)
    ensures r.Some? <==> k in profile && profile[k] != ""
    ensures r.Some? ==> r.value == profile[k]
  {
    if k in profile && profile[k] != "" then Some(profile[k]) else None
  }

  /** What one step of `fillForms` does to one control: a filled control is skipped; an
      unfilled one whose key `identifyFieldType`, as the source writes it, finds and whose
      profile entry is truthy is filled. */
  function Step(f: Field, profile: Profile): (r: Outcome)
    ensures IsFieldFilled(f) ==> r == Outcome(f, false)
    ensures r.success ==>
      !IsFieldFilled(f) && ClassifyAsWritten(f).Some? && ProfileValue(profile, ClassifyAsWritten(f).value).Some?
    ensures !r.success ==> r.field == f
    ensures !IsFieldFilled(f) && ClassifyAsWritten(f).Some? && ProfileValue(profile, ClassifyAsWritten(f).value).Some? ==>
      r == FillOutcome(f, ProfileValue(profile, ClassifyAsWritten(f).value).value)
  {
    if IsFieldFilled(f) then Outcome(f, false)
    else
      match ClassifyAsWritten(f)
      case None => Outcome(f, false)
      case Some(k) =>
        match ProfileValue(profile, k)
        case None => Outcome(f, false)
        case Some(v) => FillOutcome(f, v)
  }

  /** The number of controls of `fields` a pass fills successfully. */
  function CountFilled(fields: seq<Field>, profile: Profile): (n: nat)
    ensures n <= |fields|
    decreases |fields|
  {
    if fields == [] then 0
    else CountFilled(fields[..|fields| - 1], profile) + (if Step(fields[|fields| - 1], profile).success then 1 else 0)
  }

  /** A step never touches a control that is already filled. */
  lemma StepSkipsFilled(f: Field, profile: Profile)
    requires IsFieldFilled(f)
    ensures Step(f, profile) == Outcome(f, false)
  {
  }

  /** A step changes nothing but the text value or the selected index, and only of a
      control it fills successfully. */
  lemma StepChangesOnlyState(f: Field, profile: Profile)
    ensures Step(f, profile).field.(value := f.value, selectedIndex := f.selectedIndex) == f
    ensures !Step(f, profile).success ==> Step(f, profile).field == f
  {
  }

  /** A control that is not a drop-down, is empty, is identified and has a truthy profile
      entry is filled with that entry, and the step succeeds. */
  lemma StepFillsText(f: Field, profile: Profile, k: Key)
    requires !IsSelect(f) && !IsFieldFilled(f)
    requires ClassifyAsWritten(f) == Some(k) && k in profile && profile[k] != ""
    ensures Step(f, profile) == Outcome(f.(value := profile[k]), true)
  {
  }

  /** An empty drop-down that is identified and has a truthy profile entry succeeds exactly
      when `fillSelect` finds an option for the entry, and then selects that option; when
      none is found it keeps its selection and is not counted. */
  lemma StepFillsSelect(f: Field, profile: Profile, k: Key)
    requires IsSelect(f) && !IsFieldFilled(f)
    requires ClassifyAsWritten(f) == Some(k) && k in profile && profile[k] != ""
    ensures Step(f, profile).success <==> SelectChoice(f.options, profile[k]).Some?
    ensures Step(f, profile).field
      == if SelectChoice(f.options, profile[k]).Some? then f.(selectedIndex := SelectChoice(f.options, profile[k]).value) else f
  {
  }

  /** Filling a text control with a value that is not blank leaves it filled, so the next
      pass skips it. */
  lemma StepLeavesTextFilled(f: Field, profile: Profile, k: Key)
    requires !IsSelect(f) && f.inputType != "checkbox" && f.inputType != "radio" && !IsFieldFilled(f)
    requires ClassifyAsWritten(f) == Some(k) && k in profile && Trim(profile[k]) != ""
    ensures IsFieldFilled(Step(f, profile).field)
  {
  }

  /** Classification reads the attributes only, never the state a fill changes; this holds
      of the classifier as written and of the corrected one. */
  lemma ClassifyIgnoresState(f: Field, value: string, index: int)
    ensures ClassifyAsWritten(f.(value := value, selectedIndex := index)) == ClassifyAsWritten(f)
    ensures Classify(f.(value := value, selectedIndex := index)) == Classify(f)
  {
    var g := f.(value := value, selectedIndex := index);
    assert AttributeTexts(g) == AttributeTexts(f);
  }

  /** Running a step again on the control it produced changes nothing more: repeated passes
      over the page settle after the first. */
  lemma StepIdempotent(f: Field, profile: Profile)
    ensures Step(Step(f, profile).field, profile).field == Step(f, profile).field
  {
    var g := Step(f, profile).field;
    ClassifyIgnoresState(f, g.value, g.selectedIndex);
    StepChangesOnlyState(f, profile);
    assert g == f.(value := g.value, selectedIndex := g.selectedIndex);
  }

  /** `fillField` on control `i`: the array gets the outcome's control, and the result is
      its success. */
  method FillField(fields: array<Field>, i: nat, value: string) returns (success: bool)
    requires i < fields.Length
    modifies fields
    ensures fields[..] == old(fields[..])[i := FillOutcome(old(fields[i]), value).field]
    ensures success == FillOutcome(old(fields[i]), value).success
  {
    var f := fields[i];
    if f.tagName == "SELECT" {
      var index, matched := FillSelect(f.options, f.selectedIndex, value);
      if matched {
        fields[i] := f.(selectedIndex := index);
      }
      success := matched;
    } else {
      fields[i] := f.(value := value);
      success := true;
    }
  }

  /** One turn of the loop of `fillForms` on control `i`: skip it when it is filled, else
      identify it and fill it with its truthy profile entry. */
  method StepField(fields: array<Field>, i: nat, profile: Profile) returns (success: bool)
    requires i < fields.Length
    modifies fields
    ensures fields[..] == old(fields[..])[i := Step(old(fields[i]), profile).field]
    ensures success == Step(old(fields[i]), profile).success
  {
    var f := fields[i];
    success := false;
    if !IsFieldFilled(f) {
      var t := ClassifyAsWritten(f);
      if t.Some? && ProfileValue(profile, t.value).Some? {
        success := FillField(fields, i, ProfileValue(profile, t.value).value);
      }
    }
  }

  /** `fillForms`: nothing happens without a profile; otherwise every control is stepped in
      page order, and the count is the number of successful fills. */
  method FillForms(fields: array<Field>, profile: Option<Profile>) returns (filledCount: nat)
    modifies fields
    ensures profile.None? ==> fields[..] == old(fields[..]) && filledCount == 0
    ensures profile.Some? ==> forall j :: 0 <= j < fields.Length ==> fields[j] == Step(old(fields[j]), profile.value).field
    ensures profile.Some? ==> filledCount == CountFilled(old(fields[..]), profile.value)
  {
    filledCount := 0;
    if profile.None? {
      return;
    }
    var p := profile.value;
    ghost var before := fields[..];
    var i := 0;
    while i < fields.Length
      invariant 0 <= i <= fields.Length
      invariant forall j :: 0 <= j < i ==> fields[j] == Step(before[j], p).field
      invariant forall j :: i <= j < fields.Length ==> fields[j] == before[j]
      invariant filledCount == CountFilled(before[..i], p)
    {
      CountFilledNext(before, i, p);
      var success := StepField(fields, i, p);
      if success {
        filledCount := filledCount + 1;
      }
      i := i + 1;
    }
    assert before[..fields.Length] == before;
  }

  /** Counting one more control adds one exactly when its step succeeds. */
  lemma CountFilledNext(fields: seq<Field>, i: nat, profile: Profile)
    requires i < |fields|
    ensures CountFilled(fields[..i + 1], profile) ==
      CountFilled(fields[..i], profile) + (if Step(fields[i], profile).success then 1 else 0)
  {
    assert fields[..i + 1][..i] == fields[..i];
    assert fields[..i + 1][i] == fields[i];
  }

  /** The `trigger_fill` message runs a pass and answers with the status `done`; any other
      message is ignored. */
  method HandleMessage(action: string, fields: array<Field>, profile: Option<Profile>) returns (status: Option<string>)
    modifies fields
    ensures action == "trigger_fill" ==> status == Some("done")
    ensures action != "trigger_fill" ==> status.None? && fields[..] == old(fields[..])
    ensures action == "trigger_fill" && profile.None? ==> fields[..] == old(fields[..])
    ensures action == "trigger_fill" && profile.Some? ==>
      forall j :: 0 <= j < fields.Length ==> fields[j] == Step(old(fields[j]), profile.value).field
  {
    if action == "trigger_fill" {
      var _ := FillForms(fields, profile);
      status := Some("done");
    } else {
      status := None;
    }
  }

  /** `init`: the profile is used unless filling is switched off with an explicit `false`. */
  function LoadProfile(enabled: Option<bool>, stored: Option<Profile>): (r: Option<Profile>)
    ensures r.Some? <==> enabled != Some(false) && stored.Some?
    ensures r.Some? ==> r == stored
  {
    if enabled != Some(false) && stored.Some? then stored else None
  }
}
