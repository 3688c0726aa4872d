/**
 * The settings page of the job-match scorer: which of the models the Gemini API lists are
 * offered and in what order, how a model becomes an option of the drop-down, how the
 * saved model is kept selectable, and what the page stores.
 */
module ModelSettings {
  import opened Wrappers
  import opened JsString
  import Matcher

  // ---------------------------------------------------------------------------
  // Listing the models

  /** A model as the model list of the API describes it: its `name` (`models/<id>`), its
      `displayName` and its `supportedGenerationMethods` (each absent when missing). */
  datatype ApiModel = ApiModel(name: string, displayName: Option<string>, methods: Option<seq<string>>)

  /** A model is offered when it supports `generateContent` and its name mentions `gemini`. */
  predicate Offered(m: ApiModel) {
    m.methods.Some? && "generateContent" in m.methods.value && Contains(m.name, "gemini")
  }

  /** The offered models, in list order. */
  function Kept(models: seq<ApiModel>): (r: seq<ApiModel>)
    ensures |r| <= |models|
    ensures forall m :: m in r <==> m in models && Offered(m)
    decreases |models|
  {
    if models == [] then []
    else
      var last := models[|models| - 1];
      Kept(models[..|models| - 1]) + (if Offered(last) then [last] else [])
  }

  /** Filtering keeps the list order: the filter of a concatenation is the concatenation of
      the filters. */
  lemma {:induction false} KeptAppend(a: seq<ApiModel>, b: seq<ApiModel>)
    ensures Kept(a + b) == Kept(a) + Kept(b)
    decreases |b|
  {
    if b != [] {
      var n := |b|;
      assert (a + b)[..|a + b| - 1] == a + b[..n - 1];
      var last := b[n - 1];
      assert (a + b)[|a + b| - 1] == last;
      KeptAppend(a, b[..n - 1]);
      var tail := if Offered(last) then [last] else [];
      assert Kept(a + b) == Kept(a) + Kept(b[..n - 1]) + tail;
      assert Kept(b) == Kept(b[..n - 1]) + tail;
    } else {
      assert a + b == a;
    }
  }

  /** `(data.models || []).filter(...)`: a missing list is an empty one. */
  function OfferedModels(listed: Option<seq<ApiModel>>): (r: seq<ApiModel>)
    ensures listed.None? ==> r == []
    ensures forall m :: m in r <==> listed.Some? && m in listed.value && Offered(m)
  {
    Kept(listed.GetOr([]))
  }

  /** `localeCompare` as an order on names: `precedes(a, b)` when `a` collates before `b`.
      The collation is a strict weak order: never both ways, and when `a` precedes `c` any
      `b` follows `a` or precedes `c`. */
  ghost predicate Collation(precedes: (string, string) -> bool) {
    (forall a, b :: precedes(a, b) ==> !precedes(b, a))
    && (forall a, b, c :: precedes(a, c) ==> precedes(a, b) || precedes(b, c))
  }

  /** Names descend: no model's name collates before the name of a model listed later. */
  ghost predicate Descending(models: seq<ApiModel>, precedes: (string, string) -> bool) {
    forall i, j :: 0 <= i < j < |models| ==> !precedes(models[i].name, models[j].name)
  }

  /** Places `m` into a descending list, after the models whose names it collates before and
      in front of the rest. */
  function Insert(m: ApiModel, sorted: seq<ApiModel>, precedes: (string, string) -> bool): (r: seq<ApiModel>)
    ensures multiset(r) == multiset(sorted) + multiset{m}
    decreases |sorted|
  {
    if sorted == [] then [m]
    else if !precedes(m.name, sorted[0].name) then [m] + sorted
    else
      assert sorted == [sorted[0]] + sorted[1..];
      [sorted[0]] + Insert(m, sorted[1..], precedes)
  }

  /** How many leading models of `sorted` have names that `m`'s collates before. */
  function Place(m: ApiModel, sorted: seq<ApiModel>, precedes: (string, string) -> bool): (k: nat)
    ensures k <= |sorted|
    ensures forall i :: 0 <= i < k ==> precedes(m.name, sorted[i].name)
    ensures k < |sorted| ==> !precedes(m.name, sorted[k].name)
    decreases |sorted|
  {
    if sorted == [] || !precedes(m.name, sorted[0].name) then 0
    else 1 + Place(m, sorted[1..], precedes)
  }

  /** `m` lands right after the models whose names it collates before, and so in front of
      every model whose name collates equal to its own: the insertion keeps ties in their
      input order, as the stable `Array.prototype.sort` does. */
  lemma {:induction false} InsertPlace(m: ApiModel, sorted: seq<ApiModel>, precedes: (string, string) -> bool)
    ensures var k := Place(m, sorted, precedes);
      Insert(m, sorted, precedes) == sorted[..k] + [m] + sorted[k..]
    decreases |sorted|
  {
    if sorted == [] || !precedes(m.name, sorted[0].name) {
      assert Place(m, sorted, precedes) == 0;
      assert Insert(m, sorted, precedes) == [m] + sorted;
      assert sorted[..0] + [m] + sorted[0..] == [m] + sorted;
    } else {
      var rest := sorted[1..];
      InsertPlace(m, rest, precedes);
      var k := Place(m, rest, precedes);
      assert Place(m, sorted, precedes) == k + 1;
      assert Insert(m, sorted, precedes) == [sorted[0]] + Insert(m, rest, precedes);
      ConsSplit(sorted, k, m);
    }
  }

  lemma ConsSplit<T>(s: seq<T>, k: nat, x: T)
    requires k < |s|
    ensures [s[0]] + (s[1..][..k] + [x] + s[1..][k..]) == s[..k + 1] + [x] + s[k + 1..]
  {
    assert s[..k + 1] == [s[0]] + s[1..][..k];
    assert s[k + 1..] == s[1..][k..];
  }

  /** A model whose name does not collate before the head of a descending list can go in
      front of it. */
  lemma InsertFront(m: ApiModel, sorted: seq<ApiModel>, precedes: (string, string) -> bool)
    requires Collation(precedes) && Descending(sorted, precedes)
    requires sorted != [] && !precedes(m.name, sorted[0].name)
    ensures Descending([m] + sorted, precedes)
  {
    var r := [m] + sorted;
    forall j | 1 <= j < |r|
      ensures !precedes(m.name, r[j].name)
    {
      assert r[j] == sorted[j - 1];
      if j > 1 {
        assert !precedes(sorted[0].name, sorted[j - 1].name);
        NotBeforeEither(precedes, m.name, sorted[0].name, sorted[j - 1].name);
      }
    }
    forall i, j | 1 <= i < j < |r|
      ensures !precedes(r[i].name, r[j].name)
    {
      assert r[i] == sorted[i - 1] && r[j] == sorted[j - 1];
    }
  }

  /** In a strict weak order, what precedes neither of two names in a row precedes neither
      the second. */
  lemma NotBeforeEither(precedes: (string, string) -> bool, a: string, b: string, c: string)
    requires Collation(precedes) && !precedes(a, b) && !precedes(b, c)
    ensures !precedes(a, c)
  {
  }

  /** A head that no element of the rest follows stays in front. */
  lemma KeepHead(h: ApiModel, tail: seq<ApiModel>, precedes: (string, string) -> bool)
    requires Descending(tail, precedes)
    requires forall x :: x in multiset(tail) ==> !precedes(h.name, x.name)
    ensures Descending([h] + tail, precedes)
  {
    var r := [h] + tail;
    forall i, j | 0 <= i < j < |r|
      ensures !precedes(r[i].name, r[j].name)
    {
      assert r[j] == tail[j - 1];
      assert tail[j - 1] in multiset(tail);
      if i > 0 {
        assert r[i] == tail[i - 1];
      }
    }
  }

  lemma {:induction false} InsertDescending(m: ApiModel, sorted: seq<ApiModel>, precedes: (string, string) -> bool)
    requires Collation(precedes) && Descending(sorted, precedes)
    ensures Descending(Insert(m, sorted, precedes), precedes)
    decreases |sorted|
  {
    if sorted != [] {
      if !precedes(m.name, sorted[0].name) {
        InsertFront(m, sorted, precedes);
      } else {
        var rest := sorted[1..];
        assert Descending(rest, precedes);
        InsertDescending(m, rest, precedes);
        var tail := Insert(m, rest, precedes);
        forall x: ApiModel | x in multiset(tail)
          ensures !precedes(sorted[0].name, x.name)
        {
          if x == m {
            assert !precedes(sorted[0].name, m.name);
          } else {
            assert x in rest;
            var k :| 0 <= k < |rest| && rest[k] == x;
            assert sorted[k + 1] == rest[k];
          }
        }
        KeepHead(sorted[0], tail, precedes);
      }
    }
  }

  /** `models.sort((a, b) => b.name.localeCompare(a.name))`, as an insertion sort. */
  function SortDescending(models: seq<ApiModel>, precedes: (string, string) -> bool): (r: seq<ApiModel>)
    ensures multiset(r) == multiset(models)
    decreases |models|
  {
    if models == [] then []
    else
      assert models == [models[0]] + models[1..];
      Insert(models[0], SortDescending(models[1..], precedes), precedes)
  }

  /** The sort gives names in descending order. */
  lemma {:induction false} SortDescendingSorted(models: seq<ApiModel>, precedes: (string, string) -> bool)
    requires Collation(precedes)
    ensures Descending(SortDescending(models, precedes), precedes)
    decreases |models|
  {
    if models != [] {
      SortDescendingSorted(models[1..], precedes);
      InsertDescending(models[0], SortDescending(models[1..], precedes), precedes);
    }
  }

  /** The models the page offers after a fetch: the offered ones, newest name first, and
      exactly those. */
  lemma FetchedModels(listed: Option<seq<ApiModel>>, precedes: (string, string) -> bool)
    requires Collation(precedes)
    ensures Descending(SortDescending(OfferedModels(listed), precedes), precedes)
    ensures multiset(SortDescending(OfferedModels(listed), precedes)) == multiset(OfferedModels(listed))
    ensures forall m :: m in SortDescending(OfferedModels(listed), precedes) <==>
      listed.Some? && m in listed.value && Offered(m)
  {
    var offered := OfferedModels(listed);
    var sorted := SortDescending(offered, precedes);
    SortDescendingSorted(offered, precedes);
    forall m
      ensures m in sorted <==> m in offered
    {
      assert m in sorted <==> m in multiset(sorted);
      assert m in offered <==> m in multiset(offered);
    }
  }

  // ---------------------------------------------------------------------------
  // Options of the drop-down

  /** An `<option>` of the model drop-down: its value and its text. */
  datatype ModelOption = ModelOption(value: string, text: string)

  const ModelsPrefix := "models/"

  /** The option for a model: the value is the name with its first `models/` removed, the
      text is the display name when it is not empty, and the value otherwise. */
  function OptionFor(m: ApiModel): (o: ModelOption)
    ensures Truthy(m.displayName) ==> o.text == m.displayName.value
    ensures !Truthy(m.displayName) ==> o.text == o.value
    ensures !Contains(m.name, ModelsPrefix) ==> o.value == m.name
  {
    var value := ReplaceFirst(m.name, ModelsPrefix, "");
    ModelOption(value, if Truthy(m.displayName) then m.displayName.value else value)
  }

  /** A name `models/<id>` gives the option value `<id>`. */
  lemma OptionValueOfName(id: string, displayName: Option<string>, methods: Option<seq<string>>)
    ensures OptionFor(ApiModel(ModelsPrefix + id, displayName, methods)).value == id
  {
    var name := ModelsPrefix + id;
    IndexOfSeqAt([], ModelsPrefix, id);
    assert [] + ModelsPrefix + id == name;
    assert name[..0] == [];
    assert name[|ModelsPrefix|..] == id;
  }

  function Options(models: seq<ApiModel>): (r: seq<ModelOption>)
    ensures |r| == |models|
    ensures forall i :: 0 <= i < |models| ==> r[i] == OptionFor(models[i])
  {
    seq(|models|, i requires 0 <= i < |models| => OptionFor(models[i]))
  }

  /** The loop of `populateModelSelect` that appends one option per model. */
  method OptionsLoop(models: seq<ApiModel>) returns (filled: seq<ModelOption>)
    ensures filled == Options(models)
  {
    filled := [];
    var i := 0;
    while i < |models|
      invariant 0 <= i <= |models|
      invariant |filled| == i
      invariant forall j :: 0 <= j < i ==> filled[j] == OptionFor(models[j])
    {
      filled := filled + [OptionFor(models[i])];
      i := i + 1;
    }
  }

  /** `modelExists`: some option has exactly this value. */
  predicate ModelExists(options: seq<ModelOption>, value: string) {
    exists i :: 0 <= i < |options| && options[i].value == value
  }

  /** The value a freshly filled drop-down shows: its first option, or the preferred model
      when the first option's value is empty and the preferred model is offered. */
  function FilledSelection(options: seq<ModelOption>): (r: string)
    ensures options != [] && options[0].value != "" ==> r == options[0].value
    ensures r != "" ==> ModelExists(options, r)
  {
    var first := if options != [] then options[0].value else "";
    if first == "" && ModelExists(options, Matcher.DefaultModel) then Matcher.DefaultModel else first
  }

  /** Offered models never give the preferred-model fallback a chance: their option values
      are never empty, so the first option stays selected. */
  lemma OfferedSelectsFirst(models: seq<ApiModel>)
    requires models != [] && Offered(models[0])
    ensures FilledSelection(Options(models)) == Options(models)[0].value
  {
    var name := models[0].name;
    var value := Options(models)[0].value;
    assert "gemini"[0] == 'g';
    ContainsChars(name, "gemini", 'g');
    assert 'g' !in ModelsPrefix;
    var i := IndexOfSeq(name, ModelsPrefix);
    if i >= 0 {
      assert value == name[..i] + Substitution("", ModelsPrefix, name[..i], name[i + |ModelsPrefix|..]) + name[i + |ModelsPrefix|..];
      assert value == "" ==> name == ModelsPrefix;
    }
  }

  /** The options after the saved model is restored: when the saved model is set and no
      option carries it, an option `<model> (Saved)` is appended. */
  function WithSaved(options: seq<ModelOption>, saved: Option<string>): (r: seq<ModelOption>)
    ensures Truthy(saved) ==> ModelExists(r, saved.value)
    ensures |options| <= |r| <= |options| + 1 && r[..|options|] == options
    ensures |r| == |options| + 1 <==> Truthy(saved) && !ModelExists(options, saved.value)
    ensures |r| == |options| + 1 ==> r[|options|] == ModelOption(saved.value, saved.value + " (Saved)")
  {
    if Truthy(saved) && !ModelExists(options, saved.value) then
      var r := options + [ModelOption(saved.value, saved.value + " (Saved)")];
      assert r[|options|].value == saved.value;
      r
    else
      options
  }

  /** Restoring the same saved model twice appends nothing the second time. */
  lemma WithSavedIdempotent(options: seq<ModelOption>, saved: Option<string>)
    ensures WithSaved(WithSaved(options, saved), saved) == WithSaved(options, saved)
  {
  }

  // ---------------------------------------------------------------------------
  // The page

  /** What the page finds in storage. */
  datatype Stored = Stored(geminiApiKey: Option<string>, userResume: Option<string>,
                           selectedModel: Option<string>, cachedModels: Option<seq<ApiModel>>)

  /** What the page saves. */
  datatype Saved = Saved(geminiApiKey: string, userResume: string, selectedModel: string)

  /** The answer of the model-list endpoint: whether it succeeded, the message of its error
      body, and the listed models. */
  datatype ModelsReply = ModelsReply(ok: bool, errorMessage: Option<string>, models: Option<seq<ApiModel>>)

  const ModelsUrl := "https://generativelanguage.googleapis.com/v1beta/models?key="
  const MissingKeyAlert := "Please enter a Gemini API Key first."
  const FetchFailed := "Failed to fetch models"

  /** An input after loading: the stored value when it is set, else what it held. */
  function Restored(stored: Option<string>, current: string): (r: string)
    ensures Truthy(stored) ==> r == stored.value
    ensures !Truthy(stored) ==> r == current
  {
    if Truthy(stored) then stored.value else current
  }

  /** Saving, reloading into an empty page and saving again stores the same key and
      résumé. */
  lemma SaveReloadSave(input: string)
    ensures Trim(Restored(Some(Trim(input)), "")) == Trim(input)
  {
    var t := Trim(input);
    if t == "" {
      assert Restored(Some(t), "") == "";
    } else {
      assert Restored(Some(t), "") == t;
      TrimClean(t);
    }
  }

  /** The message after an unsuccessful fetch. */
  function FetchError(reply: ModelsReply): (r: string)
    ensures Truthy(reply.errorMessage) ==> r == "Error fetching models: " + reply.errorMessage.value
    ensures !Truthy(reply.errorMessage) ==> r == "Error fetching models: " + FetchFailed
  {
    "Error fetching models: " + (if Truthy(reply.errorMessage) then reply.errorMessage.value else FetchFailed)
  }

  class SettingsPage {
    var apiKeyInput: string
    var resumeInput: string
    var options: seq<ModelOption>
    /** `modelSelect.value` */
    var selected: string

    constructor ()
      ensures apiKeyInput == "" && resumeInput == "" && options == [] && selected == ""
    {
      apiKeyInput := "";
      resumeInput := "";
      options := [];
      selected := "";
    }

    /** `populateModelSelect`: the options are replaced by one per model, in order. */
    method PopulateModelSelect(models: seq<ApiModel>)
      modifies this
      ensures options == Options(models)
      ensures selected == FilledSelection(Options(models))
      ensures apiKeyInput == old(apiKeyInput) && resumeInput == old(resumeInput)
    {
      var filled := OptionsLoop(models);
      options := filled;
      selected := FilledSelection(filled);
    }

    /** The load callback: stored key and résumé fill their inputs, cached models fill the
        drop-down, and a stored model is restored and selected. */
    method Load(stored: Stored)
      modifies this
      ensures apiKeyInput == Restored(stored.geminiApiKey, old(apiKeyInput))
      ensures resumeInput == Restored(stored.userResume, old(resumeInput))
      ensures var cached := stored.cachedModels.Some? && stored.cachedModels.value != [];
        var base := if cached then Options(stored.cachedModels.value) else old(options);
        options == WithSaved(base, stored.selectedModel) &&
        selected == if Truthy(stored.selectedModel) then stored.selectedModel.value
                    else if cached then FilledSelection(base) else old(selected)
    {
      if Truthy(stored.geminiApiKey) {
        apiKeyInput := stored.geminiApiKey.value;
      }
      if Truthy(stored.userResume) {
        resumeInput := stored.userResume.value;
      }
      if stored.cachedModels.Some? && |stored.cachedModels.value| > 0 {
        PopulateModelSelect(stored.cachedModels.value);
      }
      if Truthy(stored.selectedModel) {
        var model := stored.selectedModel.value;
        if !ModelExists(options, model) {
          options := options + [ModelOption(model, model + " (Saved)")];
        }
        selected := model;
      }
    }

    /** The fetch button. An empty trimmed key gets an alert and no request; otherwise the
        request URL carries the key, a failed reply is reported, and a good one fills the
        drop-down with the offered models, newest first, which are also returned for the
        cache. */
    method FetchModels(reply: ModelsReply, precedes: (string, string) -> bool)
      returns (request: Option<string>, alertText: string, cached: Option<seq<ApiModel>>)
      modifies this
      ensures Trim(old(apiKeyInput)) == "" ==>
        request.None? && alertText == MissingKeyAlert && cached.None? && options == old(options) && selected == old(selected)
      ensures Trim(old(apiKeyInput)) != "" ==> request == Some(ModelsUrl + Trim(old(apiKeyInput)))
      ensures Trim(old(apiKeyInput)) != "" && !reply.ok ==>
        alertText == FetchError(reply) && cached.None? && options == old(options) && selected == old(selected)
      ensures Trim(old(apiKeyInput)) != "" && reply.ok ==>
        var models := SortDescending(OfferedModels(reply.models), precedes);
        cached == Some(models) && options == Options(models) && selected == FilledSelection(Options(models)) &&
        alertText == "Loaded " + NatToDecimal(|models|) + " models."
      ensures apiKeyInput == old(apiKeyInput) && resumeInput == old(resumeInput)
    {
      var apiKey := Trim(apiKeyInput);
      cached := None;
      if apiKey == "" {
        request := None;
        alertText := MissingKeyAlert;
        return;
      }
      request := Some(ModelsUrl + apiKey);
      if !reply.ok {
        alertText := FetchError(reply);
        return;
      }
      var models := SortDescending(OfferedModels(reply.models), precedes);
      PopulateModelSelect(models);
      cached := Some(models);
      alertText := "Loaded " + NatToDecimal(|models|) + " models.";
    }

    /** The submit handler: the key and résumé are stored trimmed, the model as selected. */
    method Save() returns (saved: Saved)
      ensures saved.geminiApiKey == Trim(apiKeyInput) && saved.userResume == Trim(resumeInput)
      ensures saved.selectedModel == selected
    {
      saved := Saved(Trim(apiKeyInput), Trim(resumeInput), selected);
    }
  }
}
