/**
 * The popup: PSM suggestions while typing, the initial variable selection,
 * the variable pickers of each platform, and the jump that builds the URL
 * and records the PSM in the history.
 */
module Popup {
  import opened Wrappers
  import opened Strings
  import opened Seqs
  import opened Records
  import opened Types
  import Templates
  import Navigator
  import Storage

  // ---------------------------------------------------------------------
  // suggestions

  /** The most suggestions shown. */
  const MaxSuggestions: nat := 5

  /** `p` contains the input, ignoring case, and is not the input itself, ignoring case. */
  predicate IsSuggestion(p: string, input: string) {
    Suggests(p, ToLower(input))
  }

  /** `p`, lower-cased, contains `lowered` and is not equal to it. */
  predicate Suggests(p: string, lowered: string) {
    Occurs(ToLower(p), lowered) && ToLower(p) != lowered
  }

  /**
   * The suggestion effect: nothing before the settings are loaded or while
   * the input is empty; otherwise the first five known PSMs that suggest
   * themselves for the input, in list order.
   */
  function Suggestions(settings: Option<AppSettings>, input: string): (r: seq<string>)
    ensures settings.None? || input == [] ==> r == []
    ensures |r| <= MaxSuggestions
    ensures forall i :: 0 <= i < |r| ==> IsSuggestion(r[i], input)
    ensures settings.Some? ==> IsSubseq(r, settings.value.predefinedPsms)
    ensures settings.Some? && input != [] && |r| < MaxSuggestions ==>
      forall p :: p in settings.value.predefinedPsms && IsSuggestion(p, input) ==> p in r
  {
    if settings.None? || input == [] then []
    else
      var lowered := ToLower(input);
      var matches := Filter((p: string) => Suggests(p, lowered), settings.value.predefinedPsms);
      var r := Take(matches, MaxSuggestions);
      PrefixIsSubseq(matches, |r|);
      SubseqTrans(r, matches, settings.value.predefinedPsms);
      forall i | 0 <= i < |r| ensures IsSuggestion(r[i], input) {
        assert r[i] in matches;
      }
      r
  }

  /** Suggestions are case-insensitive: the case of the input does not matter. */
  lemma SuggestionsIgnoreCase(settings: Option<AppSettings>, a: string, b: string)
    requires ToLower(a) == ToLower(b)
    ensures Suggestions(settings, a) == Suggestions(settings, b)
  {
    assert |b| == |ToLower(b)| == |ToLower(a)| == |a|;
  }

  /** A single known PSM is suggested exactly when it matches a non-empty input. */
  lemma SuggestionsOne(s: AppSettings, p: string, input: string)
    ensures Suggestions(Some(s.(predefinedPsms := [p])), input) ==
      if input != [] && IsSuggestion(p, input) then [p] else []
  {
    if input != [] {
      var lowered := ToLower(input);
      FilterCons((q: string) => Suggests(q, lowered), p, []);
    }
  }

  /**
   * The suggestions for a list are cut from those of its parts, in order:
   * for `a + b`, the first five of the suggestions for `a` followed by those
   * for `b`. With `SuggestionsOne` this fixes which PSMs are shown: the
   * first five matches in list order.
   */
  lemma SuggestionsAppend(s: AppSettings, a: seq<string>, b: seq<string>, input: string)
    ensures Suggestions(Some(s.(predefinedPsms := a + b)), input) ==
      Take(Suggestions(Some(s.(predefinedPsms := a)), input) +
           Suggestions(Some(s.(predefinedPsms := b)), input), MaxSuggestions)
  {
    if input != [] {
      var lowered := ToLower(input);
      var f := (q: string) => Suggests(q, lowered);
      FilterAppend(f, a, b);
      TakeAppend(Filter(f, a), Filter(f, b), MaxSuggestions);
    }
  }

  /** Once five PSMs are suggested, PSMs added further down the list change nothing. */
  lemma SuggestionsFull(s: AppSettings, b: seq<string>, input: string)
    ensures |Suggestions(Some(s), input)| == MaxSuggestions ==>
      Suggestions(Some(s.(predefinedPsms := s.predefinedPsms + b)), input) == Suggestions(Some(s), input)
  {
    var r := Suggestions(Some(s), input);
    if |r| == MaxSuggestions {
      assert s.(predefinedPsms := s.predefinedPsms) == s;
      SuggestionsAppend(s, s.predefinedPsms, b, input);
      assert (r + Suggestions(Some(s.(predefinedPsms := b)), input))[..MaxSuggestions] == r;
    }
  }

  // ---------------------------------------------------------------------
  // initial selection

  /**
   * What a variable starts out selected to: its default when that is not
   * empty, otherwise the text of its first value, nothing without values.
   */
  function Choice(v: VariableConfig): Option<string> {
    if v.defaultValue.Some? && v.defaultValue.value != [] then v.defaultValue
    else if v.values == [] then None
    else Some(v.values[0].value)
  }

  /** The selection record `loadSettings` builds, one variable after another. */
  function Selection(vars: seq<VariableConfig>): (sel: Entries<string>)
    ensures DistinctKeys(sel)
    decreases |vars|
  {
    if vars == [] then []
    else
      var prev := Selection(vars[..|vars| - 1]);
      var v := vars[|vars| - 1];
      match Choice(v)
      case None => prev
      case Some(x) =>
        PutDistinct(prev, v.name, x);
        Put(prev, v.name, x)
  }

  /** `loadSettings`' loop over the variables, filling the selection record in place. */
  method InitialSelection(vars: seq<VariableConfig>) returns (sel: Entries<string>)
    ensures sel == Selection(vars)
  {
    sel := [];
    for i := 0 to |vars|
      invariant sel == Selection(vars[..i])
    {
      assert vars[..i + 1][..i] == vars[..i];
      var v := vars[i];
      var choice := Choice(v);
      if choice.Some? {
        sel := Put(sel, v.name, choice.value);
      }
    }
    assert vars[..|vars|] == vars;
  }

  /** The names of the variables are pairwise distinct. */
  predicate DistinctNames(vars: seq<VariableConfig>) {
    forall i, j :: 0 <= i < j < |vars| ==> vars[i].name != vars[j].name
  }

  /**
   * With distinct names, each variable's entry is its choice, and no other
   * name has an entry.
   */
  lemma {:induction false} SelectionLookup(vars: seq<VariableConfig>, n: string)
    requires DistinctNames(vars)
    ensures forall i :: 0 <= i < |vars| && vars[i].name == n ==> Lookup(Selection(vars), n) == Choice(vars[i])
    ensures (forall i :: 0 <= i < |vars| ==> vars[i].name != n) ==> Lookup(Selection(vars), n) == None
    decreases |vars|
  {
    if vars != [] {
      var p := vars[..|vars| - 1];
      var v := vars[|vars| - 1];
      SelectionLookup(p, n);
      if Choice(v).Some? {
        PutLookup(Selection(p), v.name, Choice(v).value, n);
      }
      forall i | 0 <= i < |vars| && vars[i].name == n ensures Lookup(Selection(vars), n) == Choice(vars[i]) {
        if i < |vars| - 1 {
          assert p[i] == vars[i];
        }
      }
      forall i | 0 <= i < |p| ensures p[i] == vars[i] {
      }
    }
  }

  /**
   * The choice of the last variable named `n` that has one, `None` when no
   * variable named `n` has a choice.
   */
  function LastChoice(vars: seq<VariableConfig>, n: string): (r: Option<string>)
    ensures r.None? <==> forall i :: 0 <= i < |vars| && vars[i].name == n ==> Choice(vars[i]).None?
    ensures r.Some? ==> exists i :: (0 <= i < |vars| && vars[i].name == n && Choice(vars[i]) == r &&
      forall j :: i < j < |vars| && vars[j].name == n ==> Choice(vars[j]).None?)
    decreases |vars|
  {
    if vars == [] then None
    else
      var k := |vars| - 1;
      if vars[k].name == n && Choice(vars[k]).Some? then
        Choice(vars[k])
      else
        var r := LastChoice(vars[..k], n);
        LastChoiceShift(vars, n, r);
        r
  }

  /** With no choice for `n` at the end, a last choice among the others is the last choice of all. */
  lemma LastChoiceShift(vars: seq<VariableConfig>, n: string, r: Option<string>)
    requires vars != [] && !(vars[|vars| - 1].name == n && Choice(vars[|vars| - 1]).Some?)
    requires var p := vars[..|vars| - 1];
      r.None? <==> forall i :: 0 <= i < |p| && p[i].name == n ==> Choice(p[i]).None?
    requires var p := vars[..|vars| - 1];
      r.Some? ==> exists i :: (0 <= i < |p| && p[i].name == n && Choice(p[i]) == r &&
        forall j :: i < j < |p| && p[j].name == n ==> Choice(p[j]).None?)
    ensures r.None? <==> forall i :: 0 <= i < |vars| && vars[i].name == n ==> Choice(vars[i]).None?
    ensures r.Some? ==> exists i :: (0 <= i < |vars| && vars[i].name == n && Choice(vars[i]) == r &&
      forall j :: i < j < |vars| && vars[j].name == n ==> Choice(vars[j]).None?)
  {
    NoneShift(vars, vars[..|vars| - 1], n);
    if r.Some? {
      var p := vars[..|vars| - 1];
      var i :| 0 <= i < |p| && p[i].name == n && Choice(p[i]) == r &&
        forall j :: i < j < |p| && p[j].name == n ==> Choice(p[j]).None?;
      SomeShift(vars, n, r, i);
    }
  }

  /** No choice for `n` among all but the last, and none at the last, is none at all. */
  lemma NoneShift(vars: seq<VariableConfig>, p: seq<VariableConfig>, n: string)
    requires vars != [] && p == vars[..|vars| - 1]
    requires !(vars[|vars| - 1].name == n && Choice(vars[|vars| - 1]).Some?)
    ensures (forall i :: 0 <= i < |p| && p[i].name == n ==> Choice(p[i]).None?)
        <==> (forall i :: 0 <= i < |vars| && vars[i].name == n ==> Choice(vars[i]).None?)
  {
    assert forall i :: 0 <= i < |p| ==> p[i] == vars[i];
  }

  /** The witness for the last choice among all but the last is a witness for all. */
  lemma SomeShift(vars: seq<VariableConfig>, n: string, r: Option<string>, i: nat)
    requires vars != [] && !(vars[|vars| - 1].name == n && Choice(vars[|vars| - 1]).Some?)
    requires var p := vars[..|vars| - 1];
      i < |p| && p[i].name == n && Choice(p[i]) == r &&
      forall j :: i < j < |p| && p[j].name == n ==> Choice(p[j]).None?
    ensures vars[i].name == n && Choice(vars[i]) == r
    ensures forall j :: i < j < |vars| && vars[j].name == n ==> Choice(vars[j]).None?
  {
    assert forall j :: 0 <= j < |vars| - 1 ==> vars[..|vars| - 1][j] == vars[j];
  }

  /**
   * For any variable list, names shared or not, a name's entry is the
   * choice of the last variable with that name that has one: later
   * variables overwrite earlier ones, and one without a choice overwrites
   * nothing.
   */
  lemma {:induction false} SelectionLookupAny(vars: seq<VariableConfig>, n: string)
    ensures Lookup(Selection(vars), n) == LastChoice(vars, n)
    decreases |vars|
  {
    if vars != [] {
      var p := vars[..|vars| - 1];
      var v := vars[|vars| - 1];
      SelectionLookupAny(p, n);
      if Choice(v).Some? {
        PutLookup(Selection(p), v.name, Choice(v).value, n);
      }
    }
  }

  /**
   * Two variables named `Region`: the selection holds the second one's
   * default, while the picker (`FindVariable`) shows the first one's values.
   */
  lemma SharedNameSplitsPickerAndSelection()
    ensures var a := VariableConfig("a", "Region", [VariableValue("US", "US")], Some("US"));
      var b := VariableConfig("b", "Region", [VariableValue("EU", "EU")], Some("EU"));
      Lookup(Selection([a, b]), "Region") == Some("EU") && FindVariable([a, b], "Region") == Some(a)
  {
    var a := VariableConfig("a", "Region", [VariableValue("US", "US")], Some("US"));
    var b := VariableConfig("b", "Region", [VariableValue("EU", "EU")], Some("EU"));
    SelectionLookupAny([a, b], "Region");
  }

  /** The default variables start out at `US` and `prod`. */
  lemma DefaultSelection()
    ensures Selection(DefaultVariables) == [("Region", "US"), ("Env", "prod")]
  {
    assert DefaultVariables[..1][..0] == [];
    assert Choice(DefaultVariables[0]) == Some("US");
    assert Selection(DefaultVariables[..1]) == [("Region", "US")];
    assert Choice(DefaultVariables[1]) == Some("prod");
    assert "Region"[0] != "Env"[0];
    assert Put([("Region", "US")], "Env", "prod") == [("Region", "US"), ("Env", "prod")];
    assert DefaultVariables[..2] == DefaultVariables;
  }

  // ---------------------------------------------------------------------
  // initial selection as written

  /**
   * What the popup's `v.defaultValue || v.values[0]` yields: the default
   * text, the first value entry itself (an object), or `undefined`.
   */
  datatype Selected = Chosen(text: string) | Object(entry: VariableValue) | Undefined

  /** The selection as written, before the URL builder turns its values into strings. */
  function ChoiceAsWritten(v: VariableConfig): Selected {
    if v.defaultValue.Some? && v.defaultValue.value != [] then Chosen(v.defaultValue.value)
    else if v.values == [] then Undefined
    else Object(v.values[0])
  }

  /** The selection record as written: every variable gets an entry. */
  function SelectionAsWritten(vars: seq<VariableConfig>): Entries<Selected>
    decreases |vars|
  {
    if vars == [] then []
    else Put(SelectionAsWritten(vars[..|vars| - 1]), vars[|vars| - 1].name, ChoiceAsWritten(vars[|vars| - 1]))
  }

  /** `String(x)`, which `replace` applies to a replacement that is not a string. */
  function JsString(x: Selected): string {
    match x
    case Chosen(s) => s
    case Object(_) => "[object Object]"
    case Undefined => "undefined"
  }

  /** The selection as the URL builder sees it. */
  function Stringified(sel: Entries<Selected>): (r: Entries<string>)
    ensures |r| == |sel| && forall i :: 0 <= i < |sel| ==> r[i] == (sel[i].0, JsString(sel[i].1))
  {
    seq(|sel|, i requires 0 <= i < |sel| => (sel[i].0, JsString(sel[i].1)))
  }

  /** A variable whose default was cleared in the editor. */
  const RegionWithoutDefault := VariableConfig("v1", "Region", [VariableValue("US", "US")], Some(""))

  /**
   * As written, a variable without a default puts `[object Object]` into the
   * URL where its first value's text belongs; the selection the rest of the
   * model uses puts `US` there.
   */
  lemma SelectionAsWrittenBreaksUrl()
    ensures SelectionAsWritten([RegionWithoutDefault]) == [("Region", Object(VariableValue("US", "US")))]
    ensures Navigator.GeneratedUrl("{Region}", "svc", Stringified(SelectionAsWritten([RegionWithoutDefault])))
         == "[object Object]"
    ensures Selection([RegionWithoutDefault]) == [("Region", "US")]
    ensures Navigator.GeneratedUrl("{Region}", "svc", Selection([RegionWithoutDefault])) == "US"
  {
    var vs := [RegionWithoutDefault];
    assert vs[..0] == [];
    assert SelectionAsWritten(vs) == [("Region", Object(VariableValue("US", "US")))];
    assert Stringified(SelectionAsWritten(vs)) == [("Region", "[object Object]")];
    assert Selection(vs) == [("Region", "US")];
    RegionUrl("[object Object]");
    RegionUrl("US");
  }

  /** `{Region}` filled with a value. */
  lemma RegionUrl(value: string)
    requires '{' !in value
    ensures Navigator.GeneratedUrl("{Region}", "svc", [("Region", value)]) == value
  {
    var lits, names := ["", ""], ["Region"];
    assert Navigator.Compose(lits, names) == "{Region}";
    assert Navigator.IsName("Region") by {
      assert forall j :: 0 <= j < 6 ==> Navigator.IsNameChar("Region"[j]);
    }
    assert Navigator.BraceFree("Region");
    Navigator.GeneratedUrlResolves(lits, names, "svc", [("Region", value)]);
    assert Navigator.Fills([("Region", value)], map[Navigator.PsmName := "svc"])
        == map[Navigator.PsmName := "svc", "Region" := value];
  }

  // ---------------------------------------------------------------------
  // platforms and their variables

  /** A platform the popup shows. */
  predicate IsEnabled(p: PlatformConfig) {
    p.enabled
  }

  /** `enabledPlatforms`: the enabled platforms, in order. */
  function EnabledPlatforms(platforms: seq<PlatformConfig>): (r: seq<PlatformConfig>)
    ensures forall p :: p in r <==> p in platforms && p.enabled
    ensures IsSubseq(r, platforms)
    ensures forall p: PlatformConfig :: p.enabled ==> multiset(r)[p] == multiset(platforms)[p]
  {
    Filter(IsEnabled, platforms)
  }

  /** The platform Enter jumps to: the first enabled one, if any. */
  function EnterTarget(platforms: seq<PlatformConfig>): (r: Option<PlatformConfig>)
    ensures r.None? <==> forall i :: 0 <= i < |platforms| ==> !platforms[i].enabled
    ensures r.Some? ==> exists i :: (0 <= i < |platforms| && platforms[i] == r.value && r.value.enabled &&
      forall j :: 0 <= j < i ==> !platforms[j].enabled)
  {
    var enabled := EnabledPlatforms(platforms);
    if enabled == [] then
      assert forall i :: 0 <= i < |platforms| ==> platforms[i] !in enabled;
      None
    else
      FilterHead(IsEnabled, platforms);
      Some(enabled[0])
  }

  /** `variables.find(v => v.name === name)`: the first variable with the name. */
  function FindVariable(vars: seq<VariableConfig>, name: string): (r: Option<VariableConfig>)
    ensures r.None? <==> forall i :: 0 <= i < |vars| ==> vars[i].name != name
    ensures r.Some? ==> exists i :: (0 <= i < |vars| && vars[i] == r.value && r.value.name == name &&
      forall j :: 0 <= j < i ==> vars[j].name != name)
    decreases |vars|
  {
    if vars == [] then None
    else if vars[0].name == name then
      assert vars[0] == vars[0];
      Some(vars[0])
    else
      var r := FindVariable(vars[1..], name);
      FindVariableShift(vars, name, r);
      r
  }

  /** A match in the tail, with no match at the head, is a match of the whole list. */
  lemma FindVariableShift(vars: seq<VariableConfig>, name: string, r: Option<VariableConfig>)
    requires vars != [] && vars[0].name != name
    requires r.None? <==> forall i :: 0 <= i < |vars[1..]| ==> vars[1..][i].name != name
    requires r.Some? ==> exists i :: (0 <= i < |vars[1..]| && vars[1..][i] == r.value && r.value.name == name &&
      forall j :: 0 <= j < i ==> vars[1..][j].name != name)
    ensures r.None? <==> forall i :: 0 <= i < |vars| ==> vars[i].name != name
    ensures r.Some? ==> exists i :: (0 <= i < |vars| && vars[i] == r.value && r.value.name == name &&
      forall j :: 0 <= j < i ==> vars[j].name != name)
  {
    assert forall i :: 0 < i < |vars| ==> vars[i] == vars[1..][i - 1];
    if r.Some? {
      var i :| 0 <= i < |vars[1..]| && vars[1..][i] == r.value && r.value.name == name &&
        forall j :: 0 <= j < i ==> vars[1..][j].name != name;
      assert vars[i + 1] == r.value;
      assert forall j :: 0 <= j < i + 1 ==> vars[j].name != name;
    }
  }

  /** The configured variables for a list of placeholder names, unmatched names dropped. */
  function MatchVariables(names: seq<string>, vars: seq<VariableConfig>): (r: seq<VariableConfig>)
    ensures |r| <= |names|
    ensures forall v :: v in r ==> v in vars && v.name in names
    ensures forall n :: n in names && (exists i :: 0 <= i < |vars| && vars[i].name == n) ==>
      FindVariable(vars, n).Some? && FindVariable(vars, n).value in r
    decreases |names|
  {
    if names == [] then []
    else
      var rest := MatchVariables(names[1..], vars);
      match FindVariable(vars, names[0])
      case None => rest
      case Some(v) => [v] + rest
  }

  /** A single name gives its first configured variable, or nothing when none has the name. */
  lemma MatchVariablesOne(n: string, vars: seq<VariableConfig>)
    ensures MatchVariables([n], vars) ==
      if FindVariable(vars, n).Some? then [FindVariable(vars, n).value] else []
  {
    assert [n][1..] == [];
  }

  /**
   * Matching works name by name: the variables for `a + b` are those for
   * `a` followed by those for `b`. With `MatchVariablesOne` this fixes the
   * whole list: one entry per matched name, in name order, repeats kept.
   */
  lemma {:induction false} MatchVariablesAppend(a: seq<string>, b: seq<string>, vars: seq<VariableConfig>)
    ensures MatchVariables(a + b, vars) == MatchVariables(a, vars) + MatchVariables(b, vars)
    decreases |a|
  {
    if a == [] {
      assert a + b == b;
    } else {
      assert (a + b)[0] == a[0];
      assert (a + b)[1..] == a[1..] + b;
      MatchVariablesAppend(a[1..], b, vars);
    }
  }

  /** `platformVars`: the configured variables a platform's template asks for, in template order. */
  function PlatformVars(template: string, vars: seq<VariableConfig>): seq<VariableConfig> {
    MatchVariables(Navigator.ExtractVariables(template), vars)
  }

  /** With the default variables, the TCE platform offers a picker for `Env` only. */
  lemma TcePickers()
    ensures PlatformVars(TceTemplate, DefaultVariables) == [DefaultVariables[1]]
  {
    Templates.TceTemplateVariables();
    TceMatched();
  }

  /** Of `VRegion` and `Env`, only `Env` names a default variable. */
  lemma TceMatched()
    ensures MatchVariables(["VRegion", "Env"], DefaultVariables) == [DefaultVariables[1]]
  {
    DefaultLookups();
    var names := ["VRegion", "Env"];
    assert names[1..] == ["Env"] && names[1..][1..] == [];
  }

  /** Among the default variables there is no `VRegion`, and `Env` is the second. */
  lemma DefaultLookups()
    ensures FindVariable(DefaultVariables, "VRegion") == None
    ensures FindVariable(DefaultVariables, "Env") == Some(DefaultVariables[1])
  {
    assert DefaultVariables[1..][0].name == "Env";
  }

  // ---------------------------------------------------------------------
  // the screen

  /** The popup's state: the input, the loaded settings, the selection and the suggestions. */
  class PopupScreen {
    var input: string
    var settings: Option<AppSettings>
    var selectedVars: Entries<string>
    var suggestions: seq<string>

    constructor()
      ensures input == [] && settings == None && selectedVars == [] && suggestions == []
    {
      input := [];
      settings := None;
      selectedVars := [];
      suggestions := [];
    }

    /** `loadSettings`: the stored settings, and every variable back to its initial choice. */
    method Load(store: Storage.SettingsStore)
      modifies this
      ensures settings == Some(store.Current())
      ensures selectedVars == Selection(store.Current().variables)
      ensures input == old(input) && suggestions == Suggestions(settings, input)
    {
      var data := store.Get();
      settings := Some(data);
      selectedVars := InitialSelection(data.variables);
      suggestions := Suggestions(settings, input);
    }

    /**
     * A click on a history entry or a suggestion: the input becomes `p` and
     * the suggestions are cleared, after which the suggestion effect runs
     * again only when the input actually changed.
     */
    method Pick(p: string)
      modifies this
      ensures input == p
      ensures suggestions == if p == old(input) then [] else Suggestions(settings, p)
      ensures settings == old(settings) && selectedVars == old(selectedVars)
    {
      var changed := p != input;
      input := p;
      suggestions := [];
      if changed {
        suggestions := Suggestions(settings, p);
      }
    }

    /** Typing: the input changes and the suggestion effect runs. */
    method Type(text: string)
      modifies this
      ensures input == text && suggestions == Suggestions(settings, text)
      ensures settings == old(settings) && selectedVars == old(selectedVars)
    {
      input := text;
      suggestions := Suggestions(settings, text);
    }

    /** `handleVarChange`: only the entry for `name` changes. */
    method VarChange(name: string, value: string)
      modifies this
      ensures selectedVars == Put(old(selectedVars), name, value)
      ensures forall n :: Lookup(selectedVars, n) == if n == name then Some(value) else Lookup(old(selectedVars), n)
      ensures input == old(input) && settings == old(settings) && suggestions == old(suggestions)
    {
      forall n ensures Lookup(Put(selectedVars, name, value), n) ==
        if n == name then Some(value) else Lookup(selectedVars, n)
      {
        PutLookup(selectedVars, name, value, n);
      }
      selectedVars := Put(selectedVars, name, value);
    }

    /** A click on the `k`-th value button of `v`, with the button passing the value's text. */
    method PickValue(v: VariableConfig, k: nat)
      requires k < |v.values|
      modifies this
      ensures Lookup(selectedVars, v.name) == Some(v.values[k].value)
      ensures forall n :: n != v.name ==> Lookup(selectedVars, n) == Lookup(old(selectedVars), n)
      ensures input == old(input) && settings == old(settings) && suggestions == old(suggestions)
    {
      VarChange(v.name, v.values[k].value);
    }

    /**
     * `handleJump`: nothing for a blank input; otherwise the URL for the
     * trimmed input and the current selection, the same trimmed input pushed
     * onto the history, and the screen reloaded.
     */
    method Jump(store: Storage.SettingsStore, platform: PlatformConfig) returns (url: Option<string>)
      requires Navigator.IsPlainReplacement(Trim(input))
      requires forall i :: 0 <= i < |selectedVars| ==>
        Navigator.IsLiteralKey(selectedVars[i].0) && Navigator.IsPlainReplacement(selectedVars[i].1)
      modifies this, store
      ensures Trim(old(input)) == [] ==>
        url.None? && store.stored == old(store.stored) && settings == old(settings) &&
        selectedVars == old(selectedVars) && suggestions == old(suggestions)
      ensures Trim(old(input)) != [] ==>
        url == Some(Navigator.GeneratedUrl(platform.urlTemplate, Trim(old(input)), old(selectedVars))) &&
        store.Current() == old(store.Current()).(history :=
          Storage.PushHistory(old(store.Current()).history, Trim(old(input)))) &&
        settings == Some(store.Current()) && selectedVars == Selection(store.Current().variables) &&
        suggestions == Suggestions(settings, input)
      ensures input == old(input)
    {
      var psm := Trim(input);
      if psm == [] {
        return None;
      }
      var u := Navigator.GenerateUrl(platform.urlTemplate, psm, selectedVars);
      store.AddHistory(psm);
      Load(store);
      url := Some(u);
    }

    /** Enter in the input: a jump to the first enabled platform, nothing when none is enabled. */
    method OnEnter(store: Storage.SettingsStore) returns (url: Option<string>)
      requires settings.Some?
      requires Navigator.IsPlainReplacement(Trim(input))
      requires forall i :: 0 <= i < |selectedVars| ==>
        Navigator.IsLiteralKey(selectedVars[i].0) && Navigator.IsPlainReplacement(selectedVars[i].1)
      modifies this, store
      ensures EnterTarget(old(settings).value.platforms).None? || Trim(old(input)) == [] ==>
        url.None? && store.stored == old(store.stored) && settings == old(settings) &&
        selectedVars == old(selectedVars) && suggestions == old(suggestions)
      ensures EnterTarget(old(settings).value.platforms).Some? && Trim(old(input)) != [] ==>
        url == Some(Navigator.GeneratedUrl(EnterTarget(old(settings).value.platforms).value.urlTemplate,
          Trim(old(input)), old(selectedVars))) &&
        store.Current() == old(store.Current()).(history :=
          Storage.PushHistory(old(store.Current()).history, Trim(old(input)))) &&
        settings == Some(store.Current()) && selectedVars == Selection(store.Current().variables) &&
        suggestions == Suggestions(settings, input)
      ensures input == old(input)
    {
      var target := EnterTarget(settings.value.platforms);
      if target.None? {
        return None;
      }
      url := Jump(store, target.value);
    }
  }

  /** The value button as written passes the value entry itself, not its text. */
  function PickAsWritten(sel: Entries<Selected>, v: VariableConfig, k: nat): Entries<Selected>
    requires k < |v.values|
  {
    Put(sel, v.name, Object(v.values[k]))
  }

  /**
   * As written, picking a value stores the entry object, which the URL
   * builder turns into `[object Object]`; the corrected `PickValue` stores
   * the value's text.
   */
  lemma PickAsWrittenStoresObject(sel: Entries<Selected>, v: VariableConfig, k: nat)
    requires k < |v.values|
    ensures Lookup(PickAsWritten(sel, v, k), v.name) == Some(Object(v.values[k]))
    ensures JsString(Lookup(PickAsWritten(sel, v, k), v.name).value) == "[object Object]"
  {
    PutLookup(sel, v.name, Object(v.values[k]), v.name);
  }
}
