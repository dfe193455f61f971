/**
 * The options screen: the settings transforms behind its buttons (PSM list
 * import, configuration import check, platform toggle, delete and save,
 * variable delete and save, the guarded erase), each written to the store.
 */
module Options {
  import opened Wrappers
  import opened Strings
  import opened Seqs
  import opened Types
  import Storage

  // ---------------------------------------------------------------------
  // PSM list import

  /** A line that is not blank. */
  predicate NonEmpty(line: string) {
    line != []
  }

  /** Each line trimmed. */
  function TrimAll(lines: seq<string>): (r: seq<string>)
    ensures |r| == |lines| && forall i :: 0 <= i < |lines| ==> r[i] == Trim(lines[i])
  {
    seq(|lines|, i requires 0 <= i < |lines| => Trim(lines[i]))
  }

  /** The lines of the text, trimmed, blank ones dropped. */
  function PsmLines(text: string): (lines: seq<string>)
    ensures forall x :: x in lines <==> x != [] && x in TrimAll(Split(text, '\n'))
    ensures forall x :: x in lines ==> Trim(x) == x
  {
    TrimmedAreTrimmed(Split(text, '\n'));
    Filter(NonEmpty, TrimAll(Split(text, '\n')))
  }

  /**
   * `handleImport`: the lines of the text, trimmed, blank ones dropped,
   * duplicates dropped keeping the first.
   */
  function ImportPsmList(text: string): (psms: seq<string>)
    ensures forall i :: 0 <= i < |psms| ==> psms[i] != [] && Trim(psms[i]) == psms[i]
    ensures NoDups(psms)
    ensures forall x :: x in psms <==> x in PsmLines(text)
    ensures forall i, j :: 0 <= i < j < |psms| ==>
      FirstIndex(PsmLines(text), psms[i]) < FirstIndex(PsmLines(text), psms[j])
  {
    var lines := PsmLines(text);
    var psms := Dedupe(lines);
    forall i | 0 <= i < |psms| ensures psms[i] != [] && Trim(psms[i]) == psms[i] {
      assert psms[i] in lines;
    }
    psms
  }

  /** Every trimmed line is its own trim. */
  lemma TrimmedAreTrimmed(lines: seq<string>)
    ensures forall x :: x in TrimAll(lines) ==> Trim(x) == x
  {
    forall x | x in TrimAll(lines) ensures Trim(x) == x {
      var k :| 0 <= k < |lines| && TrimAll(lines)[k] == x;
      TrimIdempotent(lines[k]);
    }
  }

  /** The text box contents the screen shows for a PSM list: the PSMs one per line. */
  function ImportText(psms: seq<string>): string {
    if psms == [] then "" else Join(psms, '\n')
  }

  /**
   * Importing the text the screen shows for an imported list gives that
   * list back: loading and importing without edits changes nothing.
   */
  lemma ImportTextRoundTrip(psms: seq<string>)
    requires NoDups(psms)
    requires forall i :: 0 <= i < |psms| ==> psms[i] != [] && Trim(psms[i]) == psms[i] && '\n' !in psms[i]
    ensures ImportPsmList(ImportText(psms)) == psms
  {
    if psms == [] {
      assert Split("", '\n') == [""];
      assert Trim("") == "";
      assert TrimAll([""]) == [""];
      assert Filter(NonEmpty, [""]) == [];
    } else {
      SplitOfJoin(psms, '\n');
      assert TrimAll(psms) == psms;
      FilterKeepsAll(NonEmpty, psms);
      assert PsmLines(ImportText(psms)) == psms;
      DedupeNoDups(psms);
    }
  }

  // ---------------------------------------------------------------------
  // configuration import

  /** The only check an imported configuration gets: `platforms` and `variables` are arrays. */
  predicate IsConfigShape(doc: Json) {
    doc.JObject? && "platforms" in doc.fields && doc.fields["platforms"].JArray?
    && "variables" in doc.fields && doc.fields["variables"].JArray?
  }

  // ---------------------------------------------------------------------
  // platforms

  /** `handleToggle`: flips `enabled` on the platforms with the id, nothing else. */
  function Toggle(platforms: seq<PlatformConfig>, id: string): (r: seq<PlatformConfig>)
    ensures |r| == |platforms|
    ensures forall i :: 0 <= i < |r| ==>
      r[i].(enabled := platforms[i].enabled) == platforms[i] &&
      (r[i].enabled <==> (platforms[i].enabled != (platforms[i].id == id)))
  {
    seq(|platforms|, i requires 0 <= i < |platforms| =>
      if platforms[i].id == id then platforms[i].(enabled := !platforms[i].enabled) else platforms[i])
  }

  /** Toggling the same platform twice gives the list back. */
  lemma ToggleTwice(platforms: seq<PlatformConfig>, id: string)
    ensures Toggle(Toggle(platforms, id), id) == platforms
  {
    var r := Toggle(Toggle(platforms, id), id);
    forall i | 0 <= i < |platforms| ensures r[i] == platforms[i] {
      assert r[i].(enabled := platforms[i].enabled) == platforms[i];
    }
  }

  /** `handleDelete`: every platform with the id goes, the rest keep their order. */
  function RemovePlatform(platforms: seq<PlatformConfig>, id: string): (r: seq<PlatformConfig>)
    ensures forall p: PlatformConfig :: p in r <==> p in platforms && p.id != id
    ensures IsSubseq(r, platforms)
    ensures forall p: PlatformConfig :: p.id != id ==> multiset(r)[p] == multiset(platforms)[p]
  {
    Filter((p: PlatformConfig) => p.id != id, platforms)
  }

  /** `handleDeleteVar`: every variable with the id goes, the rest keep their order. */
  function RemoveVariable(variables: seq<VariableConfig>, id: string): (r: seq<VariableConfig>)
    ensures forall v: VariableConfig :: v in r <==> v in variables && v.id != id
    ensures IsSubseq(r, variables)
    ensures forall v: VariableConfig :: v.id != id ==> multiset(r)[v] == multiset(variables)[v]
  {
    Filter((v: VariableConfig) => v.id != id, variables)
  }

  /** The platform editor's form: any field may be absent. */
  datatype PlatformForm = PlatformForm(
    id: Option<string>,
    name: Option<string>,
    urlTemplate: Option<string>,
    category: Option<string>,
    icon: Option<string>,
    enabled: Option<bool>)

  /** The form as `startEdit` fills it for an existing platform. */
  function FormOf(p: PlatformConfig): PlatformForm {
    PlatformForm(Some(p.id), Some(p.name), Some(p.urlTemplate), p.category, p.icon, Some(p.enabled))
  }

  /** The form as `startEdit` fills it for a new platform. */
  const BlankPlatformForm := PlatformForm(None, Some(""), Some(""), Some("Custom"), None, Some(true))

  /** The closed editor's platform form, `{}`: no field set. */
  const EmptyPlatformForm := PlatformForm(None, None, None, None, None, None)

  /** The id the editor uses for a platform being added. */
  const NewPlatformId := "new"

  /** `{ ...p, ...form }`: the form's present fields over the platform's. */
  function Overlay(p: PlatformConfig, form: PlatformForm): PlatformConfig {
    PlatformConfig(
      form.id.GetOr(p.id),
      form.name.GetOr(p.name),
      form.urlTemplate.GetOr(p.urlTemplate),
      if form.category.Some? then form.category else p.category,
      if form.icon.Some? then form.icon else p.icon,
      form.enabled.GetOr(p.enabled))
  }

  /** A falsy text field: absent or empty. */
  predicate Blank(field: Option<string>) {
    field.None? || field.value == []
  }

  /**
   * `saveEdit`: nothing when the name or the template is blank; a new
   * platform is appended, enabled, with category `Custom` unless one is
   * given; an edit overlays the form on the platforms with the edited id.
   */
  function SaveEdit(platforms: seq<PlatformConfig>, editingId: Option<string>, form: PlatformForm,
                    newId: string): (r: Option<seq<PlatformConfig>>)
    ensures r.None? <==> Blank(form.name) || Blank(form.urlTemplate)
    ensures r.Some? && editingId == Some(NewPlatformId) ==>
      |r.value| == |platforms| + 1 && r.value[..|platforms|] == platforms &&
      r.value[|platforms|].id == newId && r.value[|platforms|].enabled &&
      r.value[|platforms|].name == form.name.value && r.value[|platforms|].urlTemplate == form.urlTemplate.value &&
      r.value[|platforms|].category == Some(if Blank(form.category) then "Custom" else form.category.value)
    ensures r.Some? && editingId != Some(NewPlatformId) ==>
      |r.value| == |platforms| &&
      forall i :: 0 <= i < |platforms| ==>
        r.value[i] == if Some(platforms[i].id) == editingId then Overlay(platforms[i], form) else platforms[i]
  {
    if Blank(form.name) || Blank(form.urlTemplate) then None
    else if editingId == Some(NewPlatformId) then
      var category := if Blank(form.category) then "Custom" else form.category.value;
      Some(platforms + [PlatformConfig(newId, form.name.value, form.urlTemplate.value, Some(category), form.icon, true)])
    else
      Some(seq(|platforms|, i requires 0 <= i < |platforms| =>
        if Some(platforms[i].id) == editingId then Overlay(platforms[i], form) else platforms[i]))
  }

  /** The ids of a list of platforms are pairwise distinct. */
  predicate DistinctIds(platforms: seq<PlatformConfig>) {
    forall i, j :: 0 <= i < j < |platforms| ==> platforms[i].id != platforms[j].id
  }

  /**
   * Opening the editor on a platform and saving without changes leaves the
   * list as it was, when ids are distinct.
   */
  lemma SaveUnchangedEdit(platforms: seq<PlatformConfig>, k: nat, newId: string)
    requires k < |platforms| && DistinctIds(platforms)
    requires platforms[k].id != NewPlatformId && platforms[k].name != [] && platforms[k].urlTemplate != []
    ensures SaveEdit(platforms, Some(platforms[k].id), FormOf(platforms[k]), newId) == Some(platforms)
  {
    var r := SaveEdit(platforms, Some(platforms[k].id), FormOf(platforms[k]), newId);
    assert r.Some? && |r.value| == |platforms|;
    assert Overlay(platforms[k], FormOf(platforms[k])) == platforms[k];
    forall i | 0 <= i < |platforms| ensures r.value[i] == platforms[i] {
      if platforms[i].id == platforms[k].id {
        assert i == k || k < i || i < k;
      }
    }
    assert r.value == platforms;
  }

  /** The blank form of a new platform cannot be saved until a name and a template are typed. */
  lemma BlankFormNotSaved(platforms: seq<PlatformConfig>, newId: string)
    ensures SaveEdit(platforms, Some(NewPlatformId), BlankPlatformForm, newId) == None
  {
  }

  // ---------------------------------------------------------------------
  // variables

  /** The variable editor's form: any field may be absent. */
  datatype VariableForm = VariableForm(
    id: Option<string>,
    name: Option<string>,
    values: Option<seq<VariableValue>>,
    defaultValue: Option<string>)

  /** The id the editor uses for a variable being added. */
  const NewVariableId := "new_var"

  /** The form as `startEditVar` fills it for an existing variable. */
  function VariableFormOf(v: VariableConfig): VariableForm {
    VariableForm(Some(v.id), Some(v.name), Some(v.values), v.defaultValue)
  }

  /** The form as `startEditVar` fills it for a new variable. */
  const BlankVariableForm := VariableForm(None, Some(""), Some([]), Some(""))

  /** The closed editor's variable form, `{}`: no field set. */
  const EmptyVariableForm := VariableForm(None, None, None, None)

  /** `{ ...v, ...form }` */
  function OverlayVariable(v: VariableConfig, form: VariableForm): VariableConfig {
    VariableConfig(
      form.id.GetOr(v.id),
      form.name.GetOr(v.name),
      form.values.GetOr(v.values),
      if form.defaultValue.Some? then form.defaultValue else v.defaultValue)
  }

  /**
   * `saveEditVar`: nothing without a name or without a value list (an empty
   * list will do); a new variable is appended, its default the form's or
   * else the first value's text; an edit overlays the form.
   */
  function SaveEditVar(variables: seq<VariableConfig>, editingId: Option<string>, form: VariableForm,
                       newId: string): (r: Option<seq<VariableConfig>>)
    ensures r.None? <==> Blank(form.name) || form.values.None?
    ensures r.Some? && editingId == Some(NewVariableId) ==>
      |r.value| == |variables| + 1 && r.value[..|variables|] == variables &&
      var added := r.value[|variables|];
      added.id == newId && added.name == form.name.value && added.values == form.values.value &&
      added.defaultValue ==
        (if !Blank(form.defaultValue) then form.defaultValue
         else if added.values == [] then None
         else Some(added.values[0].value))
    ensures r.Some? && editingId != Some(NewVariableId) ==>
      |r.value| == |variables| &&
      forall i :: 0 <= i < |variables| ==>
        r.value[i] == if Some(variables[i].id) == editingId then OverlayVariable(variables[i], form) else variables[i]
  {
    if Blank(form.name) || form.values.None? then None
    else if editingId == Some(NewVariableId) then
      var values := form.values.value;
      var default := if !Blank(form.defaultValue) then form.defaultValue
        else if values == [] then None else Some(values[0].value);
      Some(variables + [VariableConfig(newId, form.name.value, values, default)])
    else
      Some(seq(|variables|, i requires 0 <= i < |variables| =>
        if Some(variables[i].id) == editingId then OverlayVariable(variables[i], form) else variables[i]))
  }

  /** A new variable saved with values always has a default that is one of them. */
  lemma NewVariableDefaultIsAValue(variables: seq<VariableConfig>, form: VariableForm, newId: string)
    requires !Blank(form.name) && form.values.Some? && form.values.value != [] && Blank(form.defaultValue)
    ensures var r := SaveEditVar(variables, Some(NewVariableId), form, newId);
      r.Some? && r.value[|variables|].defaultValue.Some? &&
      exists e :: e in form.values.value && e.value == r.value[|variables|].defaultValue.value
  {
    var r := SaveEditVar(variables, Some(NewVariableId), form, newId);
    assert form.values.value[0] in form.values.value;
    assert r.value[|variables|].defaultValue == Some(form.values.value[0].value);
  }

  // ---------------------------------------------------------------------
  // the screen

  /** The text `clearAllData` asks the user to type. */
  const ConfirmPhrase := "delete all"

  /**
   * The screen's state: the settings it shows (`None` until loaded), the
   * import text box, and the editor (the id being edited and both forms).
   */
  class OptionsScreen {
    var settings: Option<AppSettings>
    var importText: string
    var editingId: Option<string>
    var form: PlatformForm
    var variableForm: VariableForm

    constructor()
      ensures settings == None && importText == "" && editingId == None
      ensures form == EmptyPlatformForm && variableForm == EmptyVariableForm
    {
      settings := None;
      importText := "";
      editingId := None;
      form := EmptyPlatformForm;
      variableForm := EmptyVariableForm;
    }

    /** `loadSettings`: show what the store holds and the PSM list as text. */
    method Load(store: Storage.SettingsStore)
      modifies this
      ensures settings == Some(store.Current())
      ensures importText == ImportText(store.Current().predefinedPsms)
      ensures editingId == old(editingId) && form == old(form) && variableForm == old(variableForm)
    {
      var data := store.Get();
      settings := Some(data);
      importText := ImportText(data.predefinedPsms);
    }

    /** Shows `s` and writes it to the store. */
    method Commit(store: Storage.SettingsStore, s: AppSettings)
      modifies this, store
      ensures settings == Some(s) && store.stored == Some(Storage.ToStored(s))
      ensures importText == old(importText) && editingId == old(editingId)
      ensures form == old(form) && variableForm == old(variableForm)
    {
      settings := Some(s);
      store.Set(s);
    }

    /** `handleImport`: replaces only the PSM list, with the normalised text. */
    method Import(store: Storage.SettingsStore)
      modifies this, store
      ensures old(settings).None? ==> settings == old(settings) && store.stored == old(store.stored)
      ensures old(settings).Some? ==>
        settings == Some(old(settings).value.(predefinedPsms := ImportPsmList(importText))) &&
        store.stored == Some(Storage.ToStored(settings.value))
      ensures importText == old(importText) && editingId == old(editingId)
      ensures form == old(form) && variableForm == old(variableForm)
    {
      if settings.None? {
        return;
      }
      Commit(store, settings.value.(predefinedPsms := ImportPsmList(importText)));
    }

    /**
     * `handleImportConfig`: `record` is the document as the store would hold
     * it. It is written only when the document passes the shape check and
     * the user confirms; otherwise nothing changes.
     */
    method ImportConfig(store: Storage.SettingsStore, doc: Option<Json>, record: Storage.StoredRecord,
                        confirmed: bool)
      modifies this, store
      ensures doc.Some? && IsConfigShape(doc.value) && confirmed ==>
        store.stored == Some(record) && settings == Some(store.Current())
      ensures !(doc.Some? && IsConfigShape(doc.value) && confirmed) ==>
        store.stored == old(store.stored) && settings == old(settings)
      ensures doc.Some? && IsConfigShape(doc.value) && confirmed ==>
        importText == ImportText(store.Current().predefinedPsms)
      ensures !(doc.Some? && IsConfigShape(doc.value) && confirmed) ==> importText == old(importText)
      ensures editingId == old(editingId) && form == old(form) && variableForm == old(variableForm)
    {
      if doc.Some? && IsConfigShape(doc.value) && confirmed {
        store.stored := Some(record);
        Load(store);
      }
    }

    /** `handleToggle` */
    method TogglePlatform(store: Storage.SettingsStore, id: string)
      modifies this, store
      ensures old(settings).None? ==> settings == old(settings) && store.stored == old(store.stored)
      ensures old(settings).Some? ==>
        settings == Some(old(settings).value.(platforms := Toggle(old(settings).value.platforms, id))) &&
        store.stored == Some(Storage.ToStored(settings.value))
      ensures importText == old(importText) && editingId == old(editingId)
      ensures form == old(form) && variableForm == old(variableForm)
    {
      if settings.None? {
        return;
      }
      var s := settings.value;
      Commit(store, s.(platforms := Toggle(s.platforms, id)));
    }

    /** `handleDelete`, after the user answered the confirmation. */
    method DeletePlatform(store: Storage.SettingsStore, id: string, confirmed: bool)
      modifies this, store
      ensures old(settings).None? || !confirmed ==> settings == old(settings) && store.stored == old(store.stored)
      ensures old(settings).Some? && confirmed ==>
        settings == Some(old(settings).value.(platforms := RemovePlatform(old(settings).value.platforms, id))) &&
        store.stored == Some(Storage.ToStored(settings.value))
      ensures importText == old(importText) && editingId == old(editingId)
      ensures form == old(form) && variableForm == old(variableForm)
    {
      if settings.None? || !confirmed {
        return;
      }
      var s := settings.value;
      Commit(store, s.(platforms := RemovePlatform(s.platforms, id)));
    }

    /** `handleDeleteVar`, after the user answered the confirmation. */
    method DeleteVariable(store: Storage.SettingsStore, id: string, confirmed: bool)
      modifies this, store
      ensures old(settings).None? || !confirmed ==> settings == old(settings) && store.stored == old(store.stored)
      ensures old(settings).Some? && confirmed ==>
        settings == Some(old(settings).value.(variables := RemoveVariable(old(settings).value.variables, id))) &&
        store.stored == Some(Storage.ToStored(settings.value))
      ensures importText == old(importText) && editingId == old(editingId)
      ensures form == old(form) && variableForm == old(variableForm)
    {
      if settings.None? || !confirmed {
        return;
      }
      var s := settings.value;
      Commit(store, s.(variables := RemoveVariable(s.variables, id)));
    }

    /** `startEdit`: opens the editor on `platform`, or on a new one. */
    method StartEdit(platform: Option<PlatformConfig>)
      modifies this
      ensures platform.Some? ==> editingId == Some(platform.value.id) && form == FormOf(platform.value)
      ensures platform.None? ==> editingId == Some(NewPlatformId) && form == BlankPlatformForm
      ensures settings == old(settings) && importText == old(importText) && variableForm == old(variableForm)
    {
      if platform.Some? {
        editingId := Some(platform.value.id);
        form := FormOf(platform.value);
      } else {
        editingId := Some(NewPlatformId);
        form := BlankPlatformForm;
      }
    }

    /** `startEditVar`: opens the editor on `variable`, or on a new one. */
    method StartEditVar(variable: Option<VariableConfig>)
      modifies this
      ensures variable.Some? ==> editingId == Some(variable.value.id) && variableForm == VariableFormOf(variable.value)
      ensures variable.None? ==> editingId == Some(NewVariableId) && variableForm == BlankVariableForm
      ensures settings == old(settings) && importText == old(importText) && form == old(form)
    {
      if variable.Some? {
        editingId := Some(variable.value.id);
        variableForm := VariableFormOf(variable.value);
      } else {
        editingId := Some(NewVariableId);
        variableForm := BlankVariableForm;
      }
    }

    /** `saveEdit`; `newId` stands for the clock-based id a new platform gets. */
    method SavePlatform(store: Storage.SettingsStore, newId: string)
      modifies this, store
      ensures old(settings).None? || SaveEdit(old(settings).value.platforms, old(editingId), old(form), newId).None? ==>
        settings == old(settings) && store.stored == old(store.stored) && editingId == old(editingId) && form == old(form)
      ensures old(settings).Some? && SaveEdit(old(settings).value.platforms, old(editingId), old(form), newId).Some? ==>
        settings == Some(old(settings).value.(platforms :=
          SaveEdit(old(settings).value.platforms, old(editingId), old(form), newId).value)) &&
        store.stored == Some(Storage.ToStored(settings.value)) &&
        editingId == None && form == EmptyPlatformForm
      ensures importText == old(importText) && variableForm == old(variableForm)
    {
      if settings.None? {
        return;
      }
      var s := settings.value;
      var r := SaveEdit(s.platforms, editingId, form, newId);
      if r.None? {
        return;
      }
      Commit(store, s.(platforms := r.value));
      editingId := None;
      form := EmptyPlatformForm;
    }

    /** `saveEditVar`; `newId` stands for the clock-based id a new variable gets. */
    method SaveVariable(store: Storage.SettingsStore, newId: string)
      modifies this, store
      ensures old(settings).None? || SaveEditVar(old(settings).value.variables, old(editingId), old(variableForm), newId).None? ==>
        settings == old(settings) && store.stored == old(store.stored) &&
        editingId == old(editingId) && variableForm == old(variableForm)
      ensures old(settings).Some? && SaveEditVar(old(settings).value.variables, old(editingId), old(variableForm), newId).Some? ==>
        settings == Some(old(settings).value.(variables :=
          SaveEditVar(old(settings).value.variables, old(editingId), old(variableForm), newId).value)) &&
        store.stored == Some(Storage.ToStored(settings.value)) &&
        editingId == None && variableForm == EmptyVariableForm
      ensures importText == old(importText) && form == old(form)
    {
      if settings.None? {
        return;
      }
      var s := settings.value;
      var r := SaveEditVar(s.variables, editingId, variableForm, newId);
      if r.None? {
        return;
      }
      Commit(store, s.(variables := r.value));
      editingId := None;
      variableForm := EmptyVariableForm;
    }

    /** `clearHistory`, after the user answered the confirmation. */
    method ClearHistory(store: Storage.SettingsStore, confirmed: bool)
      modifies this, store
      ensures confirmed ==>
        store.Current() == old(store.Current()).(history := []) && settings == Some(store.Current())
      ensures !confirmed ==> store.stored == old(store.stored) && settings == old(settings)
      ensures confirmed ==> importText == ImportText(store.Current().predefinedPsms)
      ensures !confirmed ==> importText == old(importText)
      ensures editingId == old(editingId) && form == old(form) && variableForm == old(variableForm)
    {
      if confirmed {
        store.ClearHistory();
        Load(store);
      }
    }

    /**
     * `clearAllData`: `confirmation` is what the user typed, `None` when the
     * prompt was dismissed. Only the exact phrase erases the store.
     */
    method ClearAllData(store: Storage.SettingsStore, confirmation: Option<string>)
      modifies this, store
      ensures confirmation == Some(ConfirmPhrase) ==>
        store.stored == None && settings == Some(Storage.DefaultSettings)
      ensures confirmation != Some(ConfirmPhrase) ==>
        store.stored == old(store.stored) && settings == old(settings)
      ensures confirmation == Some(ConfirmPhrase) ==> importText == ""
      ensures confirmation != Some(ConfirmPhrase) ==> importText == old(importText)
      ensures editingId == old(editingId) && form == old(form) && variableForm == old(variableForm)
    {
      if confirmation == Some(ConfirmPhrase) {
        store.ClearAllData();
        Load(store);
      }
    }
  }
}
