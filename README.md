# PSM Navigator, modelled in Dafny

PSM Navigator is a browser extension. You type a service name (a PSM), pick
values for a few variables (region, environment, …) and jump to the
service's page on one of several configured platforms (code search,
deployment, metrics, logs). Each platform has a URL template with
`{psm}` and `{Variable}` placeholders. An options page lets you edit the
platforms, the variables and the list of known PSMs used for
autocompletion. Everything lives in one settings record in the browser's
key-value storage.

The model covers:

- **`Types`**: the settings record, the four default platforms and the two
  default variables, with their templates written out.
- **`Templates`**: facts about those defaults that need the URL builder:
  which placeholders each default template asks for, and what a URL built
  from the default variables keeps.
- **`Navigator`**: `generateUrl` as a loop, proved against a specification
  function `GeneratedUrl`. Regex global replacement is modelled as
  `ReplaceAll`. A resolution theorem says what the URL of any template built
  from literal text and placeholders is. Also `extractVariables`.
- **`Storage`**: a `SettingsStore` class holding the stored record. `get`
  merges the stored record over the defaults, field by field. `set`,
  `addHistory`, `clearHistory` and `clearAllData` change that record. The
  history push is proved to put the PSM first, drop the repeat, keep the
  order and cap the list at 10 entries.
- **`I18n`**: the dotted-key lookup, proved against the function
  `Translate`. Missing or empty entries fall back to the key, and parameters
  are filled in with first-occurrence replacement. Also the language switch.
- **`Options`**: the options screen as a class whose handlers change its
  fields and the store. Each handler is specified by a pure settings
  transform:
  - PSM list import: split, trim, drop blank lines, deduplicate. Its round
    trip with the text the screen shows is proved.
  - The configuration-import check.
  - Toggle and delete, for platforms and variables.
  - Saving the platform and variable editors.
  - The guarded "delete all".
- **`Popup`**: the popup as a class:
  - case-insensitive suggestions;
  - the initial variable selection;
  - the variable pickers of each platform;
  - the jump, which builds the URL and records the PSM in the history;
  - Enter, which jumps to the first enabled platform.

Supporting modules are `Wrappers` (`Option`), `Strings` (JavaScript string
operations), `Seqs` (filter, take, deduplicate) and `Records` (a JavaScript
`Record<string, V>` as its ordered entries).

One consequence of the defaults is proved rather than fixed. The TCE and
Grafana templates ask for `{VRegion}`, but the default variable is named
`Region`. A URL built from the default selection therefore still contains
`{VRegion}` (`Templates.DefaultSelectionKeepsVRegion`), and the popup shows
no region picker for TCE (`Popup.TcePickers`).

## Model

| member | source | states |
|---|---|---|
| Types.DefaultPlatformsShape | src/types/index.ts:52-81 | four default platforms with ids 1 to 4, distinct, all enabled |
| Templates.DefaultTemplatesUsePsm | src/types/index.ts:56-77 | every default template contains `{psm}` |
| Types.DefaultVariablesShape | src/types/index.ts:29-50 | two default variables, `Region` and `Env`, each with a default that is one of its values |
| Templates.TceTemplateVariables | src/types/index.ts:63 | the TCE template asks for `VRegion` then `Env` |
| Templates.TceTemplateComposed | src/types/index.ts:63 | the TCE template is literal text around the placeholders `psm`, `VRegion`, `Env` |
| Templates.KibanaTemplateVariables | src/types/index.ts:77 | the Kibana template asks for no variable beyond the PSM |
| Templates.LetterNameIsLiteralKey | src/services/navigator.ts:9 | a placeholder name that does not start with a digit builds a regex that matches only its own `{name}` |
| Templates.DefaultSelectionKeepsVRegion | src/types/index.ts:63-70 | with variables taken from the defaults only, the TCE and Grafana URLs keep `{VRegion}` unfilled |
| Navigator.NameRun | src/services/navigator.ts:17 | the longest run of `[a-zA-Z0-9_]` at the start of a string |
| Navigator.Placeholders | src/services/navigator.ts:17-19 | every name the placeholder pattern matches is a valid name whose `{name}` occurs in the text (the converse is `PlaceholdersComplete`) |
| Navigator.PlaceholdersComplete | src/services/navigator.ts:17-19 | in any text, every `{name}` with a valid name is matched: a match can neither start inside another match nor be skipped |
| Navigator.ExtractVariables | src/services/navigator.ts:16-21 | every extracted name is a valid name other than `psm` whose token occurs in the template; no `{` gives no names (the converse is `ExtractVariablesComplete`) |
| Navigator.ExtractVariablesComplete | src/services/navigator.ts:16-21 | in any template, every `{name}` with a valid name other than `psm` is extracted |
| Navigator.PlaceholdersOfCompose | src/services/navigator.ts:17-19 | the pattern finds exactly the placeholders a template is built from, in order |
| Navigator.ExtractVariablesOfCompose | src/services/navigator.ts:16-21 | for such a template, the extracted names are its placeholder names with `psm` dropped, in order, repeats kept |
| Navigator.NoBraceNoPlaceholders | src/services/navigator.ts:17 | text without `{` has no placeholders |
| Navigator.PlaceholdersSkipPlain | src/services/navigator.ts:17 | text without `{` in front of a string adds no match |
| Navigator.PlaceholdersTakeToken | src/services/navigator.ts:17 | a valid placeholder at the front is matched and the scan continues after it |
| Navigator.GenerateUrl | src/services/navigator.ts:4-14 | the loop computes `GeneratedUrl`: `{psm}` replaced everywhere, then each variable in entry order |
| Navigator.GeneratedUrlIdentity | src/services/navigator.ts:5 | a template without `{psm}` and no variables comes back unchanged |
| Navigator.GeneratedUrlNoPlaceholder | src/services/navigator.ts:4-14 | a template without `{` comes back unchanged whatever the PSM and variables |
| Navigator.SubstituteNoPlaceholder | src/services/navigator.ts:8-11 | the variable loop leaves text without `{` alone |
| Navigator.ReplaceAllSkipPlain | src/services/navigator.ts:10 | a global replacement of a `{...}` pattern passes over text without `{` |
| Navigator.TokenPrefixUnique | src/services/navigator.ts:9 | two placeholders with brace-free names at the same position are the same |
| Navigator.TokensDisjoint | src/services/navigator.ts:9 | two placeholders with brace-free names overlap only when they are the same |
| Navigator.FrontTokenKept | src/services/navigator.ts:10 | a placeholder the pattern does not match at the front is copied to the output |
| Navigator.TokenSurvivesReplace | src/services/navigator.ts:10 | replacing `{k}` keeps every `{n}` with `n != k` |
| Navigator.TokenSurvivesSubstitute | src/services/navigator.ts:8-11 | substituting variables none of which is named `n` keeps `{n}` |
| Navigator.LiteralKeyBraceFree | src/services/navigator.ts:9 | a key usable in the built regex has no braces |
| Navigator.UnknownPlaceholderKept | src/services/navigator.ts:4-14 | a placeholder with no variable and not named `psm` stays verbatim in the URL |
| Navigator.ResolveNothing | src/services/navigator.ts:4-14 | resolving nothing gives the template itself |
| Navigator.ReplaceAllFront | src/services/navigator.ts:10 | a match at the front is replaced and the scan resumes after it |
| Navigator.ReplaceAllSkipToken | src/services/navigator.ts:10 | a different placeholder at the front is skipped whole |
| Navigator.ReplaceSlot | src/services/navigator.ts:10 | one replacement pass over one placeholder slot fills it exactly when its name matches |
| Navigator.ReplaceResolve | src/services/navigator.ts:10 | one replacement pass over a template fills every placeholder with that name and nothing else |
| Navigator.SubstituteResolve | src/services/navigator.ts:8-11 | the variable loop fills each placeholder with the first entry for its name |
| Navigator.GeneratedUrlResolves | src/services/navigator.ts:4-14 | the URL of a template built from literal text and placeholders is that text with `{psm}` filled by the PSM, each other placeholder by its variable, and the rest kept |
| Navigator.GenerateUrlFillsPsmAndVariable | src/services/navigator.ts:4-14 | `https://x/{psm}?r={Region}` with `svc.a.b` and `Region=US` gives `https://x/svc.a.b?r=US` |
| Navigator.FillsPsmAndVariable | src/services/navigator.ts:4-14 | resolving that template with the PSM and `Region` filled gives the expected URL |
| Navigator.GenerateUrlPsmOnly | src/services/navigator.ts:5 | only `{psm}` to fill |
| Navigator.GenerateUrlKeepsMissing | src/services/navigator.ts:8-11 | a placeholder without a variable stays |
| Navigator.GenerateUrlPsmFirst | src/services/navigator.ts:5-11 | `{psm}` is filled first, so a variable named `psm` has nothing left to fill |
| Navigator.ExtractVariablesSkipsPsm | src/services/navigator.ts:20 | `psm` is left out of the extracted names |
| Navigator.ExtractVariablesKeepsRepeats | src/services/navigator.ts:17-20 | repeated placeholders give repeated names in template order |
| Strings.IndexOf | src/i18n/index.ts:20 | the first occurrence of a pattern, or -1 when there is none |
| Strings.ReplaceAllAbsent | src/services/navigator.ts:10 | a global replacement with no match leaves the text alone |
| Strings.ReplaceFirstSplices | src/i18n/index.ts:20 | a string-pattern `replace` splices the replacement in at the first occurrence only |
| Strings.SplitJoin | src/i18n/index.ts:7 | joining the parts of `split` gives the text back |
| Strings.SplitPartsFree | src/i18n/index.ts:7 | no part of a `split` holds the separator |
| Strings.SplitOfJoin | src/entrypoints/options/App.tsx:25-31 | splitting a join of separator-free parts gives the parts back |
| Strings.TrimIdempotent | src/entrypoints/options/App.tsx:32 | trimming twice is trimming once, and a trimmed string has no whitespace at either end |
| Strings.TrimmedIff | src/entrypoints/options/App.tsx:32 | a string is its own trim exactly when it is empty or has no whitespace at either end |
| Seqs.Filter | src/entrypoints/options/App.tsx:33 | `filter` keeps exactly the elements that pass, with their counts, in order |
| Seqs.TakeAppend | src/entrypoints/popup/App.tsx:31 | the first `n` of a concatenation are the first `n` of the first `n` of each part |
| Seqs.Dedupe | src/entrypoints/options/App.tsx:36 | `Array.from(new Set(...))` has no repeats and the same members, in order of first appearance |
| Seqs.DedupeNoDups | src/entrypoints/options/App.tsx:36 | a list without repeats is kept as it is |
| Records.Lookup | src/entrypoints/popup/App.tsx:182 | a record lookup finds an entry exactly when the key is present |
| Records.PutLookup | src/entrypoints/popup/App.tsx:71 | after `{ ...prev, [name]: value }` the name maps to the value and every other key is unchanged |
| Records.PutDistinct | src/entrypoints/popup/App.tsx:43 | setting a key keeps keys unique |
| Storage.Merge | src/storage/index.ts:14-29 | the settings read always have a non-empty language |
| Storage.MergeToStored | src/storage/index.ts:21-29 | reading back what `set` wrote gives the settings unchanged exactly when their language is non-empty |
| Storage.EmptyStoreReadsDefaults | src/storage/index.ts:5-18 | an empty store reads as the four default platforms, two default variables, empty lists and English |
| Storage.MergeFallsBackPerField | src/storage/index.ts:21-29 | each known field falls back to its default only when absent; an empty language falls back to `en`; other fields pass through |
| Storage.PushHistory | src/storage/index.ts:48 | the new history starts with the PSM, does not repeat it, keeps the other entries in order and drops one only when the list is full at 10 |
| Storage.PushHistoryIdempotent | src/storage/index.ts:48 | visiting the same PSM twice in a row is one visit |
| Storage.PushHistoryNoDups | src/storage/index.ts:48 | a history without repeats stays without repeats |
| Storage.PushHistoryMovesToFront | src/storage/index.ts:48 | revisiting a PSM already in a short history moves it to the front and keeps the order of the others |
| Storage.PushHistoryRevisitFull | src/storage/index.ts:48 | revisiting a PSM already in a long history moves it to the front and keeps the ten most recent entries, the others in their order |
| Storage.PushHistoryDropsOldest | src/storage/index.ts:48 | a new PSM on a full history pushes out the last entry |
| Storage.SettingsStore.constructor | src/storage/index.ts:3 | a new store holds nothing |
| Storage.SettingsStore.Get | src/storage/index.ts:14-29 | `get` returns the merged settings, the defaults when nothing is stored |
| Storage.SettingsStore.Set | src/storage/index.ts:37-44 | `set` stores the whole record, and a later read returns it |
| Storage.SettingsStore.AddHistory | src/storage/index.ts:46-50 | only the history changes, to the pushed history |
| Storage.SettingsStore.ClearHistory | src/storage/index.ts:52-55 | only the history changes, to empty |
| Storage.SettingsStore.ClearAllData | src/storage/index.ts:57-63 | the store is erased and reads as the defaults |
| I18n.Translate | src/i18n/index.ts:6-25 | a lookup gives an empty string only for an empty key |
| I18n.Get | src/i18n/index.ts:6-25 | the two loops compute `Translate` |
| I18n.WalkAppend | src/i18n/index.ts:10-16 | walking two paths one after the other is walking their concatenation |
| I18n.LeafFound | src/i18n/index.ts:7-24 | a dotted key whose segments lead to a non-empty string gives that string |
| I18n.StuckGivesKey | src/i18n/index.ts:11-14 | reaching a string or nothing before the last segment gives the key back |
| I18n.ApplyParamsAbsent | src/i18n/index.ts:18-22 | parameters whose `{name}` is absent change nothing |
| I18n.MissingOrEmptyGivesKey | src/i18n/index.ts:24 | a missing entry or an empty string at the end of the path gives the key |
| I18n.ParamReplacesFirstOnly | src/i18n/index.ts:20 | only the first `{n}` is replaced |
| I18n.ParamsApplyInOrder | src/i18n/index.ts:19-21 | parameters apply in entry order, each to the text the previous ones left |
| I18n.ChangeLanguage | src/i18n/index.ts:41-45 | only the stored language changes |
| Options.PsmLines | src/entrypoints/options/App.tsx:30-33 | the kept lines are the non-blank trimmed lines, each already trimmed |
| Options.ImportPsmList | src/entrypoints/options/App.tsx:30-36 | the imported list is non-blank, trimmed, without repeats, has exactly the kept lines as members, in order of first appearance |
| Options.TrimmedAreTrimmed | src/entrypoints/options/App.tsx:32 | every trimmed line is its own trim |
| Options.ImportTextRoundTrip | src/entrypoints/options/App.tsx:25-36 | importing the text shown for an imported list gives the list back |
| Options.Toggle | src/entrypoints/options/App.tsx:92-94 | exactly the platforms with the id flip `enabled`; nothing else changes |
| Options.ToggleTwice | src/entrypoints/options/App.tsx:92-94 | toggling twice restores the list |
| Options.RemovePlatform | src/entrypoints/options/App.tsx:102 | exactly the platforms with the id go; the rest keep order and counts |
| Options.RemoveVariable | src/entrypoints/options/App.tsx:110 | exactly the variables with the id go; the rest keep order and counts |
| Options.SaveEdit | src/entrypoints/options/App.tsx:145-163 | nothing is saved without a name and a template; a new platform is appended enabled with category `Custom` unless given; an edit overlays the form on the platforms with the id |
| Options.SaveUnchangedEdit | src/entrypoints/options/App.tsx:116-119 | opening the editor on a platform and saving unchanged keeps the list, for distinct ids |
| Options.BlankFormNotSaved | src/entrypoints/options/App.tsx:121-127 | the blank new-platform form cannot be saved |
| Options.SaveEditVar | src/entrypoints/options/App.tsx:172-187 | nothing is saved without a name or a value list; a new variable's default is the form's, else its first value's text; an edit overlays the form |
| Options.NewVariableDefaultIsAValue | src/entrypoints/options/App.tsx:181 | a new variable with values and no default gets one of its values as default |
| Options.OptionsScreen.constructor | src/entrypoints/options/App.tsx:10-15 | nothing loaded, an empty import text, nothing being edited and both forms empty (`{}`) |
| Options.OptionsScreen.Load | src/entrypoints/options/App.tsx:22-26 | the screen shows the store's settings and the PSM list one per line |
| Options.OptionsScreen.Commit | src/entrypoints/options/App.tsx:95-97 | the screen shows the new settings and the store holds them |
| Options.OptionsScreen.Import | src/entrypoints/options/App.tsx:28-40 | only the PSM list changes, to the imported list, in the screen and the store; the import text and the editor are unchanged |
| Options.OptionsScreen.ImportConfig | src/entrypoints/options/App.tsx:57-80 | the document is stored only when it passes the shape check and the user confirms, and then the screen reloads, the import text included; the editor is unchanged |
| Options.OptionsScreen.TogglePlatform | src/entrypoints/options/App.tsx:90-98 | the toggled list is shown and stored; the import text and the editor are unchanged |
| Options.OptionsScreen.DeletePlatform | src/entrypoints/options/App.tsx:100-106 | after confirmation the list without the platform is shown and stored; the import text and the editor are unchanged |
| Options.OptionsScreen.DeleteVariable | src/entrypoints/options/App.tsx:108-114 | after confirmation the list without the variable is shown and stored; the import text and the editor are unchanged |
| Options.OptionsScreen.StartEdit | src/entrypoints/options/App.tsx:116-129 | the editor opens on the platform, or on a blank new one |
| Options.OptionsScreen.StartEditVar | src/entrypoints/options/App.tsx:131-143 | the editor opens on the variable, or on a blank new one |
| Options.OptionsScreen.SavePlatform | src/entrypoints/options/App.tsx:145-170 | a savable form is shown and stored and the editor closes; otherwise nothing changes; the import text and the other form never change |
| Options.OptionsScreen.SaveVariable | src/entrypoints/options/App.tsx:172-195 | a savable form is shown and stored and the editor closes; otherwise nothing changes; the import text and the other form never change |
| Options.OptionsScreen.ClearHistory | src/entrypoints/options/App.tsx:197-202 | after confirmation only the history is emptied, and the screen reloads, the import text included; the editor is unchanged |
| Options.OptionsScreen.ClearAllData | src/entrypoints/options/App.tsx:204-214 | only the exact phrase `delete all` erases the store and reloads the defaults with an empty import text; the editor is unchanged |
| Popup.Suggestions | src/entrypoints/popup/App.tsx:20-34 | none before loading or for empty input; at most 5, each a case-insensitive proper match, in list order; fewer than 5 means every match is shown |
| Popup.SuggestionsOne | src/entrypoints/popup/App.tsx:20-31 | a list of one PSM suggests it exactly when the input is not empty and the PSM is a proper case-insensitive match |
| Popup.SuggestionsAppend | src/entrypoints/popup/App.tsx:28-31 | the suggestions for `a + b` are the first five of those for `a` followed by those for `b`: with `SuggestionsOne`, the first five matches in list order |
| Popup.SuggestionsFull | src/entrypoints/popup/App.tsx:31 | once five PSMs are suggested, PSMs added further down the list change nothing |
| Popup.SuggestionsIgnoreCase | src/entrypoints/popup/App.tsx:28 | inputs that differ only in case get the same suggestions |
| Popup.Selection | src/entrypoints/popup/App.tsx:41-44 | the initial selection has one entry per variable name; which value that entry holds is `SelectionLookupAny` |
| Popup.InitialSelection | src/entrypoints/popup/App.tsx:41-44 | the loop computes `Selection` |
| Popup.SelectionLookup | src/entrypoints/popup/App.tsx:41-44 | with distinct names each variable starts at its default, else at its first value's text, and unknown names have no entry |
| Popup.LastChoice | src/entrypoints/popup/App.tsx:42-44 | the choice of the last variable with the name that has one, none exactly when no variable with the name has a choice |
| Popup.SelectionLookupAny | src/entrypoints/popup/App.tsx:41-44 | for any variables, shared names included, a name's entry is `LastChoice`: a later variable with the same name overwrites an earlier one |
| Popup.SharedNameSplitsPickerAndSelection | src/entrypoints/popup/App.tsx:42-44 | with two variables named `Region`, the selection holds the second one's default while the picker (line 149) shows the first one's values |
| Popup.DefaultSelection | src/entrypoints/popup/App.tsx:41-44 | the default variables start at `US` and `prod` |
| Popup.SelectionAsWrittenBreaksUrl | src/entrypoints/popup/App.tsx:43 | as written, a variable without a default yields `[object Object]` in the URL; the corrected selection yields `US` |
| Popup.RegionUrl | src/services/navigator.ts:4-14 | `{Region}` is filled with the selected value |
| Popup.EnabledPlatforms | src/entrypoints/popup/App.tsx:84 | exactly the enabled platforms, in order, with their counts |
| Popup.EnterTarget | src/entrypoints/popup/App.tsx:105-109 | Enter targets the first enabled platform, and none when no platform is enabled |
| Seqs.FilterHead | src/entrypoints/popup/App.tsx:84-107 | the head of a filter result is the first element that passes |
| Popup.FindVariable | src/entrypoints/popup/App.tsx:149 | `find` returns the first variable with the name, and none when there is none |
| Popup.FindVariableShift | src/entrypoints/popup/App.tsx:149 | a match in the tail with none at the head is the first match |
| Popup.MatchVariables | src/entrypoints/popup/App.tsx:148-150 | the pickers are configured variables whose names the template asks for, no more pickers than names, and every asked-for configured name gets its first variable with that name |
| Popup.MatchVariablesOne | src/entrypoints/popup/App.tsx:149-150 | one name gives the first variable with that name, or nothing when no variable has it |
| Popup.MatchVariablesAppend | src/entrypoints/popup/App.tsx:148-150 | the pickers for `a + b` are those for `a` followed by those for `b`: one per matched name, in template order, repeated names repeated |
| Popup.TcePickers | src/entrypoints/popup/App.tsx:147-150 | with the defaults, the TCE platform shows a picker for `Env` only |
| Popup.PopupScreen.constructor | src/entrypoints/popup/App.tsx:11-14 | empty input, nothing loaded, no selection, no suggestions |
| Popup.PopupScreen.Load | src/entrypoints/popup/App.tsx:36-46 | the popup shows the store's settings, every variable back at its initial choice, and suggestions recomputed |
| Popup.PopupScreen.Pick | src/entrypoints/popup/App.tsx:60-68 | a picked history entry or suggestion becomes the input; suggestions are cleared and recomputed only when the input changed |
| Popup.PopupScreen.Type | src/entrypoints/popup/App.tsx:104 | typing sets the input and recomputes the suggestions |
| Popup.PopupScreen.VarChange | src/entrypoints/popup/App.tsx:70-72 | only the entry for the name changes |
| Popup.PopupScreen.PickValue | src/entrypoints/popup/App.tsx:174-180 | a value button selects that value's text for its variable and leaves the others |
| Popup.PopupScreen.Jump | src/entrypoints/popup/App.tsx:48-58 | a blank input changes nothing; otherwise the URL for the trimmed PSM and current selection, the trimmed PSM pushed onto the history, and the popup reloaded: settings, selection and suggestions recomputed |
| Popup.PopupScreen.OnEnter | src/entrypoints/popup/App.tsx:105-109 | Enter jumps to the first enabled platform, with the state `Jump` leaves; with no enabled platform or a blank input nothing changes |
| Popup.PickAsWrittenStoresObject | src/entrypoints/popup/App.tsx:179 | as written, a value button stores the entry object, which reaches the URL as `[object Object]` |

## Left out

- The development fallback in `get` and `set` (`src/storage/index.ts:31-33`, `src/storage/index.ts:41-42`) is not modelled. That branch reads `localStorage` and spreads the parsed JSON over the defaults with no per-field fallback. Only the extension-storage branch is modelled.
- I/O is left out:
  - opening tabs and windows (`openUrl`, `openOptions`);
  - `alert`, `confirm` and `prompt`, whose answers are method parameters;
  - file reading and `JSON.parse`. `ImportConfig` takes the parsed document and the record it would be stored as.
- Clock-based ids (`Date.now()`) are parameters (`newId`).
- Asynchrony is not modelled. Every `await` is taken to complete before the next user action, so races between handlers are not modelled.
- React rendering, effects and state setters are not modelled. Their effect is folded into the screen classes' methods. This covers:
  - `useTranslation` and its `t`;
  - the language toggle button (`I18n.ChangeLanguage` models the store write);
  - the export-config button;
  - the locale table in `src/i18n/locales.ts`;
  - the UI components in `src/components/ui.tsx`.
- Rendering of the value buttons is not modelled: their key at `src/entrypoints/popup/App.tsx:176`, the highlight at line 182 and the label at line 187. All three use the value entry `{name, value}` where a string is expected. The label puts that object directly into the React tree, which React rejects ("Objects are not valid as a React child"). So, as written, the popup fails to render as soon as an enabled platform's template asks for a configured variable that has values. With the default settings this happens for the TCE platform (`Popup.TcePickers`). The model assumes the label shows the value's text.
- Popup.Selection: a variable named `__proto__` is not modelled specially. In the source, `defaults['__proto__'] = …` at `src/entrypoints/popup/App.tsx:43` goes through the prototype setter and creates no own entry; the model's `Put` adds an ordinary entry. The spread with a computed key at line 71 (`VarChange`) does create an own entry, as the model does.
- Popup.Choice: for a variable with neither a non-empty default nor any value, the corrected selection leaves the variable out, so its `{name}` stays in the URL. The source's `v.defaultValue || v.values[0]` gives `undefined` there, and `v.values[0]?.value` would too; `replace` would then write the text `undefined`. The as-written `Popup.ChoiceAsWritten` keeps that case as `Undefined`.
- Options.OptionsScreen.ImportConfig: the stored record is a parameter. Its relation to the parsed document, the document written as it is, is not stated, because `JSON.parse` is not modelled.
- I18n.Walk: JavaScript's `value[k]` also finds inherited properties such as `toString` on a locale object, and such a lookup can yield a function. The model looks up own keys only.
- Navigator.GenerateUrl: two kinds of input are required away rather than modelled, so the contract is weaker than the source.
  - Variable keys must have no regex metacharacters and must not form a braced quantifier; such keys change the built `RegExp` or make it throw.
  - The PSM and the values must have no `$`, because `replace` reads `$` patterns in them.
- I18n.Get: the same restriction applies: parameter values must have no `$`. Parameters are strings; `String(v)` of other values is not modelled.
- Popup.PopupScreen.Jump and Popup.PopupScreen.OnEnter carry the same preconditions as `GenerateUrl`, on the trimmed input and the selection.
- `toLowerCase` is modelled for ASCII letters only; other characters are kept as they are.
- `trim` uses the ECMAScript white-space and line-terminator set, character by character. Surrogate pairs are not modelled.
- Extra fields of a stored record are kept as an uninterpreted map. `lastState` is carried along but never read by the core.
- The import check `IsConfigShape` reads the parsed JSON value. That the rest of the document has the settings' types is not checked by the source, and the model does not add such a check.
- No concrete worked example of the PSM import on a literal text is included. The general lemmas `ImportPsmList` and `ImportTextRoundTrip` state its behaviour.

## Findings

| source | as written | input that shows it | evidently intended | confidence | as-written member | corrected member |
|---|---|---|---|---|---|---|
| src/entrypoints/popup/App.tsx:43 | when a variable's default is empty or absent, the initial selection falls back to `v.values[0]`, the first value entry object itself | a variable `my-region` with values `[{US, US}]` and an empty default, template `x/{my-region}`: the URL is `x/[object Object]`. `extractVariables` does not match `my-region`, so no picker renders and the label at line 187 never runs; `new RegExp('{my-region}', 'g')` matches the text literally. The model's member shows the same fallback with `Region` and template `{Region}`; there, as written, the picker's label at line 187 makes the popup fail to render first (see "## Left out") | the first value's text, `v.values[0].value`, as the options screen does at `src/entrypoints/options/App.tsx:181`; with no values at all the corrected selection leaves the variable out rather than writing `undefined` | not executed; high | Popup.SelectionAsWrittenBreaksUrl | Popup.SelectionLookup |
| src/entrypoints/popup/App.tsx:179 | `handleVarChange(v.name, val)` passes the value entry `{name, value}` where a string is expected | clicking the `US` button of `Region`: the selection holds the object, and `{Region}` becomes `[object Object]`. As written, the button's label at line 187 makes the popup fail to render first, so this shows only once that label renders `val.value` | `handleVarChange(v.name, val.value)` | not executed; medium | Popup.PickAsWrittenStoresObject | Popup.PopupScreen.PickValue |
