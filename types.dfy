/**
 * The record shapes of the settings and the built-in default platforms and
 * variables.
 */
module Types {
  import opened Wrappers

  /** A JSON value, for fields the model does not interpret and for imported documents. */
  datatype Json =
    | JNull
    | JBool(b: bool)
    | JNumber(n: real)
    | JString(s: string)
    | JArray(items: seq<Json>)
    | JObject(fields: map<string, Json>)

  /** A destination: a named URL template with `{psm}` and variable placeholders. */
  datatype PlatformConfig = PlatformConfig(
    id: string,
    name: string,
    urlTemplate: string,
    category: Option<string>,
    icon: Option<string>,
    enabled: bool)

  /** One selectable option of a variable: a label and the text substituted. */
  datatype VariableValue = VariableValue(name: string, value: string)

  /** A named placeholder with its options; `name` is the placeholder text without braces. */
  datatype VariableConfig = VariableConfig(
    id: string,
    name: string,
    values: seq<VariableValue>,
    defaultValue: Option<string>)

  datatype LastState = LastState(psm: string, selectedVars: seq<(string, string)>)

  /**
   * The persisted settings record. `language` is `'en'` or `'cn'` when
   * written by the screens, but a stored record may hold any string there;
   * `extra` holds the fields of a stored record that are not part of this
   * shape, which the merge on reading carries along.
   */
  datatype AppSettings = AppSettings(
    platforms: seq<PlatformConfig>,
    variables: seq<VariableConfig>,
    history: seq<string>,
    predefinedPsms: seq<string>,
    language: string,
    lastState: Option<LastState>,
    extra: map<string, Json>)

  /** The two languages the settings can select. */
  predicate IsLanguage(l: string) {
    l == "en" || l == "cn"
  }

  const DefaultVariables: seq<VariableConfig> := [
    VariableConfig("v1", "Region",
      [VariableValue("US", "US"), VariableValue("CN", "CN"), VariableValue("SG", "SG")], Some("US")),
    VariableConfig("v2", "Env",
      [VariableValue("prod", "prod"), VariableValue("boe", "boe"), VariableValue("ppe", "ppe")], Some("prod"))
  ]

  /** The default URL templates, written out around their placeholders. */
  const CodeTemplate := "https://code.internal/search?q=" + "{psm}"
  const TceTemplate := "https://tce.internal/services/" + "{psm}" + "?region=" + "{VRegion}" + "&env=" + "{Env}"
  const GrafanaTemplate := "https://grafana.internal/d/service-overview?var-service=" + "{psm}"
    + "&var-region=" + "{VRegion}"
  const KibanaTemplate := "https://kibana.internal/" + "app/discover#/?_a=" + "(query:(language:kuery,query:" + "{psm}"
    + "))"

  const DefaultPlatforms: seq<PlatformConfig> := [
    PlatformConfig("1", "SCM (Code)", CodeTemplate, Some("Code"), None, true),
    PlatformConfig("2", "TCE (Deploy)", TceTemplate, Some("Deployment"), None, true),
    PlatformConfig("3", "Grafana (Metrics)", GrafanaTemplate, Some("Observability"), None, true),
    PlatformConfig("4", "Kibana (Logs)", KibanaTemplate, Some("Observability"), None, true)
  ]

  /** Four default platforms, ids `1` to `4`, pairwise distinct, all enabled. */
  lemma DefaultPlatformsShape()
    ensures |DefaultPlatforms| == 4
    ensures forall i :: 0 <= i < 4 ==> DefaultPlatforms[i].id == ["1", "2", "3", "4"][i]
    ensures forall i, j :: 0 <= i < j < |DefaultPlatforms| ==> DefaultPlatforms[i].id != DefaultPlatforms[j].id
    ensures forall i :: 0 <= i < |DefaultPlatforms| ==> DefaultPlatforms[i].enabled
  {
  }

  /** Two default variables, `Region` and `Env`, each with a default that is one of its values. */
  lemma DefaultVariablesShape()
    ensures |DefaultVariables| == 2
    ensures DefaultVariables[0].name == "Region" && DefaultVariables[1].name == "Env"
    ensures forall i :: 0 <= i < |DefaultVariables| ==>
      DefaultVariables[i].defaultValue.Some? &&
      exists e :: e in DefaultVariables[i].values && e.value == DefaultVariables[i].defaultValue.value
  {
    assert DefaultVariables[0].values[0].value == "US";
    assert DefaultVariables[1].values[0].value == "prod";
  }

  /** The names of a list of variables, in order. */
  function VariableNames(vs: seq<VariableConfig>): (names: seq<string>)
    ensures |names| == |vs| && forall i :: 0 <= i < |vs| ==> names[i] == vs[i].name
  {
    seq(|vs|, i requires 0 <= i < |vs| => vs[i].name)
  }
}
