/**
 * Facts about the built-in default platform templates and variables: which
 * placeholders each template asks for, and what the URL builder keeps of
 * them when only the default variables are set.
 */
module Templates {
  import opened Strings
  import opened Types
  import Navigator
  import Seqs

  /** Every default template references `{psm}`. */
  lemma DefaultTemplatesUsePsm()
    ensures forall i :: 0 <= i < |DefaultPlatforms| ==>
      Occurs(DefaultPlatforms[i].urlTemplate, Navigator.Token(Navigator.PsmName))
  {
    forall i | 0 <= i < |DefaultPlatforms|
      ensures Occurs(DefaultPlatforms[i].urlTemplate, Navigator.Token(Navigator.PsmName))
    {
      TemplateUsesPsm(i);
    }
  }

  /** The `i`th default template references `{psm}`. */
  lemma TemplateUsesPsm(i: nat)
    requires i < 4
    ensures Occurs(DefaultPlatforms[i].urlTemplate, Navigator.Token(Navigator.PsmName))
  {
    var psm := Navigator.Token(Navigator.PsmName);
    assert psm == "{psm}";
    if i == 0 {
      var a0 := "https://code.internal/search?q=";
      OccursInMiddle(a0, psm, "");
      assert CodeTemplate == a0 + psm + "";
    } else if i == 1 {
      var a1, b1 := "https://tce.internal/services/", "?region=" + "{VRegion}" + "&env=" + "{Env}";
      OccursInMiddle(a1, psm, b1);
      assert TceTemplate == a1 + psm + b1;
    } else if i == 2 {
      var a2, b2 := "https://grafana.internal/d/service-overview?var-service=", "&var-region=" + "{VRegion}";
      OccursInMiddle(a2, psm, b2);
      assert GrafanaTemplate == a2 + psm + b2;
    } else {
      OccursInMiddle(KibanaLiteral, psm, "))");
      assert KibanaTemplate == KibanaLiteral + psm + "))";
    }
  }

  /** The TCE template asks for `VRegion` and `Env`, in that order. */
  lemma TceTemplateVariables()
    ensures Navigator.ExtractVariables(TceTemplate) == ["VRegion", "Env"]
  {
    var lits, names := ["https://tce.internal/services/", "?region=", "&env=", ""], ["psm", "VRegion", "Env"];
    TceTemplateComposed();
    TcePiecesWellFormed();
    Navigator.ExtractVariablesOfCompose(lits, names);
    TceNamesFiltered();
  }

  /** The literal text of the TCE template has no `{`, and its placeholder names are valid. */
  lemma TcePiecesWellFormed()
    ensures forall i :: 0 <= i < 4 ==> '{' !in ["https://tce.internal/services/", "?region=", "&env=", ""][i]
    ensures forall i :: 0 <= i < 3 ==> Navigator.IsName(["psm", "VRegion", "Env"][i])
  {
    var lits := ["https://tce.internal/services/", "?region=", "&env=", ""];
    assert '{' !in lits[0] && '{' !in lits[1] && '{' !in lits[2] && '{' !in lits[3];
    assert Navigator.IsName("psm") && Navigator.IsName("VRegion") && Navigator.IsName("Env");
  }

  /** Of the TCE placeholder names, only `psm` is dropped. */
  lemma TceNamesFiltered()
    ensures Seqs.Filter(Navigator.IsVariable, ["psm", "VRegion", "Env"]) == ["VRegion", "Env"]
  {
    assert Navigator.IsVariable("VRegion") && Navigator.IsVariable("Env") && !Navigator.IsVariable("psm");
    Seqs.FilterCons(Navigator.IsVariable, "Env", []);
    assert Seqs.Filter(Navigator.IsVariable, []) == [];
    assert ["Env"] == ["Env"] + [];
    Seqs.FilterCons(Navigator.IsVariable, "VRegion", ["Env"]);
    assert ["VRegion", "Env"] == ["VRegion"] + ["Env"];
    Seqs.FilterCons(Navigator.IsVariable, "psm", ["VRegion", "Env"]);
    assert ["psm", "VRegion", "Env"] == ["psm"] + ["VRegion", "Env"];
  }

  lemma TceTemplateComposed()
    ensures Navigator.Compose(["https://tce.internal/services/", "?region=", "&env=", ""], ["psm", "VRegion", "Env"])
         == TceTemplate
  {
    var lits, names := ["https://tce.internal/services/", "?region=", "&env=", ""], ["psm", "VRegion", "Env"];
    assert Navigator.Compose(lits[2..], names[2..]) == "&env=" + "{Env}";
    assert Navigator.Compose(lits[1..], names[1..]) == "?region=" + "{VRegion}" + ("&env=" + "{Env}");
  }

  /** The Kibana template asks for nothing beyond `{psm}`. */
  lemma KibanaTemplateVariables()
    ensures Navigator.ExtractVariables(KibanaTemplate) == []
  {
    var lits, names := [KibanaLiteral, "))"], ["psm"];
    KibanaTemplateComposed();
    Navigator.ExtractVariablesOfCompose(lits, names);
    Seqs.FilterCons(Navigator.IsVariable, "psm", []);
    assert ["psm"] == ["psm"] + [];
  }

  /** The Kibana template before its `{psm}`. */
  const KibanaLiteral := "https://kibana.internal/" + "app/discover#/?_a=" + "(query:(language:kuery,query:"

  /** The Kibana template is literal text around the one placeholder `psm`. */
  lemma KibanaTemplateComposed()
    ensures Navigator.Compose([KibanaLiteral, "))"], ["psm"]) == KibanaTemplate
    ensures forall i :: 0 <= i < 2 ==> '{' !in [KibanaLiteral, "))"][i]
    ensures forall i :: 0 <= i < 1 ==> Navigator.IsName(["psm"][i])
  {
    KibanaLiteralOpenFree();
    assert '{' !in "))";
    Navigator.PsmIsName();
  }

  /** No `{` in the Kibana template before its placeholder. */
  lemma KibanaLiteralOpenFree()
    ensures '{' !in KibanaLiteral
  {
    var p1, p2, p3 := "https://kibana.internal/", "app/discover#/?_a=", "(query:(language:kuery,query:";
    assert '{' !in p1;
    assert '{' !in p2;
    assert '{' !in p3;
  }

  /** A name made of letters, digits and `_` that starts with a letter is matched literally by `new RegExp`. */
  lemma LetterNameIsLiteralKey(k: string)
    requires Navigator.IsName(k) && !('0' <= k[0] <= '9')
    ensures Navigator.IsLiteralKey(k)
  {
    forall i | 0 <= i < |k| ensures !Navigator.IsRegexMeta(k[i]) && k[i] != ',' {
      assert Navigator.IsNameChar(k[i]);
    }
    assert !Navigator.IsDigits(k);
  }

  /**
   * No default variable is called `VRegion`, so the TCE and Grafana
   * templates keep `{VRegion}` verbatim whatever the default variables are
   * set to.
   */
  lemma DefaultSelectionKeepsVRegion(i: int, psm: string, vars: seq<(string, string)>)
    requires i == 1 || i == 2
    requires forall j :: 0 <= j < |vars| ==> vars[j].0 in VariableNames(DefaultVariables)
    ensures "VRegion" !in VariableNames(DefaultVariables)
    ensures Occurs(Navigator.GeneratedUrl(DefaultPlatforms[i].urlTemplate, psm, vars), Navigator.Token("VRegion"))
  {
    DefaultNamesAreLiteralKeys();
    TemplateHoldsVRegion(i);
    VRegionKept(DefaultPlatforms[i].urlTemplate, psm, vars);
  }

  /** A template holding `{VRegion}` keeps it when only `Region` and `Env` are substituted. */
  lemma VRegionKept(template: string, psm: string, vars: seq<(string, string)>)
    requires Occurs(template, Navigator.Token("VRegion"))
    requires forall j :: 0 <= j < |vars| ==> vars[j].0 in ["Region", "Env"]
    ensures Occurs(Navigator.GeneratedUrl(template, psm, vars), Navigator.Token("VRegion"))
  {
    LetterNameIsLiteralKey("Region");
    LetterNameIsLiteralKey("Env");
    VRegionIsName();
    forall j | 0 <= j < |vars| ensures vars[j].0 != "VRegion" && Navigator.IsLiteralKey(vars[j].0) {
      assert vars[j].0 == "Region" || vars[j].0 == "Env";
    }
    Navigator.UnknownPlaceholderKept(template, psm, vars, "VRegion");
  }

  /** The default variables are `Region` and `Env`, both matched literally; `VRegion` is a name. */
  lemma DefaultNamesAreLiteralKeys()
    ensures VariableNames(DefaultVariables) == ["Region", "Env"]
    ensures Navigator.IsLiteralKey("Region") && Navigator.IsLiteralKey("Env")
    ensures Navigator.IsName("VRegion")
  {
    LetterNameIsLiteralKey("Region");
    LetterNameIsLiteralKey("Env");
    VRegionIsName();
  }

  /** `VRegion` is made of name characters only. */
  lemma VRegionIsName()
    ensures Navigator.IsName("VRegion")
  {
    var n := "VRegion";
    forall j | 0 <= j < |n| ensures Navigator.IsNameChar(n[j]) {
      assert n[j] in "VRegion";
    }
  }

  /** The TCE and Grafana templates hold `{VRegion}`. */
  lemma TemplateHoldsVRegion(i: int)
    requires i == 1 || i == 2
    ensures Occurs(DefaultPlatforms[i].urlTemplate, Navigator.Token("VRegion"))
  {
    var v := Navigator.Token("VRegion");
    assert v == "{VRegion}";
    if i == 1 {
      var a, b := "https://tce.internal/services/" + "{psm}" + "?region=", "&env=" + "{Env}";
      OccursInMiddle(a, v, b);
      assert TceTemplate == a + v + b;
    } else {
      var a := "https://grafana.internal/d/service-overview?var-service=" + "{psm}" + "&var-region=";
      OccursInMiddle(a, v, "");
      assert GrafanaTemplate == a + v + "";
    }
  }
}
