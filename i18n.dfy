/**
 * Translation lookup: a dotted key walks a nested table of strings, the key
 * itself stands in for anything not found, and `{name}` parameters are
 * filled in; and the language switch, which writes the store.
 */
module I18n {
  import opened Wrappers
  import opened Strings
  import Navigator
  import Types
  import Storage

  /** A translation table: strings at the leaves, nested objects inside. */
  datatype Tree = Text(s: string) | Node(children: map<string, Tree>)

  /**
   * Where the walk over the key's segments ends: `Stuck` when a segment was
   * reached with no object to look it up in, otherwise the value the last
   * segment gave (`None` for a missing entry).
   */
  datatype Walked = Stuck | Reached(value: Option<Tree>)

  /** The lookup loop over the segments, from `value` on. */
  function Walk(value: Option<Tree>, path: seq<string>): Walked
    decreases |path|
  {
    if path == [] then Reached(value)
    else
      match value
      case Some(Node(m)) => Walk(if path[0] in m then Some(m[path[0]]) else None, path[1..])
      case _ => Stuck
  }

  /** The table for `lang`, `None` when there is none. */
  function Root(translations: map<string, Tree>, lang: string): Option<Tree> {
    if lang in translations then Some(translations[lang]) else None
  }

  /** Each parameter in entry order replaces the first `{name}` of the text so far. */
  function ApplyParams(s: string, params: seq<(string, string)>): string
    decreases |params|
  {
    if params == [] then s
    else ApplyParams(ReplaceFirst(s, Navigator.Token(params[0].0), params[0].1), params[1..])
  }

  /**
   * `i18n.get`: the value at the key's path, with the parameters filled in
   * when it is a string and parameters were given; the key itself when the
   * walk gets stuck or ends at nothing or at an empty string. A path that
   * ends at a nested object gives that object.
   */
  function Translate(translations: map<string, Tree>, key: string, lang: string,
                     params: Option<seq<(string, string)>>): (r: Tree)
    ensures r.Text? && r.s == [] ==> key == []
  {
    match Walk(Root(translations, lang), Split(key, '.'))
    case Stuck => Text(key)
    case Reached(None) => Text(key)
    case Reached(Some(Node(m))) => Node(m)
    case Reached(Some(Text(s))) =>
      var filled := if params.Some? then ApplyParams(s, params.value) else s;
      if filled == [] then Text(key) else Text(filled)
  }

  /** `i18n.get`, as the loop over the segments and then over the parameters. */
  method Get(translations: map<string, Tree>, key: string, lang: string,
             params: Option<seq<(string, string)>>) returns (r: Tree)
    requires params.Some? ==> forall j :: 0 <= j < |params.value| ==> '$' !in params.value[j].1
    ensures r == Translate(translations, key, lang, params)
  {
    var keys := Split(key, '.');
    var value := Root(translations, lang);
    for i := 0 to |keys|
      invariant Walk(value, keys[i..]) == Walk(Root(translations, lang), keys)
    {
      assert keys[i..][1..] == keys[i + 1..];
      match value {
        case Some(Node(m)) =>
          value := if keys[i] in m then Some(m[keys[i]]) else None;
        case _ =>
          return Text(key);
      }
    }
    assert keys[|keys|..] == [];
    if value.Some? && value.value.Text? && params.Some? {
      var s := value.value.s;
      var ps := params.value;
      for i := 0 to |ps|
        invariant ApplyParams(s, ps[i..]) == ApplyParams(value.value.s, ps)
      {
        assert ps[i..][1..] == ps[i + 1..];
        s := ReplaceFirst(s, Navigator.Token(ps[i].0), ps[i].1);
      }
      assert ps[|ps|..] == [];
      r := if s == [] then Text(key) else Text(s);
    } else if value.None? || value.value == Text([]) {
      r := Text(key);
    } else {
      r := value.value;
    }
  }

  /** Walking `p` and then `q` is walking `p + q`. */
  lemma {:induction false} WalkAppend(value: Option<Tree>, p: seq<string>, q: seq<string>)
    ensures Walk(value, p + q) == match Walk(value, p) case Stuck => Stuck case Reached(w) => Walk(w, q)
    decreases |p|
  {
    if p != [] {
      assert (p + q)[1..] == p[1..] + q;
      assert (p + q)[0] == p[0];
      match value {
        case Some(Node(m)) =>
          WalkAppend(if p[0] in m then Some(m[p[0]]) else None, p[1..], q);
        case _ =>
      }
    } else {
      assert p + q == q;
    }
  }

  /**
   * A key whose segments lead through objects to a non-empty string gives
   * that string when no parameters are passed.
   */
  lemma LeafFound(translations: map<string, Tree>, lang: string, path: seq<string>, s: string)
    requires |path| >= 1 && forall i :: 0 <= i < |path| ==> '.' !in path[i]
    requires Walk(Root(translations, lang), path) == Reached(Some(Text(s))) && s != []
    ensures Translate(translations, Join(path, '.'), lang, None) == Text(s)
  {
    SplitOfJoin(path, '.');
  }

  /**
   * A segment before the last that leads to a string or to nothing stops
   * the walk, and the key comes back.
   */
  lemma StuckGivesKey(translations: map<string, Tree>, lang: string, path: seq<string>, i: nat,
                      w: Option<Tree>, params: Option<seq<(string, string)>>)
    requires i < |path| && forall j :: 0 <= j < |path| ==> '.' !in path[j]
    requires Walk(Root(translations, lang), path[..i]) == Reached(w) && (w.None? || w.value.Text?)
    ensures Translate(translations, Join(path, '.'), lang, params) == Text(Join(path, '.'))
  {
    SplitOfJoin(path, '.');
    WalkStuckAfter(Root(translations, lang), path, i, w);
  }

  /** A walk whose prefix ends at a string or at nothing, with segments left, gets stuck. */
  lemma WalkStuckAfter(value: Option<Tree>, path: seq<string>, i: nat, w: Option<Tree>)
    requires i < |path| && Walk(value, path[..i]) == Reached(w) && (w.None? || w.value.Text?)
    ensures Walk(value, path) == Stuck
  {
    assert path == path[..i] + path[i..];
    WalkAppend(value, path[..i], path[i..]);
  }

  /** Texts that hold no `{name}` of any parameter are left as they are. */
  lemma {:induction false} ApplyParamsAbsent(s: string, params: seq<(string, string)>)
    requires forall j :: 0 <= j < |params| ==> IndexOf(s, Navigator.Token(params[j].0)) < 0
    ensures ApplyParams(s, params) == s
    decreases |params|
  {
    if params != [] {
      ReplaceFirstSplices(s, Navigator.Token(params[0].0), params[0].1);
      ApplyParamsAbsent(s, params[1..]);
    }
  }

  /** A missing entry at the end of the path, or an empty string there, gives the key. */
  lemma MissingOrEmptyGivesKey(translations: map<string, Tree>, key: string, lang: string,
                               params: Option<seq<(string, string)>>)
    requires Walk(Root(translations, lang), Split(key, '.')) in {Reached(None), Reached(Some(Text([])))}
    ensures Translate(translations, key, lang, params) == Text(key)
  {
    if params.Some? {
      var ps := params.value;
      forall j | 0 <= j < |ps| ensures IndexOf([], Navigator.Token(ps[j].0)) < 0 {
      }
      ApplyParamsAbsent([], ps);
    }
  }

  /** Only the first `{name}` is replaced; a second one stays. */
  lemma ParamReplacesFirstOnly()
    ensures ApplyParams("{n}-{n}", [("n", "1")]) == "1-{n}"
  {
    assert Navigator.Token("n") == "{n}";
    assert "{n}-{n}"[..3] == "{n}" && "{n}-{n}"[3..] == "-{n}";
  }

  /** Parameters apply in entry order, each to the text the previous ones left. */
  lemma ParamsApplyInOrder()
    ensures ApplyParams("{a}{b}", [("a", "{b}"), ("b", "x")]) == "x{b}"
  {
    assert Navigator.Token("a") == "{a}" && Navigator.Token("b") == "{b}";
    assert "{a}{b}"[..3] == "{a}" && "{a}{b}"[3..] == "{b}";
    assert ReplaceFirst("{a}{b}", "{a}", "{b}") == "{b}{b}";
    assert "{b}{b}"[..3] == "{b}" && "{b}{b}"[3..] == "{b}";
    assert ReplaceFirst("{b}{b}", "{b}", "x") == "x{b}";
  }

  /**
   * `changeLanguage`: reads the settings and writes them back with the new
   * language, nothing else changed.
   */
  method ChangeLanguage(store: Storage.SettingsStore, lang: string)
    requires Types.IsLanguage(lang)
    modifies store
    ensures store.Current() == old(store.Current()).(language := lang)
    ensures store.stored == Some(Storage.ToStored(old(store.Current()).(language := lang)))
  {
    var s := store.Get();
    store.Set(s.(language := lang));
  }
}
