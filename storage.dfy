/**
 * The settings store: one record kept under a single key of the browser's
 * key-value storage, read back merged over the defaults, and the history
 * list it maintains.
 */
module Storage {
  import opened Wrappers
  import opened Seqs
  import opened Types

  /** The most PSMs the history keeps. */
  const MaxHistory: nat := 10

  /** What `get` returns when nothing is stored. */
  const DefaultSettings: AppSettings :=
    AppSettings(DefaultPlatforms, DefaultVariables, [], [], "en", None, map[])

  /**
   * The record as it sits in the store. A field is `None` when it is
   * absent, `null` or otherwise falsy; `extra` holds the fields outside the
   * settings shape, which every read carries along.
   */
  datatype StoredRecord = StoredRecord(
    platforms: Option<seq<PlatformConfig>>,
    variables: Option<seq<VariableConfig>>,
    history: Option<seq<string>>,
    predefinedPsms: Option<seq<string>>,
    language: Option<string>,
    lastState: Option<LastState>,
    extra: map<string, Json>)

  /**
   * `get` on the extension backend: the defaults when nothing is stored,
   * otherwise the stored record over the defaults, each list falling back
   * when absent and the language falling back to `en` when absent or empty.
   */
  function Merge(stored: Option<StoredRecord>): (s: AppSettings)
    ensures s.language != []
  {
    match stored
    case None => DefaultSettings
    case Some(r) =>
      AppSettings(
        r.platforms.GetOr(DefaultPlatforms),
        r.variables.GetOr(DefaultVariables),
        r.history.GetOr([]),
        r.predefinedPsms.GetOr([]),
        if r.language.None? || r.language.value == [] then "en" else r.language.value,
        r.lastState,
        r.extra)
  }

  /** `set`: the record written is the settings, every field present. */
  function ToStored(s: AppSettings): StoredRecord {
    StoredRecord(Some(s.platforms), Some(s.variables), Some(s.history), Some(s.predefinedPsms),
      Some(s.language), s.lastState, s.extra)
  }

  /** Reading back what was written gives the settings unchanged, unless their language is empty. */
  lemma MergeToStored(s: AppSettings)
    ensures Merge(Some(ToStored(s))) == s <==> s.language != []
  {
  }

  /** An empty store reads as the defaults: four platforms, two variables, no history, no PSMs, English. */
  lemma EmptyStoreReadsDefaults()
    ensures Merge(None) == DefaultSettings
    ensures |Merge(None).platforms| == 4 && |Merge(None).variables| == 2
    ensures Merge(None).history == [] && Merge(None).predefinedPsms == [] && Merge(None).language == "en"
  {
  }

  /**
   * Each known field is the stored one when present and the default
   * otherwise; a stored empty list is kept, a stored empty language is not;
   * the other stored fields pass through.
   */
  lemma MergeFallsBackPerField(r: StoredRecord)
    ensures Merge(Some(r)).platforms == (if r.platforms.Some? then r.platforms.value else DefaultPlatforms)
    ensures Merge(Some(r)).variables == (if r.variables.Some? then r.variables.value else DefaultVariables)
    ensures Merge(Some(r)).history == (if r.history.Some? then r.history.value else [])
    ensures Merge(Some(r)).predefinedPsms == (if r.predefinedPsms.Some? then r.predefinedPsms.value else [])
    ensures Merge(Some(r)).language == (if r.language == Some("") || r.language.None? then "en" else r.language.value)
    ensures Merge(Some(r)).lastState == r.lastState && Merge(Some(r)).extra == r.extra
  {
  }

  /**
   * The history after visiting `psm`: `psm` first, then the old entries
   * other than `psm` in their old order, cut to `MaxHistory`.
   */
  function PushHistory(history: seq<string>, psm: string): (r: seq<string>)
    ensures 0 < |r| <= MaxHistory && r[0] == psm
    ensures psm !in r[1..]
    ensures IsSubseq(r[1..], history)
    ensures forall x :: x in history && x != psm && x !in r ==> |r| == MaxHistory
  {
    var others := Filter(x => x != psm, history);
    TakeCons(psm, others, history, MaxHistory);
    Take([psm] + others, MaxHistory)
  }

  /** Visiting the same PSM twice in a row leaves the history as one visit does. */
  lemma PushHistoryIdempotent(history: seq<string>, psm: string)
    ensures PushHistory(PushHistory(history, psm), psm) == PushHistory(history, psm)
  {
    var r := PushHistory(history, psm);
    assert r == [r[0]] + r[1..];
    FilterKeepsAll(x => x != psm, r[1..]);
    assert Filter(x => x != psm, r) == r[1..];
  }

  /** A history without repeats stays without repeats. */
  lemma PushHistoryNoDups(history: seq<string>, psm: string)
    requires NoDups(history)
    ensures NoDups(PushHistory(history, psm))
  {
    FilterNoDups(x => x != psm, history);
    TakeConsNoDups(psm, Filter(x => x != psm, history), MaxHistory);
  }

  /** A revisited PSM moves to the front; the others keep their order. */
  lemma PushHistoryMovesToFront(before: seq<string>, psm: string, after: seq<string>)
    requires psm !in before && psm !in after && |before| + |after| < MaxHistory
    ensures PushHistory(before + [psm] + after, psm) == [psm] + before + after
  {
    FilterDropsOne(x => x != psm, before, psm, after);
    AppendAssoc([psm], before, after);
  }

  /**
   * A revisited PSM on a long history moves to the front, and the history
   * is cut after the ten most recent entries, the others in their order.
   */
  lemma PushHistoryRevisitFull(before: seq<string>, psm: string, after: seq<string>)
    requires psm !in before && psm !in after && |before| + |after| >= MaxHistory
    ensures PushHistory(before + [psm] + after, psm) == ([psm] + before + after)[..MaxHistory]
  {
    FilterDropsOne(x => x != psm, before, psm, after);
    AppendAssoc([psm], before, after);
  }

  /** A new PSM on a full history pushes the oldest entry out. */
  lemma PushHistoryDropsOldest(history: seq<string>, psm: string)
    requires |history| >= MaxHistory && psm !in history
    ensures PushHistory(history, psm) == [psm] + history[..MaxHistory - 1]
  {
    FilterKeepsAll(x => x != psm, history);
  }

  /**
   * The store: `stored` is the record under the settings key, `None` when
   * there is none.
   */
  class SettingsStore {
    var stored: Option<StoredRecord>

    /** A fresh, empty store. */
    constructor()
      ensures stored == None
    {
      stored := None;
    }

    /** The settings `get` would return now. */
    function Current(): AppSettings
      reads this
    {
      Merge(stored)
    }

    /** `get` */
    method Get() returns (s: AppSettings)
      ensures s == Merge(stored)
      ensures stored.None? ==> s == DefaultSettings
    {
      s := Merge(stored);
    }

    /** `set`: replaces the whole record. */
    method Set(s: AppSettings)
      modifies this
      ensures stored == Some(ToStored(s))
      ensures s.language != [] ==> Current() == s
    {
      stored := Some(ToStored(s));
      MergeToStored(s);
    }

    /** `addHistory`: read, push `psm` onto the history, write back. */
    method AddHistory(psm: string)
      modifies this
      ensures stored == Some(ToStored(old(Current()).(history := PushHistory(old(Current()).history, psm))))
      ensures Current() == old(Current()).(history := PushHistory(old(Current()).history, psm))
    {
      var s := Get();
      Set(s.(history := PushHistory(s.history, psm)));
    }

    /** `clearHistory`: read, empty the history, write back. */
    method ClearHistory()
      modifies this
      ensures stored == Some(ToStored(old(Current()).(history := [])))
      ensures Current() == old(Current()).(history := [])
    {
      var s := Get();
      Set(s.(history := []));
    }

    /** `clearAllData`: erases the store, so the next read gives the defaults. */
    method ClearAllData()
      modifies this
      ensures stored == None
      ensures Current() == DefaultSettings
    {
      stored := None;
    }
  }
}
