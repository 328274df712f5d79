/** The scan pipeline of app/src/app.py: pick the Sonarr series that have a
    configuration entry, collect their missing episodes (dropping from the
    caller's list the series that have none), then search for and download
    each one, counting the outcomes. The Sonarr client, yt-dlp, the regular
    expression engine, `Series.apply_config` and the clock are inputs. */
module App {
  import opened Basics
  import opened PyValue
  import opened TextUtils
  import opened DateUtils
  import opened Config
  import opened Models
  import opened YtdlpService

  /** What a call to the Sonarr client ends in: its value, a SonarrAPIError,
      or any other exception. */
  datatype Fetch<T> = Fetched(value: T) | ApiError | OtherError

  /** The Sonarr client as the pipeline uses it: `get_series()`,
      `get_episodes_by_series_id(id)` and `rescan_series(id)`. */
  datatype Sonarr = Sonarr(
    allSeries: Fetch<seq<Series>>,
    episodesOf: int -> Fetch<seq<Episode>>,
    rescan: int -> Fetch<()>)

  /** What `SonarrYTDLPApp` holds once constructed: the loaded configuration,
      the two services, and `Series.apply_config`. */
  datatype Application = Application(
    config: Value,
    sonarr: Sonarr,
    ytdlp: Service,
    applyConfig: (Series, map<string, Value>) -> Series,
    regex: RegexEngine)

  /** Construction succeeds only after `load_config` validated the document. */
  predicate Constructed(app: Application)
  {
    Acceptable(app.config)
  }

  // ---------------------------------------------------------------------
  // _get_debug_mode

  const TrueWords: seq<string> := ["true", "1", "yes", "on"]

  /** The interpretation of the `debug` setting. */
  function DebugFlag(v: Value): bool
  {
    if v.Str? then Lower(v.s) in TrueWords else Truthy(v)
  }

  /** `_get_debug_mode`: `get_value('sonarrytdl', 'debug', False)` interpreted. */
  function DebugMode(config: Value): (r: Outcome<bool>)
    ensures r.Ok? <==> ValueOf(SectionOf(config, "sonarrytdl"), "debug", Bool(false)).Ok?
  {
    match ValueOf(SectionOf(config, "sonarrytdl"), "debug", Bool(false))
    case Ok(v) => Ok(DebugFlag(v))
    case ConfigError(m) => ConfigError(m)
    case Exit => Exit
    case Crash => Crash
  }

  /** Text `w` read without regard to the case of ASCII letters. */
  predicate SameWordIgnoringCase(s: string, w: string)
  {
    |s| == |w| && forall i :: 0 <= i < |s| ==> LowerChar(s[i]) == w[i]
  }

  lemma LowerIsLowerChar(s: string)
    ensures forall i :: 0 <= i < |s| ==> Lower(s)[i] == LowerChar(s[i])
  {
  }

  /** A text setting is on exactly when it spells one of the four words in any
      mix of case; any other setting is on when it is truthy, so the text
      "false" is off but the number 2 is on. */
  lemma {:induction false} DebugFlagMeaning(v: Value)
    ensures v.Str? ==> (DebugFlag(v) <==> exists w :: w in TrueWords && SameWordIgnoringCase(v.s, w))
    ensures !v.Str? ==> (DebugFlag(v) <==> Truthy(v))
  {
    if v.Str? {
      LowerIsLowerChar(v.s);
      if DebugFlag(v) {
        assert SameWordIgnoringCase(v.s, Lower(v.s));
      }
      if w :| w in TrueWords && SameWordIgnoringCase(v.s, w) {
        assert Lower(v.s) == w;
      }
    }
  }

  lemma DebugFlagExamples()
    ensures DebugFlag(Str("Yes")) && DebugFlag(Str("ON")) && DebugFlag(Str("1"))
    ensures !DebugFlag(Str("false")) && !DebugFlag(Str("0")) && !DebugFlag(Str("yes "))
    ensures DebugFlag(Int(2)) && !DebugFlag(Bool(false)) && !DebugFlag(Nil)
  {
    assert Lower("Yes") == "yes";
    assert Lower("ON") == "on";
    assert Lower("1") == "1";
    assert Lower("false") == "false";
    assert Lower("0") == "0";
    assert Lower("yes ") == "yes ";
  }

  /** Without a `sonarrytdl` section debugging is off; a dictionary section
      gives its `debug` entry, missing meaning off. */
  lemma DebugModeFromConfig(config: Value)
    requires Acceptable(config)
    ensures "sonarrytdl" !in config.fields ==> DebugMode(config) == Ok(false)
    ensures "sonarrytdl" in config.fields && config.fields["sonarrytdl"].Dict? ==>
              DebugMode(config) == Ok(DebugFlag(Get(config.fields["sonarrytdl"].fields, "debug", Bool(false))))
  {
  }

  // ---------------------------------------------------------------------
  // filter_configured_series

  /** `isinstance(config, dict) and config.get('title') == title`. */
  predicate Binds(entry: Value, title: string)
  {
    entry.Dict? && Get(entry.fields, "title", Nil) == Str(title)
  }

  /** The first configuration entry bound to `title`. */
  function FirstMatch(entries: seq<Value>, title: string): (r: Option<map<string, Value>>)
    ensures r.Some? ==> "title" in r.value && Dict(r.value) in entries && Binds(Dict(r.value), title)
    ensures r.None? <==> forall i :: 0 <= i < |entries| ==> !Binds(entries[i], title)
  {
    if entries == [] then None
    else if Binds(entries[0], title) then Some(entries[0].fields)
    else
      var r := FirstMatch(entries[1..], title);
      assert forall i :: 0 < i < |entries| ==> entries[i] == entries[1..][i - 1];
      r
  }

  /** An earlier entry wins over later ones, and entries that are not bound to
      the title (non-dictionaries included) are passed over. */
  lemma {:induction false} FirstMatchWins(before: seq<Value>, config: map<string, Value>, after: seq<Value>, title: string)
    requires forall i :: 0 <= i < |before| ==> !Binds(before[i], title)
    requires Binds(Dict(config), title)
    ensures FirstMatch(before + [Dict(config)] + after, title) == Some(config)
  {
    if before != [] {
      assert (before + [Dict(config)] + after)[1..] == before[1..] + [Dict(config)] + after;
      FirstMatchWins(before[1..], config, after, title);
    }
  }

  /** The one-series contribution of the loop of lines 125-142. */
  function ConfiguredOne(s: Series, entries: seq<Value>, apply: (Series, map<string, Value>) -> Series): seq<Series>
  {
    match FirstMatch(entries, s.title)
    case Some(config) => if |config| > 0 then [apply(s, config)] else []
    case None => []
  }

  /** The configured series among `catalog`, in catalog order. */
  function Configured(catalog: seq<Series>, entries: seq<Value>, apply: (Series, map<string, Value>) -> Series): seq<Series>
    decreases |catalog|
  {
    if catalog == [] then []
    else Configured(catalog[..|catalog| - 1], entries, apply) + ConfiguredOne(catalog[|catalog| - 1], entries, apply)
  }

  lemma AppendEmpty<T>(a: seq<T>)
    ensures a + [] == a
  {
  }

  lemma AppendSplit<T>(a: seq<T>, b: seq<T>)
    requires b != []
    ensures |a + b| - 1 == |a| + |b| - 1
    ensures (a + b)[..|a + b| - 1] == a + b[..|b| - 1] && (a + b)[|a + b| - 1] == b[|b| - 1]
  {
  }

  lemma AppendAssoc<T>(a: seq<T>, b: seq<T>, c: seq<T>)
    ensures (a + b) + c == a + (b + c)
  {
  }

  /** Each catalog series contributes in its place, so catalog order is kept. */
  lemma {:induction false} ConfiguredAppend(a: seq<Series>, b: seq<Series>, entries: seq<Value>, apply: (Series, map<string, Value>) -> Series)
    ensures Configured(a + b, entries, apply) == Configured(a, entries, apply) + Configured(b, entries, apply)
    decreases |b|
  {
    if b == [] {
      AppendEmpty(a);
    } else {
      var b', last := b[..|b| - 1], b[|b| - 1];
      var ab := a + b;
      AppendSplit(a, b);
      assert Configured(ab, entries, apply) == Configured(a + b', entries, apply) + ConfiguredOne(last, entries, apply);
      ConfiguredAppend(a, b', entries, apply);
      AppendAssoc(Configured(a, entries, apply), Configured(b', entries, apply), ConfiguredOne(last, entries, apply));
    }
  }

  /** x is the series `FilterConfiguredSeries` makes of the catalog series s. */
  predicate Yields(entries: seq<Value>, apply: (Series, map<string, Value>) -> Series, s: Series, x: Series)
  {
    FirstMatch(entries, s.title).Some? && x == apply(s, FirstMatch(entries, s.title).value)
  }

  /** The configured list holds exactly the catalog series bound to an entry,
      each with its first matching entry applied; whether Sonarr monitors the
      series plays no part. */
  lemma {:induction false} ConfiguredMembership(catalog: seq<Series>, entries: seq<Value>, apply: (Series, map<string, Value>) -> Series, x: Series)
    ensures x in Configured(catalog, entries, apply) <==>
            exists i :: 0 <= i < |catalog| && Yields(entries, apply, catalog[i], x)
    decreases |catalog|
  {
    if catalog != [] {
      var n := |catalog| - 1;
      var pre, s := catalog[..n], catalog[n];
      ConfiguredMembership(pre, entries, apply, x);
      ConfiguredOneMembership(s, entries, apply, x);
      ExistsSnoc(catalog, pre, (t: Series) => Yields(entries, apply, t, x));
      assert Configured(catalog, entries, apply) == Configured(pre, entries, apply) + ConfiguredOne(s, entries, apply);
    }
  }

  lemma ExistsSnoc<T>(xs: seq<T>, pre: seq<T>, p: T -> bool)
    requires |xs| > 0 && pre == xs[..|xs| - 1]
    ensures (exists i :: 0 <= i < |xs| && p(xs[i])) <==>
            (exists i :: 0 <= i < |pre| && p(pre[i])) || p(xs[|xs| - 1])
  {
    if exists i :: 0 <= i < |xs| && p(xs[i]) {
      var i :| 0 <= i < |xs| && p(xs[i]);
      if i < |pre| {
        assert pre[i] == xs[i];
      }
    }
    if exists i :: 0 <= i < |pre| && p(pre[i]) {
      var i :| 0 <= i < |pre| && p(pre[i]);
      assert pre[i] == xs[i];
    }
  }

  lemma ConfiguredOneMembership(s: Series, entries: seq<Value>, apply: (Series, map<string, Value>) -> Series, x: Series)
    ensures x in ConfiguredOne(s, entries, apply) <==> Yields(entries, apply, s, x)
  {
  }

  /** A series contributes exactly when some entry is bound to its title: the
      entry found always holds a title, so the truthiness test on it never
      fails, and whether Sonarr monitors the series plays no part. */
  lemma ConfiguredOneIff(s: Series, entries: seq<Value>, apply: (Series, map<string, Value>) -> Series)
    ensures ConfiguredOne(s, entries, apply) != [] <==> exists i :: 0 <= i < |entries| && Binds(entries[i], s.title)
    ensures FirstMatch(entries, s.title).Some? ==>
              ConfiguredOne(s, entries, apply) == [apply(s, FirstMatch(entries, s.title).value)]
    ensures ConfiguredOne(s.(monitored := !s.monitored), entries, apply) != [] <==> ConfiguredOne(s, entries, apply) != []
  {
    var m := FirstMatch(entries, s.title);
    if m.Some? {
      assert "title" in m.value;
      assert |m.value| > 0;
    }
  }

  /** `filter_configured_series`, with its two nested loops; the inner one stops
      at the first entry bound to the series title. */
  method FilterConfiguredSeries(sonarr: Sonarr, entries: seq<Value>, apply: (Series, map<string, Value>) -> Series)
    returns (configured: seq<Series>)
    ensures !sonarr.allSeries.Fetched? ==> configured == []
    ensures sonarr.allSeries.Fetched? ==> configured == Configured(sonarr.allSeries.value, entries, apply)
  {
    if !sonarr.allSeries.Fetched? {
      return [];
    }
    var all := sonarr.allSeries.value;
    configured := [];
    for i := 0 to |all|
      invariant configured == Configured(all[..i], entries, apply)
    {
      var s := all[i];
      var matching: Option<map<string, Value>> := None;
      var j := 0;
      while j < |entries| && matching.None?
        invariant 0 <= j <= |entries|
        invariant matching.None? ==> FirstMatch(entries, s.title) == FirstMatch(entries[j..], s.title)
        invariant matching.Some? ==> matching == FirstMatch(entries, s.title)
        decreases |entries| - j
      {
        var config := entries[j];
        assert entries[j..][1..] == entries[j + 1..];
        if config.Dict? && Get(config.fields, "title", Nil) == Str(s.title) {
          matching := Some(config.fields);
        }
        j := j + 1;
      }
      assert all[..i + 1][..i] == all[..i];
      if matching.Some? && |matching.value| > 0 {
        configured := configured + [apply(s, matching.value)];
      }
    }
    assert all[..|all|] == all;
  }

  // ---------------------------------------------------------------------
  // get_missing_episodes

  /** The air date the schedule check compares with the clock. */
  function EffectiveAirDate(s: Series, airDate: int): (r: int)
    ensures r == ApplyTimeOffset(airDate, s.offset)
  {
    if s.offset != map[] then ApplyTimeOffset(airDate, s.offset) else airDate
  }

  /** Lines 172-188: monitored, without a file, and aired by `now`. */
  predicate Wanted(s: Series, e: Episode, now: int)
  {
    e.monitored && !e.hasFile && (e.airDate.None? || EffectiveAirDate(s, e.airDate.value) <= now)
  }

  /** Lines 191-196: the title rewrite, only when both its settings are set. */
  function Retitled(s: Series, regex: RegexEngine, e: Episode): (r: Episode)
    ensures r == e.(title := r.title)
    ensures s.regexMatch == "" || s.regexReplace == "" ==> r == e
  {
    if s.regexMatch != "" && s.regexReplace != "" then
      e.(title := ApplyRegexTransformation(regex, e.title, s.regexMatch, s.regexReplace))
    else e
  }

  /** The missing episodes of one series, in the order Sonarr lists them. */
  function SeriesMissing(s: Series, episodes: seq<Episode>, regex: RegexEngine, now: int): seq<Episode>
    decreases |episodes|
  {
    if episodes == [] then []
    else
      var e := episodes[|episodes| - 1];
      SeriesMissing(s, episodes[..|episodes| - 1], regex, now) + (if Wanted(s, e, now) then [Retitled(s, regex, e)] else [])
  }

  /** An episode is reported exactly when it is monitored, has no file and has
      aired, and it is reported with its rewritten title. */
  lemma {:induction false} SeriesMissingMembership(s: Series, episodes: seq<Episode>, regex: RegexEngine, now: int, x: Episode)
    ensures x in SeriesMissing(s, episodes, regex, now) <==>
            exists i :: 0 <= i < |episodes| && Wanted(s, episodes[i], now) && x == Retitled(s, regex, episodes[i])
    decreases |episodes|
  {
    if episodes != [] {
      var pre := episodes[..|episodes| - 1];
      SeriesMissingMembership(s, pre, regex, now, x);
      assert forall i :: 0 <= i < |pre| ==> pre[i] == episodes[i];
    }
  }

  /** No reported episode is unmonitored, already has a file, or airs after `now`. */
  lemma {:induction false} SeriesMissingWanted(s: Series, episodes: seq<Episode>, regex: RegexEngine, now: int)
    ensures forall x :: x in SeriesMissing(s, episodes, regex, now) ==> Wanted(s, x, now)
    decreases |episodes|
  {
    if episodes != [] {
      SeriesMissingWanted(s, episodes[..|episodes| - 1], regex, now);
    }
  }

  /** A monitored episode without a file and with an air date is skipped
      exactly when its (offset) air date is later than `now`; one without an
      air date is never skipped for its date. */
  lemma AirDateRule(s: Series, e: Episode, regex: RegexEngine, now: int)
    requires e.monitored && !e.hasFile
    ensures e.airDate.Some? ==>
              (SeriesMissing(s, [e], regex, now) == [] <==> ApplyTimeOffset(e.airDate.value, s.offset) > now)
    ensures e.airDate.None? ==> SeriesMissing(s, [e], regex, now) == [Retitled(s, regex, e)]
  {
    assert [e][..0] == [];
  }

  /** Removes the first element equal to `x`, as `if x in xs: xs.remove(x)`. */
  function RemoveFirst<T(==)>(xs: seq<T>, x: T): (r: seq<T>)
    ensures x !in xs ==> r == xs
    ensures x in xs ==> |r| == |xs| - 1
  {
    if xs == [] then []
    else
      assert xs == [xs[0]] + xs[1..];
      if xs[0] == x then xs[1..]
      else [xs[0]] + RemoveFirst(xs[1..], x)
  }

  /** Exactly one occurrence of `x` goes, if there is one. */
  lemma {:induction false} RemoveFirstMultiset<T>(xs: seq<T>, x: T)
    ensures multiset(RemoveFirst(xs, x)) == multiset(xs) - multiset{x}
  {
    if xs != [] {
      assert xs == [xs[0]] + xs[1..];
      RemoveFirstMultiset(xs[1..], x);
    }
  }

  lemma {:induction false} RemoveFirstAfter<T>(a: seq<T>, b: seq<T>, x: T)
    requires x !in a && b != [] && b[0] == x
    ensures RemoveFirst(a + b, x) == a + b[1..]
  {
    if a == [] {
      assert a + b == b;
    } else {
      var ab := a + b;
      assert ab[0] == a[0] && a[0] != x;
      assert ab[1..] == a[1..] + b;
      RemoveFirstAfter(a[1..], b, x);
      assert RemoveFirst(ab, x) == [a[0]] + (a[1..] + b[1..]);
      assert [a[0]] + (a[1..] + b[1..]) == a + b[1..];
    }
  }

  /** Where a scan of the series list has got to. */
  datatype Progress = Progress(remaining: seq<Series>, missing: seq<Episode>, raised: bool)

  /** One pass of the outer loop: an API error skips the series, any other
      exception ends the scan, and a series with nothing missing is removed. */
  function ScanStep(sonarr: Sonarr, regex: RegexEngine, now: int, p: Progress, s: Series): Progress
  {
    if p.raised then p
    else match sonarr.episodesOf(s.id)
      case ApiError => p
      case OtherError => p.(raised := true)
      case Fetched(episodes) =>
        var found := SeriesMissing(s, episodes, regex, now);
        if found == [] then p.(remaining := RemoveFirst(p.remaining, s))
        else p.(missing := p.missing + found)
  }

  /** The scan of `work`, a copy of the list `list`, from its start. */
  function Scan(sonarr: Sonarr, regex: RegexEngine, now: int, list: seq<Series>, work: seq<Series>): Progress
    decreases |work|
  {
    if work == [] then Progress(list, [], false)
    else ScanStep(sonarr, regex, now, Scan(sonarr, regex, now, list, work[..|work| - 1]), work[|work| - 1])
  }

  /** A series Sonarr answered for and that has nothing missing. */
  predicate NothingMissing(sonarr: Sonarr, regex: RegexEngine, now: int, s: Series)
  {
    sonarr.episodesOf(s.id).Fetched? && SeriesMissing(s, sonarr.episodesOf(s.id).value, regex, now) == []
  }

  /** The series that stay in the caller's list, in order. */
  function Kept(sonarr: Sonarr, regex: RegexEngine, now: int, xs: seq<Series>): (r: seq<Series>)
    ensures forall x :: x in r ==> x in xs && !NothingMissing(sonarr, regex, now, x)
    decreases |xs|
  {
    if xs == [] then []
    else
      var x := xs[|xs| - 1];
      Kept(sonarr, regex, now, xs[..|xs| - 1]) + (if NothingMissing(sonarr, regex, now, x) then [] else [x])
  }

  lemma PrefixLast<T>(xs: seq<T>, k: nat)
    requires 0 < k <= |xs|
    ensures xs[..k][..k - 1] == xs[..k - 1] && xs[..k][k - 1] == xs[k - 1]
    ensures xs[k - 1..] == [xs[k - 1]] + xs[k..]
  {
  }

  /** One step of the scan on a list of the shape `kept + [s] + rest`. */
  lemma ScanStepRemaining(sonarr: Sonarr, regex: RegexEngine, now: int, p: Progress, kept: seq<Series>, s: Series, rest: seq<Series>)
    requires !p.raised && p.remaining == kept + [s] + rest
    requires NothingMissing(sonarr, regex, now, s) ==> s !in kept
    requires !ScanStep(sonarr, regex, now, p, s).raised
    ensures ScanStep(sonarr, regex, now, p, s).remaining
            == kept + (if NothingMissing(sonarr, regex, now, s) then [] else [s]) + rest
  {
    if NothingMissing(sonarr, regex, now, s) {
      assert kept + [s] + rest == kept + ([s] + rest);
      RemoveFirstAfter(kept, [s] + rest, s);
      assert ([s] + rest)[1..] == rest;
    }
  }

  /** While no exception other than an API error occurs, after the first k
      series the caller's list is the kept ones among them followed by the
      rest untouched. */
  lemma {:induction false} ScanRemaining(sonarr: Sonarr, regex: RegexEngine, now: int, list: seq<Series>, k: nat)
    requires k <= |list|
    requires !Scan(sonarr, regex, now, list, list[..k]).raised
    ensures Scan(sonarr, regex, now, list, list[..k]).remaining == Kept(sonarr, regex, now, list[..k]) + list[k..]
  {
    if k == 0 {
      assert list[..0] == [];
      assert list[0..] == list;
    } else {
      var work, pre, s, rest := list[..k], list[..k - 1], list[k - 1], list[k..];
      PrefixLast(list, k);
      var p := Scan(sonarr, regex, now, list, pre);
      assert Scan(sonarr, regex, now, list, work) == ScanStep(sonarr, regex, now, p, s);
      ScanRemaining(sonarr, regex, now, list, k - 1);
      var kept := Kept(sonarr, regex, now, pre);
      AppendAssoc(kept, [s], rest);
      ScanStepRemaining(sonarr, regex, now, p, kept, s, rest);
      var x := if NothingMissing(sonarr, regex, now, s) then [] else [s];
      assert Kept(sonarr, regex, now, work) == kept + x;
    }
  }

  /** The scan of the whole list, when it completes, leaves exactly the series
      whose episode fetch failed with an API error or that have something
      missing, in their original order. */
  lemma ScanKeepsListed(sonarr: Sonarr, regex: RegexEngine, now: int, list: seq<Series>)
    requires !Scan(sonarr, regex, now, list, list).raised
    ensures Scan(sonarr, regex, now, list, list).remaining == Kept(sonarr, regex, now, list)
    ensures forall s :: s in list && sonarr.episodesOf(s.id).ApiError? ==> s in Scan(sonarr, regex, now, list, list).remaining
  {
    assert list[..|list|] == list;
    ScanRemaining(sonarr, regex, now, list, |list|);
    assert list[|list|..] == [];
    assert Scan(sonarr, regex, now, list, list).remaining == Kept(sonarr, regex, now, list);
    forall s | s in list && sonarr.episodesOf(s.id).ApiError?
      ensures s in Kept(sonarr, regex, now, list)
    {
      KeptIncludes(sonarr, regex, now, list, s);
    }
  }

  lemma {:induction false} KeptIncludes(sonarr: Sonarr, regex: RegexEngine, now: int, xs: seq<Series>, s: Series)
    requires s in xs && !NothingMissing(sonarr, regex, now, s)
    ensures s in Kept(sonarr, regex, now, xs)
    decreases |xs|
  {
    if xs[|xs| - 1] != s {
      assert s in xs[..|xs| - 1];
      KeptIncludes(sonarr, regex, now, xs[..|xs| - 1], s);
    }
  }

  /** Every episode the scan reports is monitored, has no file and has aired. */
  lemma {:induction false} ScanMissingWanted(sonarr: Sonarr, regex: RegexEngine, now: int, list: seq<Series>, work: seq<Series>)
    ensures forall x :: x in Scan(sonarr, regex, now, list, work).missing ==>
              x.monitored && !x.hasFile && exists s :: s in work && Wanted(s, x, now)
    decreases |work|
  {
    if work != [] {
      var pre := work[..|work| - 1];
      var s := work[|work| - 1];
      ScanMissingWanted(sonarr, regex, now, list, pre);
      var p := Scan(sonarr, regex, now, list, pre);
      if !p.raised && sonarr.episodesOf(s.id).Fetched? {
        SeriesMissingWanted(s, sonarr.episodesOf(s.id).value, regex, now);
      }
      forall x | x in Scan(sonarr, regex, now, list, work).missing
        ensures x.monitored && !x.hasFile && exists s :: s in work && Wanted(s, x, now)
      {
        if x in p.missing {
          var t :| t in pre && Wanted(t, x, now);
          assert t in work;
        } else {
          assert s in work && Wanted(s, x, now);
        }
      }
    }
  }

  /** The caller's series list, which `get_missing_episodes` edits in place. */
  class SeriesList {
    var items: seq<Series>

    constructor (items0: seq<Series>)
      ensures items == items0
    {
      items := items0;
    }

    /** `if series in series_list: series_list.remove(series)`. */
    method Discard(s: Series)
      modifies this
      ensures items == RemoveFirst(old(items), s)
    {
      if s in items {
        var k := 0;
        while items[k] != s
          invariant 0 <= k < |items| && s in items[k..]
          invariant forall j :: 0 <= j < k ==> items[j] != s
          decreases |items| - k
        {
          k := k + 1;
        }
        assert s !in items[..k] && items[k..][0] == s;
        assert items == items[..k] + items[k..];
        RemoveFirstAfter(items[..k], items[k..], s);
        assert items[k..][1..] == items[k + 1..];
        items := items[..k] + items[k + 1..];
      }
    }
  }

  /** The inner loop of lines 170-199 over one series' episodes. */
  method CollectMissing(s: Series, episodes: seq<Episode>, regex: RegexEngine, now: int) returns (found: seq<Episode>)
    ensures found == SeriesMissing(s, episodes, regex, now)
  {
    found := [];
    for i := 0 to |episodes|
      invariant found == SeriesMissing(s, episodes[..i], regex, now)
    {
      assert episodes[..i + 1][..i] == episodes[..i];
      var e := episodes[i];
      if !e.monitored {
        continue;
      }
      if e.hasFile {
        continue;
      }
      if e.airDate.Some? {
        var airDate := e.airDate.value;
        if s.offset != map[] {
          airDate := ApplyTimeOffset(airDate, s.offset);
        }
        if airDate > now {
          continue;
        }
      }
      if s.regexMatch != "" && s.regexReplace != "" {
        e := e.(title := ApplyRegexTransformation(regex, e.title, s.regexMatch, s.regexReplace));
      }
      found := found + [e];
    }
    assert episodes[..|episodes|] == episodes;
  }

  /** `get_missing_episodes`: the missing episodes, and whether an exception
      other than an API error escaped; the list is edited as the scan goes. */
  method GetMissingEpisodes(sonarr: Sonarr, regex: RegexEngine, now: int, list: SeriesList)
    returns (missing: seq<Episode>, raised: bool)
    modifies list
    ensures Progress(list.items, missing, raised) == Scan(sonarr, regex, now, old(list.items), old(list.items))
  {
    var work := list.items;
    missing, raised := [], false;
    for i := 0 to |work|
      invariant Progress(list.items, missing, raised) == Scan(sonarr, regex, now, work, work[..i])
      invariant !raised
    {
      assert work[..i + 1][..i] == work[..i];
      var s := work[i];
      var fetched := sonarr.episodesOf(s.id);
      if fetched.ApiError? {
        continue;
      }
      if fetched.OtherError? {
        raised := true;
        assert Progress(list.items, missing, raised) == Scan(sonarr, regex, now, work, work[..i + 1]);
        ScanRaisedFrozen(sonarr, regex, now, work, i + 1, |work|);
        assert work[..|work|] == work;
        return;
      }
      var found := CollectMissing(s, fetched.value, regex, now);
      missing := missing + found;
      if found == [] {
        list.Discard(s);
      }
    }
    assert work[..|work|] == work;
  }

  lemma PrefixOfPrefix<T>(xs: seq<T>, j: nat)
    requires 0 < j <= |xs|
    ensures xs[..j][..j - 1] == xs[..j - 1]
  {
  }

  /** Once raised, later series change nothing. */
  lemma {:induction false} ScanRaisedFrozen(sonarr: Sonarr, regex: RegexEngine, now: int, list: seq<Series>, i: nat, j: nat)
    requires i <= j <= |list|
    requires Scan(sonarr, regex, now, list, list[..i]).raised
    ensures Scan(sonarr, regex, now, list, list[..j]) == Scan(sonarr, regex, now, list, list[..i])
    decreases j - i
  {
    if j > i {
      ScanRaisedFrozen(sonarr, regex, now, list, i, j - 1);
      PrefixOfPrefix(list, j);
      var p := Scan(sonarr, regex, now, list, list[..j - 1]);
      assert Scan(sonarr, regex, now, list, list[..j]) == ScanStep(sonarr, regex, now, p, list[..j][j - 1]);
    }
  }

  // ---------------------------------------------------------------------
  // download_episodes

  /** `[ep for ep in episodes if ep.series_id == series.id]`. */
  function EpisodesOf(s: Series, episodes: seq<Episode>): (r: seq<Episode>)
    ensures forall e :: e in r <==> e in episodes && e.seriesId == s.id
    decreases |episodes|
  {
    if episodes == [] then []
    else
      var e := episodes[|episodes| - 1];
      EpisodesOf(s, episodes[..|episodes| - 1]) + (if e.seriesId == s.id then [e] else [])
  }

  /** The pairs of one series with its episodes, as the inner loop visits them. */
  function SeriesJobs(s: Series, episodes: seq<Episode>): (r: seq<(Series, Episode)>)
    ensures |r| == |EpisodesOf(s, episodes)|
    ensures forall k :: 0 <= k < |r| ==> r[k] == (s, EpisodesOf(s, episodes)[k])
  {
    var mine := EpisodesOf(s, episodes);
    seq(|mine|, k requires 0 <= k < |mine| => (s, mine[k]))
  }

  /** The (series, episode) pairs the nested loops visit, in order. */
  function Jobs(list: seq<Series>, episodes: seq<Episode>): (r: seq<(Series, Episode)>)
    decreases |list|
  {
    if list == [] then []
    else Jobs(list[..|list| - 1], episodes) + SeriesJobs(list[|list| - 1], episodes)
  }

  /** Every series of the list is paired with exactly the episodes that name
      it, so an episode is attempted once per list entry of its series. */
  lemma {:induction false} JobsMembership(list: seq<Series>, episodes: seq<Episode>, s: Series, e: Episode)
    ensures (s, e) in Jobs(list, episodes) <==> s in list && e in episodes && e.seriesId == s.id
    decreases |list|
  {
    if list != [] {
      var pre := list[..|list| - 1];
      var last := list[|list| - 1];
      JobsMembership(pre, episodes, s, e);
      var mine := EpisodesOf(last, episodes);
      var tail := SeriesJobs(last, episodes);
      assert list == pre + [last];
      if s == last && e in mine {
        var k :| 0 <= k < |mine| && mine[k] == e;
        assert tail[k] == (s, e);
      }
      if (s, e) in tail {
        var k :| 0 <= k < |tail| && tail[k] == (s, e);
        assert mine[k] == e;
      }
    }
  }

  datatype Attempt = NotFound | DownloadFailed | Downloaded

  /** Lines 242-267 for one episode: search, then download what was found. */
  function AttemptOf(svc: Service, s: Series, e: Episode): Attempt
  {
    var (found, url) := SearchForEpisode(svc, s, e);
    if !found then NotFound
    else if DownloadEpisode(svc, s, e, url).success then Downloaded
    else DownloadFailed
  }

  /** The result dictionary of `download_episodes`. */
  datatype Stats = Stats(total: int, success: int, failed: int)

  /** Where the download loop has got to: the statistics, the series rescans
      requested, and whether a rescan raised an exception other than an API
      error (which ends the loop and loses the statistics). */
  datatype Tally = Tally(stats: Stats, rescans: seq<int>, raised: bool)

  function TallyStep(svc: Service, sonarr: Sonarr, t: Tally, job: (Series, Episode)): Tally
  {
    if t.raised then t else Record(sonarr, t, job.0, AttemptOf(svc, job.0, job.1))
  }

  /** Lines 246-264: count one attempt for series s, asking for a rescan of s
      after a download. */
  function Record(sonarr: Sonarr, t: Tally, s: Series, attempt: Attempt): Tally
  {
    var counted := t.stats.(total := t.stats.total + 1);
    if attempt == Downloaded then
      Tally(counted.(success := counted.success + 1), t.rescans + [s.id], sonarr.rescan(s.id).OtherError?)
    else
      Tally(counted.(failed := counted.failed + 1), t.rescans, false)
  }

  function Count(svc: Service, sonarr: Sonarr, jobs: seq<(Series, Episode)>): Tally
    decreases |jobs|
  {
    if jobs == [] then Tally(Stats(0, 0, 0), [], false)
    else TallyStep(svc, sonarr, Count(svc, sonarr, jobs[..|jobs| - 1]), jobs[|jobs| - 1])
  }

  /** The number of jobs that end in a download. */
  function Downloads(svc: Service, jobs: seq<(Series, Episode)>): nat
    decreases |jobs|
  {
    if jobs == [] then 0
    else Downloads(svc, jobs[..|jobs| - 1]) + (if AttemptOf(svc, jobs[|jobs| - 1].0, jobs[|jobs| - 1].1) == Downloaded then 1 else 0)
  }

  /** The counters always balance: every counted episode is a success or a
      failure, and each success requested one rescan of its series; when the
      loop completes, every pair was counted and the successes are exactly
      the episodes that were found and downloaded. */
  lemma {:induction false} CountBalanced(svc: Service, sonarr: Sonarr, jobs: seq<(Series, Episode)>)
    ensures var t := Count(svc, sonarr, jobs);
            && t.stats.success + t.stats.failed == t.stats.total
            && |t.rescans| == t.stats.success
            && 0 <= t.stats.total <= |jobs|
            && (!t.raised ==> t.stats.total == |jobs| && t.stats.success == Downloads(svc, jobs))
    decreases |jobs|
  {
    if jobs != [] {
      var pre := jobs[..|jobs| - 1];
      CountBalanced(svc, sonarr, pre);
      var t := Count(svc, sonarr, pre);
      if t.raised {
        assert Count(svc, sonarr, jobs) == t;
        assert !Count(svc, sonarr, jobs).raised ==> false;
      }
    }
  }

  /** A rescan that fails with an API error changes nothing in the statistics. */
  lemma {:induction false} RescanApiErrorsIgnored(svc: Service, sonarr: Sonarr, jobs: seq<(Series, Episode)>)
    requires forall id :: !sonarr.rescan(id).OtherError?
    ensures Count(svc, sonarr, jobs) == Count(svc, sonarr.(rescan := (id: int) => Fetched(())), jobs)
    ensures !Count(svc, sonarr, jobs).raised
    decreases |jobs|
  {
    if jobs != [] {
      RescanApiErrorsIgnored(svc, sonarr, jobs[..|jobs| - 1]);
    }
  }

  /** Lines 239-267 for one episode, the statistics held in `t`. */
  method ProcessEpisode(svc: Service, sonarr: Sonarr, t: Tally, s: Series, e: Episode) returns (t': Tally)
    requires !t.raised
    ensures t' == TallyStep(svc, sonarr, t, (s, e))
  {
    var stats := t.stats.(total := t.stats.total + 1);
    ghost var attempt := AttemptOf(svc, s, e);
    assert TallyStep(svc, sonarr, t, (s, e)) == Record(sonarr, t, s, attempt);
    var search := SearchForEpisode(svc, s, e);
    var found, url := search.0, search.1;
    if found {
      var result := DownloadEpisode(svc, s, e, url);
      if result.success {
        AttemptDownloaded(svc, s, e);
        stats := stats.(success := stats.success + 1);
        var rescan := sonarr.rescan(s.id);
        return Tally(stats, t.rescans + [s.id], rescan.OtherError?);
      } else {
        AttemptDownloaded(svc, s, e);
        stats := stats.(failed := stats.failed + 1);
      }
    } else {
      AttemptDownloaded(svc, s, e);
      stats := stats.(failed := stats.failed + 1);
    }
    return Tally(stats, t.rescans, false);
  }

  /** What AttemptOf decides, read off the search and the download. */
  lemma AttemptDownloaded(svc: Service, s: Series, e: Episode)
    ensures AttemptOf(svc, s, e) == Downloaded <==>
              SearchForEpisode(svc, s, e).0 && DownloadEpisode(svc, s, e, SearchForEpisode(svc, s, e).1).success
  {
  }

  lemma CountNext(svc: Service, sonarr: Sonarr, done: seq<(Series, Episode)>, pairs: seq<(Series, Episode)>, j: nat)
    requires j < |pairs|
    ensures Count(svc, sonarr, done + pairs[..j + 1]) == TallyStep(svc, sonarr, Count(svc, sonarr, done + pairs[..j]), pairs[j])
  {
    SnocSlice(done, pairs, j);
    CountSnoc(svc, sonarr, done + pairs[..j], pairs[j]);
  }

  lemma CountSnoc(svc: Service, sonarr: Sonarr, jobs: seq<(Series, Episode)>, job: (Series, Episode))
    ensures Count(svc, sonarr, jobs + [job]) == TallyStep(svc, sonarr, Count(svc, sonarr, jobs), job)
  {
    LastOfSnoc(jobs, job);
  }

  lemma LastOfSnoc<T>(xs: seq<T>, x: T)
    ensures |xs + [x]| - 1 == |xs| && (xs + [x])[..|xs|] == xs && (xs + [x])[|xs|] == x
  {
  }

  lemma SnocSlice<T>(a: seq<T>, p: seq<T>, j: nat)
    requires j < |p|
    ensures a + p[..j + 1] == (a + p[..j]) + [p[j]]
  {
    assert p[..j + 1] == p[..j] + [p[j]];
  }

  /** The jobs cut just after the j-th pair of series i. */
  lemma JobsSplit(list: seq<Series>, episodes: seq<Episode>, i: nat, j: nat)
    requires i < |list| && j < |SeriesJobs(list[i], episodes)|
    ensures Jobs(list, episodes)
            == (Jobs(list[..i], episodes) + SeriesJobs(list[i], episodes)[..j + 1])
               + (SeriesJobs(list[i], episodes)[j + 1..] + Jobs(list[i + 1..], episodes))
  {
    var front := list[..i + 1];
    var back := list[i + 1..];
    var a := Jobs(list[..i], episodes);
    var p := SeriesJobs(list[i], episodes);
    var b := Jobs(back, episodes);
    assert list == front + back;
    JobsAppend(front, back, episodes);
    assert front[..i] == list[..i] && front[i] == list[i];
    assert Jobs(front, episodes) == a + p;
    assert p == p[..j + 1] + p[j + 1..];
    SeqRegroup(a, p[..j + 1], p[j + 1..], b);
  }

  lemma SeqRegroup<T>(a: seq<T>, p: seq<T>, q: seq<T>, b: seq<T>)
    ensures a + (p + q) + b == (a + p) + (q + b)
  {
  }

  /** A rescan raising in the middle of series i ends the whole count there. */
  lemma CountRaisedWhole(svc: Service, sonarr: Sonarr, list: seq<Series>, episodes: seq<Episode>, i: nat, j: nat)
    requires i < |list| && j < |SeriesJobs(list[i], episodes)|
    requires Count(svc, sonarr, Jobs(list[..i], episodes) + SeriesJobs(list[i], episodes)[..j + 1]).raised
    ensures Count(svc, sonarr, Jobs(list, episodes))
            == Count(svc, sonarr, Jobs(list[..i], episodes) + SeriesJobs(list[i], episodes)[..j + 1])
  {
    JobsSplit(list, episodes, i, j);
    CountFrozen(svc, sonarr, Jobs(list[..i], episodes) + SeriesJobs(list[i], episodes)[..j + 1],
                SeriesJobs(list[i], episodes)[j + 1..] + Jobs(list[i + 1..], episodes));
  }

  /** The inner loop of lines 238-267 over the episodes of one series; `cut`
      is how many of its pairs were counted, fewer than all only when a
      rescan raised. */
  method DownloadSeries(svc: Service, sonarr: Sonarr, t0: Tally, s: Series, episodes: seq<Episode>,
                        ghost done: seq<(Series, Episode)>)
    returns (t: Tally, ghost cut: nat)
    requires !t0.raised && t0 == Count(svc, sonarr, done)
    ensures cut <= |SeriesJobs(s, episodes)|
    ensures t == Count(svc, sonarr, done + SeriesJobs(s, episodes)[..cut])
    ensures !t.raised ==> cut == |SeriesJobs(s, episodes)|
    ensures t.raised ==> cut > 0
  {
    var mine := EpisodesOf(s, episodes);
    ghost var pairs := SeriesJobs(s, episodes);
    t := t0;
    assert done + pairs[..0] == done;
    for j := 0 to |mine|
      invariant t == Count(svc, sonarr, done + pairs[..j])
      invariant !t.raised
    {
      CountNext(svc, sonarr, done, pairs, j);
      assert pairs[j] == (s, mine[j]);
      t := ProcessEpisode(svc, sonarr, t, s, mine[j]);
      if t.raised {
        return t, j + 1;
      }
    }
    cut := |mine|;
  }

  /** `download_episodes`: the statistics, the rescans requested in order, and
      whether a rescan raised an exception other than an API error. */
  method DownloadEpisodes(svc: Service, sonarr: Sonarr, list: seq<Series>, episodes: seq<Episode>)
    returns (stats: Stats, rescans: seq<int>, raised: bool)
    ensures list == [] ==> stats == Stats(0, 0, 0) && rescans == [] && !raised
    ensures Tally(stats, rescans, raised) == Count(svc, sonarr, Jobs(list, episodes))
  {
    if list == [] {
      return Stats(0, 0, 0), [], false;
    }
    var t := Tally(Stats(0, 0, 0), [], false);
    for i := 0 to |list|
      invariant t == Count(svc, sonarr, Jobs(list[..i], episodes))
      invariant !t.raised
    {
      ghost var cut;
      t, cut := DownloadSeries(svc, sonarr, t, list[i], episodes, Jobs(list[..i], episodes));
      if t.raised {
        CountRaisedWhole(svc, sonarr, list, episodes, i, cut - 1);
        return t.stats, t.rescans, t.raised;
      }
      JobsNext(list, episodes, i);
    }
    assert list[..|list|] == list;
    return t.stats, t.rescans, t.raised;
  }

  lemma JobsNext(list: seq<Series>, episodes: seq<Episode>, i: nat)
    requires i < |list|
    ensures Jobs(list[..i + 1], episodes) == Jobs(list[..i], episodes) + SeriesJobs(list[i], episodes)[..|SeriesJobs(list[i], episodes)|]
  {
    var front := list[..i + 1];
    assert front[..i] == list[..i] && front[i] == list[i];
    var p := SeriesJobs(list[i], episodes);
    assert p[..|p|] == p;
  }

  /** The jobs of two lists one after the other. */
  lemma {:induction false} JobsAppend(a: seq<Series>, b: seq<Series>, episodes: seq<Episode>)
    ensures Jobs(a + b, episodes) == Jobs(a, episodes) + Jobs(b, episodes)
    decreases |b|
  {
    if b == [] {
      AppendEmpty(a);
    } else {
      var b', last := b[..|b| - 1], b[|b| - 1];
      var ab := a + b;
      AppendSplit(a, b);
      assert Jobs(ab, episodes) == Jobs(a + b', episodes) + SeriesJobs(last, episodes);
      JobsAppend(a, b', episodes);
      assert Jobs(b, episodes) == Jobs(b', episodes) + SeriesJobs(last, episodes);
      AppendAssoc(Jobs(a, episodes), Jobs(b', episodes), SeriesJobs(last, episodes));
    }
  }

  /** Once a rescan raised, the remaining jobs are never counted. */
  lemma {:induction false} CountFrozen(svc: Service, sonarr: Sonarr, done: seq<(Series, Episode)>, rest: seq<(Series, Episode)>)
    requires Count(svc, sonarr, done).raised
    ensures Count(svc, sonarr, done + rest) == Count(svc, sonarr, done)
    decreases |rest|
  {
    if rest == [] {
      assert done + rest == done;
    } else {
      var rest' := rest[..|rest| - 1];
      assert (done + rest)[..|done + rest| - 1] == done + rest';
      CountFrozen(svc, sonarr, done, rest');
    }
  }

  // ---------------------------------------------------------------------
  // run_scan

  /** How a scan cycle ends: with nothing configured, with nothing missing,
      with download statistics, or with an exception `run_scan` logged. */
  datatype ScanOutcome = NoSeries | NoEpisodes | Completed(stats: Stats, rescans: seq<int>) | Failed

  /** The entries of the `series` section. */
  function SeriesEntries(config: Value): (r: seq<Value>)
    requires Acceptable(config)
    ensures WellFormedEntries(r)
  {
    config.fields["series"].items
  }

  /** The cycle `run_scan` runs, step by step. */
  function ScanCycle(app: Application, now: int): ScanOutcome
    requires Constructed(app)
  {
    var configured := if app.sonarr.allSeries.Fetched?
                      then Configured(app.sonarr.allSeries.value, SeriesEntries(app.config), app.applyConfig)
                      else [];
    if configured == [] then NoSeries
    else
      var p := Scan(app.sonarr, app.regex, now, configured, configured);
      if p.raised then Failed
      else if p.missing == [] then NoEpisodes
      else
        var t := Count(app.ytdlp, app.sonarr, Jobs(p.remaining, p.missing));
        if t.raised then Failed else Completed(t.stats, t.rescans)
  }

  /** Sonarr lists under a series id only episodes of that series. */
  ghost predicate Consistent(sonarr: Sonarr)
  {
    forall id, e :: sonarr.episodesOf(id).Fetched? && e in sonarr.episodesOf(id).value ==> e.seriesId == id
  }

  /** A completed cycle balances its counts, and with a consistent Sonarr it
      attempted at least one episode. */
  lemma ScanCycleBalanced(app: Application, now: int)
    requires Constructed(app) && Consistent(app.sonarr)
    ensures ScanCycle(app, now).Completed? ==>
              var st := ScanCycle(app, now).stats;
              && st.success + st.failed == st.total
              && |ScanCycle(app, now).rescans| == st.success
              && st.total > 0
  {
    if ScanCycle(app, now).Completed? {
      var configured := Configured(app.sonarr.allSeries.value, SeriesEntries(app.config), app.applyConfig);
      var p := Scan(app.sonarr, app.regex, now, configured, configured);
      var jobs := Jobs(p.remaining, p.missing);
      CountBalanced(app.ytdlp, app.sonarr, jobs);
      ScanJobsNonEmpty(app.sonarr, app.regex, now, configured);
    }
  }

  /** When the scan completes with something missing, the kept series own at
      least one missing episode, so at least one job is attempted. */
  lemma ScanJobsNonEmpty(sonarr: Sonarr, regex: RegexEngine, now: int, list: seq<Series>)
    requires Consistent(sonarr)
    requires !Scan(sonarr, regex, now, list, list).raised
    requires Scan(sonarr, regex, now, list, list).missing != []
    ensures |Jobs(Scan(sonarr, regex, now, list, list).remaining, Scan(sonarr, regex, now, list, list).missing)| > 0
  {
    var p := Scan(sonarr, regex, now, list, list);
    var x := p.missing[0];
    var s := ScanMissingOwner(sonarr, regex, now, list, list, x);
    var episodes := sonarr.episodesOf(s.id).value;
    SeriesMissingMembership(s, episodes, regex, now, x);
    var i :| 0 <= i < |episodes| && Wanted(s, episodes[i], now) && x == Retitled(s, regex, episodes[i]);
    assert x.seriesId == s.id;
    ScanKeepsListed(sonarr, regex, now, list);
    KeptIncludes(sonarr, regex, now, list, s);
    JobsMembership(p.remaining, p.missing, s, x);
  }

  /** Every reported episode comes from the episodes Sonarr listed for one
      series of the work list. */
  lemma {:induction false} ScanMissingOwner(sonarr: Sonarr, regex: RegexEngine, now: int, list: seq<Series>, work: seq<Series>, x: Episode)
    returns (s: Series)
    requires x in Scan(sonarr, regex, now, list, work).missing
    ensures s in work && sonarr.episodesOf(s.id).Fetched?
    ensures x in SeriesMissing(s, sonarr.episodesOf(s.id).value, regex, now)
    decreases |work|
  {
    var pre := work[..|work| - 1];
    var p := Scan(sonarr, regex, now, list, pre);
    if x in p.missing {
      s := ScanMissingOwner(sonarr, regex, now, list, pre, x);
    } else {
      s := work[|work| - 1];
    }
  }

  /** `run_scan`: the pipeline with the exceptions it catches. */
  method RunScan(app: Application, now: int) returns (outcome: ScanOutcome)
    requires Constructed(app)
    ensures outcome == ScanCycle(app, now)
  {
    var configured := FilterConfiguredSeries(app.sonarr, SeriesEntries(app.config), app.applyConfig);
    if configured == [] {
      return NoSeries;
    }
    var list := new SeriesList(configured);
    var missing, raised := GetMissingEpisodes(app.sonarr, app.regex, now, list);
    if raised {
      return Failed;
    }
    if missing == [] {
      return NoEpisodes;
    }
    var stats, rescans, failed := DownloadEpisodes(app.ytdlp, app.sonarr, list.items, missing);
    if failed {
      return Failed;
    }
    return Completed(stats, rescans);
  }
}
