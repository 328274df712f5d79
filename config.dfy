/** The configuration manager of app/src/config/__init__.py: the structural
    checks `_validate_config` applies to the loaded YAML document, the section
    and value accessors, and the cache `load_config` keeps in `self._config`.
    Reading and parsing the file are abstract: the file is given as what the
    YAML loader makes of it. */
module Config {
  import opened Basics
  import opened PyValue

  /** What a configuration operation ends in: a value, a ConfigError with its
      message, the process exit `_handle_missing_config` performs, or another
      exception (TypeError, AttributeError) the code does not catch. */
  datatype Outcome<T> = Ok(value: T) | ConfigError(message: string) | Exit | Crash

  const RequiredSections: seq<string> := ["sonarr", "ytdl", "series"]
  const RequiredSonarrKeys: seq<string> := ["host", "port", "apikey"]

  const SectionMissing: string := "Missing required configuration section: "
  const SonarrKeyMissing: string := "Missing required Sonarr configuration: "
  const EmptyConfig: string := "Configuration is empty"
  const SeriesNotList: string := "Series configuration must be a list"

  function SeriesNotDict(i: int): string
  {
    "Series " + IntToStr(i) + " must be a dictionary"
  }

  function SeriesIncomplete(i: int): string
  {
    "Series " + IntToStr(i) + " must have 'title' and 'url' fields"
  }

  /** Python's `container[key]` for a string key; None where it raises
      (KeyError for a missing key, TypeError for anything but a dictionary). */
  function Index(container: Value, key: string): Option<Value>
  {
    if container.Dict? && key in container.fields then Some(container.fields[key]) else None
  }

  /** `for key in keys: if key not in container: raise ConfigError(prefix + key)`. */
  function CheckKeys(keys: seq<string>, container: Value, prefix: string): Outcome<()>
  {
    if keys == [] then Ok(())
    else match Contains(container, keys[0])
      case None => Crash
      case Some(false) => ConfigError(prefix + keys[0])
      case Some(true) => CheckKeys(keys[1..], container, prefix)
  }

  /** The series-entry loop of `_validate_config`, from position `from` on. */
  function CheckSeriesEntries(items: seq<Value>, from: int): Outcome<()>
  {
    if items == [] then Ok(())
    else if !items[0].Dict? then ConfigError(SeriesNotDict(from))
    else if "title" !in items[0].fields || "url" !in items[0].fields then ConfigError(SeriesIncomplete(from))
    else CheckSeriesEntries(items[1..], from + 1)
  }

  /** `_validate_config` on the loaded document: the first check that fails
      decides the outcome. */
  function Validation(config: Value): Outcome<()>
  {
    if !Truthy(config) then ConfigError(EmptyConfig)
    else match CheckKeys(RequiredSections, config, SectionMissing)
      case Ok(_) =>
        (match Index(config, "sonarr")
         case None => Crash
         case Some(sonarr) =>
           match CheckKeys(RequiredSonarrKeys, sonarr, SonarrKeyMissing)
           case Ok(_) =>
             // `config` is a dictionary holding "series" here (see ValidationAccepts)
             var series := Get(config.fields, "series", Nil);
             if !series.List? then ConfigError(SeriesNotList)
             else CheckSeriesEntries(series.items, 0)
           case failed => failed)
      case failed => failed
  }

  /** The shape the application relies on, stated directly. */
  predicate Acceptable(config: Value)
  {
    && config.Dict?
    && "sonarr" in config.fields && "ytdl" in config.fields && "series" in config.fields
    && Contains(config.fields["sonarr"], "host") == Some(true)
    && Contains(config.fields["sonarr"], "port") == Some(true)
    && Contains(config.fields["sonarr"], "apikey") == Some(true)
    && config.fields["series"].List?
    && WellFormedEntries(config.fields["series"].items)
  }

  /** Every series entry is a dictionary with a title and a url. */
  predicate WellFormedEntries(items: seq<Value>)
  {
    forall i :: 0 <= i < |items| ==> items[i].Dict? && "title" in items[i].fields && "url" in items[i].fields
  }

  lemma {:induction false} CheckKeysOk(keys: seq<string>, container: Value, prefix: string)
    ensures CheckKeys(keys, container, prefix).Ok? <==>
            forall i :: 0 <= i < |keys| ==> Contains(container, keys[i]) == Some(true)
  {
    if keys != [] {
      CheckKeysOk(keys[1..], container, prefix);
      if CheckKeys(keys, container, prefix).Ok? {
        forall i | 0 <= i < |keys|
          ensures Contains(container, keys[i]) == Some(true)
        {
          if i > 0 {
            assert keys[i] == keys[1..][i - 1];
          }
        }
      }
    }
  }

  lemma {:induction false} CheckSeriesEntriesOk(items: seq<Value>, from: int)
    ensures CheckSeriesEntries(items, from).Ok? <==> WellFormedEntries(items)
  {
    if items != [] {
      CheckSeriesEntriesOk(items[1..], from + 1);
      if WellFormedEntries(items) {
        assert WellFormedEntries(items[1..]) by {
          forall i | 0 <= i < |items[1..]|
            ensures items[1..][i].Dict? && "title" in items[1..][i].fields && "url" in items[1..][i].fields
          {
            assert items[1..][i] == items[i + 1];
          }
        }
      } else if CheckSeriesEntries(items, from).Ok? {
        assert WellFormedEntries(items) by {
          forall i | 0 <= i < |items|
            ensures items[i].Dict? && "title" in items[i].fields && "url" in items[i].fields
          {
            if i > 0 {
              assert items[i] == items[1..][i - 1];
            }
          }
        }
      }
    }
  }

  lemma ThreeKeys(keys: seq<string>, container: Value)
    requires |keys| == 3
    ensures (forall i :: 0 <= i < |keys| ==> Contains(container, keys[i]) == Some(true)) <==>
            (Contains(container, keys[0]) == Some(true) && Contains(container, keys[1]) == Some(true)
             && Contains(container, keys[2]) == Some(true))
  {
    if Contains(container, keys[0]) == Some(true) && Contains(container, keys[1]) == Some(true)
       && Contains(container, keys[2]) == Some(true) {
      forall i | 0 <= i < |keys|
        ensures Contains(container, keys[i]) == Some(true)
      {
        assert i == 0 || i == 1 || i == 2;
      }
    }
  }

  /** A document passes `_validate_config` exactly when it has the shape the
      application relies on. */
  lemma ValidationAccepts(config: Value)
    ensures Validation(config).Ok? <==> Acceptable(config)
  {
    CheckKeysOk(RequiredSections, config, SectionMissing);
    ThreeKeys(RequiredSections, config);
    if config.Dict? && "sonarr" in config.fields {
      CheckKeysOk(RequiredSonarrKeys, config.fields["sonarr"], SonarrKeyMissing);
      ThreeKeys(RequiredSonarrKeys, config.fields["sonarr"]);
      var series := Get(config.fields, "series", Nil);
      if series.List? {
        CheckSeriesEntriesOk(series.items, 0);
      }
    }
    if Acceptable(config) {
      assert Truthy(config) by {
        assert "sonarr" in config.fields;
      }
    }
  }

  /** An empty or falsy document is rejected as empty. */
  lemma EmptyRejected(config: Value)
    requires !Truthy(config)
    ensures Validation(config) == ConfigError(EmptyConfig)
    ensures !Acceptable(config)
  {
    ValidationAccepts(config);
  }

  /** A dictionary lacking a required section is rejected with the first
      missing section, in the order sonarr, ytdl, series. */
  lemma FirstMissingSectionNamed(config: Value, j: nat)
    requires config.Dict? && |config.fields| > 0
    requires j < |RequiredSections| && RequiredSections[j] !in config.fields
    requires forall i :: 0 <= i < j ==> RequiredSections[i] in config.fields
    ensures Validation(config) == ConfigError(SectionMissing + RequiredSections[j])
  {
    var keys := RequiredSections;
    if j == 0 {
    } else if j == 1 {
      assert keys[0] in config.fields;
      assert keys[1..][0] == "ytdl";
      assert CheckKeys(keys[1..], config, SectionMissing) == ConfigError(SectionMissing + "ytdl");
    } else {
      assert keys[0] in config.fields && keys[1] in config.fields;
      assert keys[1..][0] == "ytdl" && keys[1..][1..] == ["series"];
      assert CheckKeys(["series"], config, SectionMissing) == ConfigError(SectionMissing + "series");
      assert CheckKeys(keys[1..], config, SectionMissing) == ConfigError(SectionMissing + "series");
    }
  }

  /** The first series entry that is not a dictionary with a title and a url is
      reported by its position. */
  lemma {:induction false} FirstBadEntryNamed(items: seq<Value>, from: int, j: nat)
    requires j < |items| && WellFormedEntries(items[..j])
    requires !(items[j].Dict? && "title" in items[j].fields && "url" in items[j].fields)
    ensures CheckSeriesEntries(items, from) ==
            if items[j].Dict? then ConfigError(SeriesIncomplete(from + j)) else ConfigError(SeriesNotDict(from + j))
  {
    if j > 0 {
      assert items[0] == items[..j][0];
      var prefix := items[1..][..j - 1];
      assert WellFormedEntries(prefix) by {
        forall i | 0 <= i < |prefix|
          ensures prefix[i].Dict? && "title" in prefix[i].fields && "url" in prefix[i].fields
        {
          assert prefix[i] == items[..j][i + 1];
        }
      }
      FirstBadEntryNamed(items[1..], from + 1, j - 1);
      assert items[1..][j - 1] == items[j];
    }
  }

  /** `_validate_config`, with its loops over the required names and the entries. */
  method ValidateConfig(config: Value) returns (r: Outcome<()>)
    ensures r == Validation(config)
  {
    if !Truthy(config) {
      return ConfigError(EmptyConfig);
    }
    for i := 0 to |RequiredSections|
      invariant CheckKeys(RequiredSections[i..], config, SectionMissing) == CheckKeys(RequiredSections, config, SectionMissing)
    {
      var present := Contains(config, RequiredSections[i]);
      if present.None? {
        return Crash;
      }
      if !present.value {
        return ConfigError(SectionMissing + RequiredSections[i]);
      }
      assert RequiredSections[i..][1..] == RequiredSections[i + 1..];
    }
    var sonarr := Index(config, "sonarr");
    if sonarr.None? {
      return Crash;
    }
    for i := 0 to |RequiredSonarrKeys|
      invariant CheckKeys(RequiredSonarrKeys[i..], sonarr.value, SonarrKeyMissing) == CheckKeys(RequiredSonarrKeys, sonarr.value, SonarrKeyMissing)
    {
      var present := Contains(sonarr.value, RequiredSonarrKeys[i]);
      if present.None? {
        return Crash;
      }
      if !present.value {
        return ConfigError(SonarrKeyMissing + RequiredSonarrKeys[i]);
      }
      assert RequiredSonarrKeys[i..][1..] == RequiredSonarrKeys[i + 1..];
    }
    var series := Get(config.fields, "series", Nil);
    if !series.List? {
      return ConfigError(SeriesNotList);
    }
    var items := series.items;
    for i := 0 to |items|
      invariant CheckSeriesEntries(items[i..], i) == CheckSeriesEntries(items, 0)
    {
      if !items[i].Dict? {
        return ConfigError(SeriesNotDict(i));
      }
      if "title" !in items[i].fields || "url" !in items[i].fields {
        return ConfigError(SeriesIncomplete(i));
      }
      assert items[i..][1..] == items[i + 1..];
    }
    return Ok(());
  }

  // ---------------------------------------------------------------------
  // Accessors.

  function SectionNotFound(section: string): string
  {
    "Configuration section '" + section + "' not found"
  }

  /** `get_section` on a loaded document. */
  function SectionOf(config: Value, section: string): (r: Outcome<Value>)
    ensures config.Dict? && section in config.fields ==> r == Ok(config.fields[section])
    ensures config.Dict? && section !in config.fields ==> r == ConfigError(SectionNotFound(section))
  {
    match Contains(config, section)
    case None => Crash
    case Some(false) => ConfigError(SectionNotFound(section))
    case Some(true) => if config.Dict? then Ok(config.fields[section]) else Crash
  }

  /** `get_value` once `get_section` has ended in `section`: a ConfigError,
      whether from a missing section or from loading, gives the default; a
      section that is not a dictionary has no `.get`. */
  function ValueOf(section: Outcome<Value>, key: string, default: Value): (r: Outcome<Value>)
    ensures section.ConfigError? ==> r == Ok(default)
    ensures section.Ok? && section.value.Dict? ==>
              r == Ok(if key in section.value.fields then section.value.fields[key] else default)
    ensures section.Exit? || section.Crash? ==> r == section
  {
    match section
    case Ok(Dict(fields)) => Ok(Get(fields, key, default))
    case Ok(_) => Crash
    case ConfigError(_) => Ok(default)
    case Exit => Exit
    case Crash => Crash
  }

  /** On an accepted document `get_value` returns the stored value when the
      section and the key exist, and the default when either is missing. */
  lemma ValueLookup(config: Value, section: string, key: string, default: Value)
    requires Acceptable(config)
    ensures section !in config.fields ==> ValueOf(SectionOf(config, section), key, default) == Ok(default)
    ensures section in config.fields && config.fields[section].Dict? ==>
              ValueOf(SectionOf(config, section), key, default)
              == Ok(if key in config.fields[section].fields then config.fields[section].fields[key] else default)
  {
  }

  // ---------------------------------------------------------------------
  // Loading and the cache.

  /** The configuration file as `load_config` finds it: absent, unreadable, not
      YAML, or a document (`Document(Nil)` for an empty file, which the YAML
      loader turns into None). */
  datatype ConfigFile = Absent | Unreadable(reason: string) | Malformed(reason: string) | Document(content: Value)

  /** What a document leaves in `self._config` once assigned. */
  function Stored(v: Value): Option<Value>
  {
    if v == Nil then None else Some(v)
  }

  /** The failures of `load_config` before a document is at hand. */
  function LoadFailure(file: ConfigFile): (r: Outcome<Value>)
    requires !file.Document?
    ensures !r.Ok? && !r.Crash?
  {
    match file
    case Absent => Exit
    case Unreadable(reason) => ConfigError("Cannot read config file: " + reason)
    case Malformed(reason) => ConfigError("Invalid YAML in config file: " + reason)
  }

  function Checked(v: Value): Outcome<Value>
  {
    match Validation(v)
    case Ok(_) => Ok(v)
    case ConfigError(m) => ConfigError(m)
    case _ => Crash
  }

  /** One call of `load_config` as the source writes it: the new cache and the
      outcome. The document is stored before it is validated. */
  function LoadStepAsWritten(cache: Option<Value>, file: ConfigFile): (Option<Value>, Outcome<Value>)
  {
    if cache.Some? then (cache, Ok(cache.value))
    else if !file.Document? then (cache, LoadFailure(file))
    else (Stored(file.content), Checked(file.content))
  }

  /** A document missing the `sonarr` section. */
  const NoSonarrSection: Value := Dict(map["ytdl" := Dict(map[]), "series" := List([])])

  /** As written, a rejected document stays cached, and the next call returns
      it as if it had been loaded. */
  lemma RejectedConfigServedFromCache()
    ensures LoadStepAsWritten(None, Document(NoSonarrSection)).1 == ConfigError(SectionMissing + "sonarr")
    ensures LoadStepAsWritten(LoadStepAsWritten(None, Document(NoSonarrSection)).0, Document(NoSonarrSection)).1
            == Ok(NoSonarrSection)
    ensures !Acceptable(NoSonarrSection)
  {
    FirstMissingSectionNamed(NoSonarrSection, 0);
  }

  /** One call of `load_config` storing the document only once it passed
      validation. */
  function LoadStep(cache: Option<Value>, file: ConfigFile): (Option<Value>, Outcome<Value>)
  {
    if cache.Some? then (cache, Ok(cache.value))
    else if !file.Document? then (cache, LoadFailure(file))
    else
      var outcome := Checked(file.content);
      (if outcome.Ok? then Some(file.content) else None, outcome)
  }

  /** The cache only ever holds an accepted document, and every configuration
      handed out is accepted. */
  lemma CorrectedLoadServesOnlyAcceptable(cache: Option<Value>, file: ConfigFile)
    requires cache.None? || Acceptable(cache.value)
    ensures var (next, outcome) := LoadStep(cache, file);
            && (next.None? || Acceptable(next.value))
            && (outcome.Ok? ==> Acceptable(outcome.value))
            && (outcome.Ok? <==> next.Some?)
  {
    if cache.None? && file.Document? {
      ValidationAccepts(file.content);
    }
  }

  /** Once a document is cached, loading returns it whatever the file now holds. */
  lemma CachedConfigNotReread(cache: Option<Value>, file: ConfigFile, other: ConfigFile)
    requires cache.Some?
    ensures LoadStep(cache, file) == LoadStep(cache, other) == (cache, Ok(cache.value))
  {
  }

  /** The configuration manager and its cache of the loaded document. */
  class ConfigManager {
    var cache: Option<Value>

    constructor ()
      ensures cache == None
    {
      cache := None;
    }

    /** `load_config`, reading `file` only while nothing is cached. */
    method LoadConfig(file: ConfigFile) returns (r: Outcome<Value>)
      modifies this
      ensures (cache, r) == LoadStep(old(cache), file)
      ensures cache.None? || Acceptable(cache.value) || cache == old(cache)
    {
      if cache.Some? {
        return Ok(cache.value);
      }
      if !file.Document? {
        return LoadFailure(file);
      }
      var outcome := ValidateConfig(file.content);
      ValidationAccepts(file.content);
      match outcome {
        case Ok(_) =>
          cache := Some(file.content);
          return Ok(file.content);
        case ConfigError(m) =>
          return ConfigError(m);
        case _ =>
          return Crash;
      }
    }

    /** `get_config`: the cached document, loading it first when there is none. */
    method GetConfig(file: ConfigFile) returns (r: Outcome<Value>)
      modifies this
      ensures (cache, r) == LoadStep(old(cache), file)
    {
      if cache.None? {
        r := LoadConfig(file);
      } else {
        r := Ok(cache.value);
      }
    }

    /** `get_section`: the section of the loaded document, or the error loading ended in. */
    method GetSection(file: ConfigFile, section: string) returns (r: Outcome<Value>)
      modifies this
      ensures cache == LoadStep(old(cache), file).0
      ensures r == match LoadStep(old(cache), file).1
                   case Ok(config) => SectionOf(config, section)
                   case failed => failed
    {
      var config := GetConfig(file);
      if config.Ok? {
        r := SectionOf(config.value, section);
      } else {
        r := config;
      }
    }

    /** `get_value`: a ConfigError on the way turns into the default. */
    method GetValue(file: ConfigFile, section: string, key: string, default: Value) returns (r: Outcome<Value>)
      modifies this
      ensures cache == LoadStep(old(cache), file).0
      ensures r == ValueOf(match LoadStep(old(cache), file).1
                           case Ok(config) => SectionOf(config, section)
                           case failed => failed, key, default)
    {
      var s := GetSection(file, section);
      r := ValueOf(s, key, default);
    }
  }
}
