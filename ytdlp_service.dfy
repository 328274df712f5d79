/** The yt-dlp service of app/src/services/ytdlp_service.py: the option
    dictionaries handed to yt-dlp for searching and for downloading, how a
    search result is read into a video URL, and the outcome record of a
    download. yt-dlp itself and the cookie-file probe are functions the
    service is given. */
module YtdlpService {
  import opened Basics
  import opened PyValue
  import opened TextUtils
  import opened TitlePattern
  import opened Models

  datatype Hook = ProgressHook | DebugHook

  datatype Postprocessor = Postprocessor(key: string, format: Option<string>)

  /** The values the option dictionaries hold. */
  datatype OptionValue =
    | Flag(b: bool)
    | Text(s: string)
    | Texts(items: seq<string>)
    | Hooks(hooks: seq<Hook>)
    | Logger
    | Postprocessors(steps: seq<Postprocessor>)

  type Options = map<string, OptionValue>

  /** What `YoutubeDL(options).extract_info(url, download=False)` ends in: the
      info dictionary, or an exception. */
  datatype Extraction = Info(info: Value) | Raised

  /** The service and what it drives: `cookieExists` is `Path.exists` on a cookie
      path, `extract` is yt-dlp's metadata extraction, and `download` is
      `YoutubeDL(options).download([url])`, giving None when it returns and the
      text of the exception when it raises. */
  datatype Service = Service(
    defaultFormat: string,
    configDir: string,
    debug: bool,
    cookieExists: string -> bool,
    extract: (string, Options) -> Extraction,
    download: (Options, string) -> Option<string>)

  /** `str(config_dir / name)`: an absolute name replaces the directory. */
  function JoinPath(dir: string, name: string): string
  {
    if |name| > 0 && name[0] == '/' then name
    else if |dir| > 0 && dir[|dir| - 1] == '/' then dir + name
    else dir + "/" + name
  }

  /** The `cookiefile` entry both option builders add when a cookies file is
      named and exists. */
  function WithCookies(svc: Service, cookiesFile: string, options: Options): (r: Options)
    ensures "cookiefile" in r <==> "cookiefile" in options || (cookiesFile != "" && svc.cookieExists(JoinPath(svc.configDir, cookiesFile)))
    ensures forall k :: k in options && k != "cookiefile" ==> k in r && r[k] == options[k]
    ensures forall k :: k in r && k != "cookiefile" ==> k in options
  {
    if cookiesFile != "" then
      var path := JoinPath(svc.configDir, cookiesFile);
      if svc.cookieExists(path) then options["cookiefile" := Text(path)] else options
    else options
  }

  /** The entries `_get_search_options` always sets. */
  function PlainSearchOptions(svc: Service, title: string, playlistReverse: bool): (r: Options)
    ensures "matchtitle" in r && r["matchtitle"] == Text(EscapeTitle(title))
    ensures "playlistreverse" in r && r["playlistreverse"] == Flag(playlistReverse)
    ensures "ignoreerrors" in r && r["ignoreerrors"] == Flag(true)
    ensures "quiet" in r && r["quiet"] == Flag(!svc.debug) && "no_warnings" in r && r["no_warnings"] == Flag(!svc.debug)
    ensures "logger" !in r && "progress_hooks" !in r && "cookiefile" !in r
  {
    map[
      "ignoreerrors" := Flag(true),
      "playlistreverse" := Flag(playlistReverse),
      "matchtitle" := Text(EscapeTitle(title)),
      "quiet" := Flag(!svc.debug),
      "no_warnings" := Flag(!svc.debug)]
  }

  /** The logger and the debug progress hook, added in debug mode. */
  function WithDebugSearch(svc: Service, options: Options): (r: Options)
    ensures ("logger" in r <==> svc.debug || "logger" in options)
    ensures ("progress_hooks" in r <==> svc.debug || "progress_hooks" in options)
    ensures svc.debug ==> r["progress_hooks"] == Hooks([DebugHook])
    ensures forall k :: k in options && k != "logger" && k != "progress_hooks" ==> k in r && r[k] == options[k]
    ensures forall k :: k in r && k != "logger" && k != "progress_hooks" ==> k in options
  {
    if svc.debug then options["logger" := Logger]["progress_hooks" := Hooks([DebugHook])] else options
  }

  /** `_get_search_options`. */
  function SearchOptions(svc: Service, title: string, playlistReverse: bool, cookiesFile: string): (r: Options)
    ensures "matchtitle" in r && r["matchtitle"] == Text(EscapeTitle(title))
    ensures "playlistreverse" in r && r["playlistreverse"] == Flag(playlistReverse)
    ensures "ignoreerrors" in r && r["ignoreerrors"] == Flag(true)
    ensures "quiet" in r && r["quiet"] == Flag(!svc.debug) && "no_warnings" in r && r["no_warnings"] == Flag(!svc.debug)
    ensures ("logger" in r <==> svc.debug) && ("progress_hooks" in r <==> svc.debug)
    ensures svc.debug ==> r["progress_hooks"] == Hooks([DebugHook])
    ensures "cookiefile" in r <==> cookiesFile != "" && svc.cookieExists(JoinPath(svc.configDir, cookiesFile))
    ensures "cookiefile" in r ==> r["cookiefile"] == Text(JoinPath(svc.configDir, cookiesFile))
  {
    var plain := PlainSearchOptions(svc, title, playlistReverse);
    var options := WithDebugSearch(svc, plain);
    WithCookies(svc, cookiesFile, options)
  }

  /** The `matchtitle` pattern of a search accepts the episode's own title: as
      written, upper-cased or lower-cased, with curly quotes straightened. */
  lemma SearchPatternAcceptsTitle(svc: Service, title: string, playlistReverse: bool, cookiesFile: string)
    ensures SearchOptions(svc, title, playlistReverse, cookiesFile)["matchtitle"] == Text(Render(CompileAtoms(title)))
    ensures Matches(CompileAtoms(title), Straighten(title))
    ensures Matches(CompileAtoms(title), Upper(Straighten(title)))
    ensures Matches(CompileAtoms(title), Lower(Straighten(title)))
  {
    CompileBridge(title);
    CompiledPatternMatchesTitle(title);
  }

  /** `S{n:02d}E{m:02d}`. */
  function EpisodeCode(season: int, episode: int): string
  {
    "S" + Pad2(season) + "E" + Pad2(episode)
  }

  /** The output template of `_get_download_options`. */
  function OutputTemplate(series: Series, episode: Episode): string
  {
    "/sonarr_root" + series.path + "/Season " + IntToStr(episode.seasonNumber) + "/"
      + series.title + " - " + EpisodeCode(episode.seasonNumber, episode.episodeNumber) + " - "
      + episode.title + " WEBDL.%(ext)s"
  }

  /** A number below 100 pads to exactly two characters. */
  lemma Pad2Width(n: int)
    requires 0 <= n < 100
    ensures |Pad2(n)| == 2
    ensures DecimalValue(Pad2(n)) == n
    ensures n < 10 ==> Pad2(n) == "0" + IntToStr(n) && |IntToStr(n)| == 1
  {
    Pad2Facts(n);
    if n >= 10 {
      assert Digits(n) == Digits(n / 10) + [DigitChar(n % 10)];
      assert |Digits(n / 10)| == 1;
    }
  }

  /** For season and episode numbers below 100 the code is six characters whose
      two number fields read back as the two numbers; below 10 they carry a
      leading zero that the season directory does not. */
  lemma EpisodeCodeReadsBack(season: int, episode: int)
    requires 0 <= season < 100 && 0 <= episode < 100
    ensures var code := EpisodeCode(season, episode);
            && |code| == 6 && code[0] == 'S' && code[3] == 'E'
            && code[1..3] == Pad2(season) && code[4..6] == Pad2(episode)
            && DecimalValue(code[1..3]) == season && DecimalValue(code[4..6]) == episode
    ensures season < 10 ==> Pad2(season) == "0" + IntToStr(season) && |IntToStr(season)| == 1
  {
    Pad2Width(season);
    Pad2Width(episode);
    var p, q := Pad2(season), Pad2(episode);
    var code := "S" + p + "E" + q;
    assert code == EpisodeCode(season, episode);
    assert code[1..3] == p;
    assert code[4..6] == q;
  }

  /** The output template places the file in the season directory under the
      series path and ends in yt-dlp's extension field. */
  lemma OutputTemplateShape(series: Series, episode: Episode)
    ensures var t := OutputTemplate(series, episode);
            var dir := "/sonarr_root" + series.path + "/Season " + IntToStr(episode.seasonNumber) + "/";
            var suffix := " WEBDL.%(ext)s";
            && |t| >= |dir| + |suffix|
            && t[..|dir|] == dir
            && t[|t| - |suffix|..] == suffix
            && t[|dir|..|t| - |suffix|] == series.title + " - " + EpisodeCode(episode.seasonNumber, episode.episodeNumber) + " - " + episode.title
  {
  }

  /** The keys that only a series with subtitles enabled carries. */
  const SubtitleKeys: set<string> := {"writesubtitles", "allsubtitles", "writeautomaticsub", "subtitleslangs", "postprocessors"}

  const SubtitleSteps: seq<Postprocessor> :=
    [Postprocessor("FFmpegSubtitlesConvertor", Some("srt")), Postprocessor("FFmpegEmbedSubtitle", None)]

  /** The entries `_get_download_options` starts from. */
  function BaseDownloadOptions(svc: Service, series: Series, episode: Episode): (r: Options)
    ensures "format" in r && r["format"] == Text(if series.format != "" then series.format else svc.defaultFormat)
    ensures "outtmpl" in r && r["outtmpl"] == Text(OutputTemplate(series, episode))
    ensures "merge_output_format" in r && r["merge_output_format"] == Text("mkv")
    ensures "remux_video" in r && r["remux_video"] == Text("mkv")
    ensures "noplaylist" in r && r["noplaylist"] == Flag(true)
    ensures "quiet" in r && r["quiet"] == Flag(!svc.debug)
    ensures "progress_hooks" in r && r["progress_hooks"] == Hooks([if svc.debug then DebugHook else ProgressHook])
    ensures r.Keys == BaseDownloadKeys
  {
    map[
      "format" := Text(if series.format != "" then series.format else svc.defaultFormat),
      "quiet" := Flag(!svc.debug),
      "merge_output_format" := Text("mkv"),
      "remux_video" := Text("mkv"),
      "outtmpl" := Text(OutputTemplate(series, episode)),
      "progress_hooks" := Hooks([if svc.debug then DebugHook else ProgressHook]),
      "noplaylist" := Flag(true)]
  }

  /** The keys `_get_download_options` sets before the optional entries. */
  const BaseDownloadKeys: set<string> :=
    {"format", "quiet", "merge_output_format", "remux_video", "outtmpl", "progress_hooks", "noplaylist"}

  /** None of the optional entries is among them. */
  lemma BaseKeysApart()
    ensures forall k :: k in BaseDownloadKeys ==> k !in SubtitleKeys && k != "logger" && k != "cookiefile"
    ensures forall k :: k in SubtitleKeys ==> k !in BaseDownloadKeys && k != "logger" && k != "cookiefile"
    ensures "logger" !in BaseDownloadKeys && "cookiefile" !in BaseDownloadKeys
  {
  }

  /** The subtitle entries, added only for a series with subtitles enabled. */
  function WithSubtitles(series: Series, options: Options): (r: Options)
    ensures forall k :: k in SubtitleKeys ==> (k in r <==> series.subtitlesEnabled || k in options)
    ensures forall k :: k in options && k !in SubtitleKeys ==> k in r && r[k] == options[k]
    ensures forall k :: k in r && k !in SubtitleKeys ==> k in options
    ensures series.subtitlesEnabled ==>
              && r["writesubtitles"] == Flag(true) && r["allsubtitles"] == Flag(true)
              && r["writeautomaticsub"] == Flag(series.subtitlesAutogenerated)
              && r["subtitleslangs"] == Texts(series.subtitlesLanguages)
              && r["postprocessors"] == Postprocessors(SubtitleSteps)
  {
    if series.subtitlesEnabled then
      options["writesubtitles" := Flag(true)]["allsubtitles" := Flag(true)]
        ["writeautomaticsub" := Flag(series.subtitlesAutogenerated)]
        ["subtitleslangs" := Texts(series.subtitlesLanguages)]
        ["postprocessors" := Postprocessors(SubtitleSteps)]
    else options
  }

  /** `_get_download_options`; its entries are described by DownloadOptionsFixed
      and DownloadOptionsGated. */
  function DownloadOptions(svc: Service, series: Series, episode: Episode): Options
  {
    var options := BaseDownloadOptions(svc, series, episode);
    var options := WithCookies(svc, series.cookiesFile, options);
    var options := WithSubtitles(series, options);
    WithLogger(svc, options)
  }

  /** The logger `_get_download_options` adds in debug mode. */
  function WithLogger(svc: Service, options: Options): (r: Options)
    ensures "logger" in r <==> svc.debug || "logger" in options
    ensures forall k :: k in options && k != "logger" ==> k in r && r[k] == options[k]
    ensures forall k :: k in r && k != "logger" ==> k in options
  {
    if svc.debug then options["logger" := Logger] else options
  }

  /** What every download asks of yt-dlp: the series format or else the default,
      the output template, an mkv container and no playlist expansion. */
  lemma DownloadOptionsFixed(svc: Service, series: Series, episode: Episode)
    ensures var r := DownloadOptions(svc, series, episode);
            && "format" in r && r["format"] == Text(if series.format != "" then series.format else svc.defaultFormat)
            && "outtmpl" in r && r["outtmpl"] == Text(OutputTemplate(series, episode))
            && "merge_output_format" in r && r["merge_output_format"] == Text("mkv")
            && "remux_video" in r && r["remux_video"] == Text("mkv")
            && "noplaylist" in r && r["noplaylist"] == Flag(true)
            && "quiet" in r && r["quiet"] == Flag(!svc.debug)
            && "progress_hooks" in r && r["progress_hooks"] == Hooks([if svc.debug then DebugHook else ProgressHook])
  {
    var base := BaseDownloadOptions(svc, series, episode);
    var cookies := WithCookies(svc, series.cookiesFile, base);
    var subs := WithSubtitles(series, cookies);
    var r := DownloadOptions(svc, series, episode);
    BaseKeysApart();
    assert forall k :: k in BaseDownloadKeys ==> k in r && r[k] == base[k];
  }

  /** The subtitle entries are present exactly when subtitles are enabled, and
      the logger and the cookie file exactly when debugging and when the named
      cookies file exists. */
  lemma DownloadOptionsGated(svc: Service, series: Series, episode: Episode)
    ensures var r := DownloadOptions(svc, series, episode);
            && (forall k :: k in SubtitleKeys ==> (k in r <==> series.subtitlesEnabled))
            && (series.subtitlesEnabled ==>
                  && r["writesubtitles"] == Flag(true) && r["allsubtitles"] == Flag(true)
                  && r["writeautomaticsub"] == Flag(series.subtitlesAutogenerated)
                  && r["subtitleslangs"] == Texts(series.subtitlesLanguages)
                  && r["postprocessors"] == Postprocessors(SubtitleSteps))
            && ("logger" in r <==> svc.debug)
            && ("cookiefile" in r <==> series.cookiesFile != "" && svc.cookieExists(JoinPath(svc.configDir, series.cookiesFile)))
  {
    SubtitlesGated(svc, series, episode);
    LoggerAndCookiesGated(svc, series, episode);
  }

  lemma SubtitlesGated(svc: Service, series: Series, episode: Episode)
    ensures var r := DownloadOptions(svc, series, episode);
            && (forall k :: k in SubtitleKeys ==> (k in r <==> series.subtitlesEnabled))
            && (series.subtitlesEnabled ==>
                  && r["writesubtitles"] == Flag(true) && r["allsubtitles"] == Flag(true)
                  && r["writeautomaticsub"] == Flag(series.subtitlesAutogenerated)
                  && r["subtitleslangs"] == Texts(series.subtitlesLanguages)
                  && r["postprocessors"] == Postprocessors(SubtitleSteps))
  {
    var base := BaseDownloadOptions(svc, series, episode);
    var cookies := WithCookies(svc, series.cookiesFile, base);
    var subs := WithSubtitles(series, cookies);
    BaseKeysApart();
    assert forall k :: k in SubtitleKeys ==> k !in cookies;
    var r := DownloadOptions(svc, series, episode);
    assert forall k :: k in SubtitleKeys ==> (k in r <==> k in subs) && (k in subs ==> r[k] == subs[k]);
    assert "writesubtitles" in SubtitleKeys && "allsubtitles" in SubtitleKeys && "writeautomaticsub" in SubtitleKeys;
    assert "subtitleslangs" in SubtitleKeys && "postprocessors" in SubtitleKeys;
  }

  lemma LoggerAndCookiesGated(svc: Service, series: Series, episode: Episode)
    ensures var r := DownloadOptions(svc, series, episode);
            && ("logger" in r <==> svc.debug)
            && ("cookiefile" in r <==> series.cookiesFile != "" && svc.cookieExists(JoinPath(svc.configDir, series.cookiesFile)))
  {
    var base := BaseDownloadOptions(svc, series, episode);
    var cookies := WithCookies(svc, series.cookiesFile, base);
    var subs := WithSubtitles(series, cookies);
    BaseKeysApart();
    assert "logger" in subs <==> "logger" in cookies;
    assert "cookiefile" in subs <==> "cookiefile" in cookies;
  }

  /** `x.get('webpage_url')`; None where `x` has no `.get` (AttributeError). */
  function WebpageUrl(x: Value): Option<Value>
  {
    if x.Dict? then Some(Get(x.fields, "webpage_url", Nil)) else None
  }

  /** The candidate URL of a truthy info dictionary: `webpage_url` of the first
      entry of a non-empty playlist, or of the result itself. None where the
      code inside the `try` raises. */
  function CandidateUrl(result: Value): Option<Value>
  {
    match Contains(result, "entries")
    case None => None
    case Some(true) =>
      if !result.Dict? then None
      else
        var entries := result.fields["entries"];
        if !Truthy(entries) then WebpageUrl(result)
        else if entries.List? then WebpageUrl(entries.items[0])
        else None
    case Some(false) => WebpageUrl(result)
  }

  /** The search asks yt-dlp about the series URL with the episode's pattern. */
  function SearchRequest(svc: Service, series: Series, episode: Episode): Extraction
  {
    svc.extract(series.url, SearchOptions(svc, episode.title, series.playlistReverse, series.cookiesFile))
  }

  /** `search_for_episode`: (found, video URL). */
  function SearchForEpisode(svc: Service, series: Series, episode: Episode): (r: (bool, string))
    ensures r.0 ==> r.1 != "" && r.1 != series.url && series.url != ""
    ensures !r.0 ==> r.1 == ""
    ensures series.url == "" ==> r == (false, "")
  {
    if series.url == "" then (false, "")
    else
      match SearchRequest(svc, series, episode)
      case Raised => (false, "")
      case Info(result) =>
        if !Truthy(result) then (false, "")
        else
          match CandidateUrl(result)
          case Some(Str(url)) => if url != "" && url != series.url then (true, url) else (false, "")
          case _ => (false, "")
  }

  /** The URL a dictionary result offers, read from the result's shape: when
      `entries` is a non-empty list, the `webpage_url` of its first entry (Nil
      when that entry is no dictionary or has none); when `entries` is some
      other truthy value, Nil (indexing it or calling `.get` raises); otherwise
      the top-level `webpage_url`, Nil when absent. */
  function Candidate(top: map<string, Value>): Value
  {
    if "entries" in top && top["entries"].List? && top["entries"].items != [] then
      match top["entries"].items[0]
      case Dict(first) => if "webpage_url" in first then first["webpage_url"] else Nil
      case _ => Nil
    else if "entries" in top && Truthy(top["entries"]) then Nil
    else if "webpage_url" in top then top["webpage_url"]
    else Nil
  }

  /** Every dictionary result is decided by its candidate: found, with that URL,
      exactly when the candidate is a non-empty string other than the series
      URL; otherwise not found. */
  lemma SearchDecided(svc: Service, series: Series, episode: Episode, top: map<string, Value>)
    requires series.url != ""
    requires SearchRequest(svc, series, episode) == Info(Dict(top))
    ensures var c := Candidate(top);
      SearchForEpisode(svc, series, episode) ==
        (if c.Str? && c.s != "" && c.s != series.url then (true, c.s) else (false, ""))
  {
  }

  /** A playlist result yields its first entry's URL, whatever later entries,
      other keys of the first entry, or the playlist itself say. */
  lemma PlaylistFirstEntryFound(svc: Service, series: Series, episode: Episode, top: map<string, Value>,
                                first: map<string, Value>, rest: seq<Value>, url: string)
    requires series.url != "" && url != "" && url != series.url
    requires "entries" in top && top["entries"] == List([Dict(first)] + rest)
    requires "webpage_url" in first && first["webpage_url"] == Str(url)
    requires SearchRequest(svc, series, episode) == Info(Dict(top))
    ensures SearchForEpisode(svc, series, episode) == (true, url)
  {
    SearchDecided(svc, series, episode, top);
  }

  /** Without a non-empty `entries` list the top-level URL is used. */
  lemma SingleVideoFound(svc: Service, series: Series, episode: Episode, top: map<string, Value>, url: string)
    requires series.url != "" && url != "" && url != series.url
    requires "webpage_url" in top && top["webpage_url"] == Str(url)
    requires "entries" !in top || !Truthy(top["entries"])
    requires SearchRequest(svc, series, episode) == Info(Dict(top))
    ensures SearchForEpisode(svc, series, episode) == (true, url)
  {
    SearchDecided(svc, series, episode, top);
  }

  /** The series' own URL coming back is not a match, whether it is the
      first entry's or the top-level one. */
  lemma SourceUrlRejected(svc: Service, series: Series, episode: Episode, top: map<string, Value>)
    requires series.url != ""
    requires Candidate(top) == Str(series.url)
    requires SearchRequest(svc, series, episode) == Info(Dict(top))
    ensures SearchForEpisode(svc, series, episode) == (false, "")
  {
    SearchDecided(svc, series, episode, top);
  }

  /** No usable candidate (none at all, an empty string, or a value that is
      not a string) means not found. */
  lemma MissingCandidateNotFound(svc: Service, series: Series, episode: Episode, top: map<string, Value>)
    requires series.url != ""
    requires !Candidate(top).Str? || Candidate(top).s == ""
    requires SearchRequest(svc, series, episode) == Info(Dict(top))
    ensures SearchForEpisode(svc, series, episode) == (false, "")
  {
    SearchDecided(svc, series, episode, top);
  }

  /** An exception from yt-dlp, an empty result, or a malformed one means not found. */
  lemma SearchFailuresNotFound(svc: Service, series: Series, episode: Episode)
    ensures SearchRequest(svc, series, episode) == Raised ==> SearchForEpisode(svc, series, episode) == (false, "")
    ensures SearchRequest(svc, series, episode).Info? && !Truthy(SearchRequest(svc, series, episode).info)
            ==> SearchForEpisode(svc, series, episode) == (false, "")
    ensures SearchRequest(svc, series, episode).Info? && SearchRequest(svc, series, episode).info.Int?
            ==> SearchForEpisode(svc, series, episode) == (false, "")
  {
  }

  /** `download_episode`: the outcome record of one download. */
  function DownloadEpisode(svc: Service, series: Series, episode: Episode, videoUrl: string): (r: DownloadResult)
    ensures r.episode == episode && r.series == series && r.videoUrl == videoUrl
    ensures r.success <==> svc.download(DownloadOptions(svc, series, episode), videoUrl).None?
    ensures r.success <==> r.errorMessage.None?
    ensures !r.success ==>
              r.errorMessage == Some("Failed to download " + episode.title + ": "
                                     + svc.download(DownloadOptions(svc, series, episode), videoUrl).value)
  {
    match svc.download(DownloadOptions(svc, series, episode), videoUrl)
    case None => DownloadResult(true, episode, series, videoUrl, None)
    case Some(error) =>
      DownloadResult(false, episode, series, videoUrl, Some("Failed to download " + episode.title + ": " + error))
  }
}
