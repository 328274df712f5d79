/** The records the scan pipeline and the download service pass around. The
    `models` module itself is not part of this model: a Series and an Episode
    are the fields app.py and ytdlp_service.py read from them. A field the
    source may hold as None is its falsy value here ("" for text, an empty map
    for the offset), since every use of such a field tests it for truthiness
    first. */
module Models {
  import opened Basics
  import opened PyValue

  /** A Sonarr series together with the settings `apply_config` copies onto it
      from its configuration entry. */
  datatype Series = Series(
    id: int,
    title: string,
    path: string,
    monitored: bool,
    url: string,
    format: string,
    playlistReverse: bool,
    cookiesFile: string,
    subtitlesEnabled: bool,
    subtitlesAutogenerated: bool,
    subtitlesLanguages: seq<string>,
    offset: map<string, Value>,
    regexMatch: string,
    regexReplace: string)

  /** An air date as seconds on the timeline of `DateUtils.DateTime`; None when
      Sonarr reports none. */
  datatype Episode = Episode(
    id: int,
    seriesId: int,
    seasonNumber: int,
    episodeNumber: int,
    title: string,
    monitored: bool,
    hasFile: bool,
    airDate: Option<int>)

  /** The outcome `download_episode` reports. */
  datatype DownloadResult = DownloadResult(
    success: bool,
    episode: Episode,
    series: Series,
    videoUrl: string,
    errorMessage: Option<string>)
}
