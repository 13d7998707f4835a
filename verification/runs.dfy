/** A speedrun.com run as the runs endpoint returns it (with `embed=players`),
    and the history entry the scanner builds from a run that set a record.
    The repository holds two copies of the scanner, `speedrun.py` and
    `coletores/speedrun.py`; they differ only in how `video_link` is read,
    which `Variant` selects. */
module Runs {
  import opened Wrappers
  import opened TimeFormat

  /** A JSON object key that may be missing, present with `null`, or present. */
  datatype Field<+T> = Absent | Null | Present(value: T)

  /** One entry of `videos.links`; `uri` is `None` when the key is missing. */
  datatype VideoLink = VideoLink(uri: Option<string>)

  /** The `videos` object of a run. */
  datatype Videos = Videos(links: Field<seq<VideoLink>>)

  /** One embedded player: a user or a guest. `None` means the key is missing. */
  datatype Player = Player(id: Option<string>, name: Option<string>)

  /** One run. `date` and `weblink` are `None` when the key is missing; a
      missing `values` object is the empty map (`run.get('values', {})`);
      `primaryT` is `times.primary_t` in whole microseconds, `None` when
      `times` or `primary_t` is missing; `players` is `players.data`. */
  datatype Run = Run(
    date: Option<string>,
    values: map<string, string>,
    primaryT: Option<nat>,
    players: seq<Player>,
    weblink: Option<string>,
    videos: Field<Videos>)

  /** Which copy of the scanner: `speedrun.py` or `coletores/speedrun.py`. */
  datatype Variant = RootScript | CollectorScript

  /** The Python exception that ends the analysis, by cause. */
  datatype Fault =
    | MissingTime       // run["times"]["primary_t"] raises KeyError
    | NoPlayers         // run["players"]['data'][0] raises IndexError
    | MissingPlayerId   // ...['data'][0]['id'] raises KeyError, even when a name exists
    | MissingUri        // run["videos"]["links"][0]["uri"] raises KeyError
    | NullVideos        // None.get(...) raises AttributeError
    | NullLinks         // None[0] raises TypeError
    | NoLinks           // [][0] raises IndexError
    | MissingWeblink    // run["weblink"] raises KeyError

  /** One row of the record history (`historico`). `timeMicros` is
      `time_seconds` in microseconds. */
  datatype Entry = Entry(
    date: string,
    player: string,
    timeMicros: nat,
    timeFormatted: string,
    runLink: string,
    videoLink: string)

  /** `run["players"]['data'][0].get("name", run["players"]['data'][0]['id'])`.
      Python evaluates the default before the call, so the first player's
      `id` is read even when a name is there. */
  function PlayerName(players: seq<Player>): (r: Result<string, Fault>)
    ensures r.Success? <==> |players| > 0 && players[0].id.Some?
    ensures r.Success? && players[0].name.Some? ==> r.value == players[0].name.value
    ensures r.Success? && players[0].name.None? ==> r.value == players[0].id.value
  {
    if |players| == 0 then Failure(NoPlayers)
    else match players[0].id
      case None => Failure(MissingPlayerId)
      case Some(id) => Success(players[0].name.GetOr(id))
  }

  /** `videos.links` is present and has a first element. */
  predicate HasFirstLink(videos: Field<Videos>) {
    videos.Present? && videos.value.links.Present? && |videos.value.links.value| > 0
  }

  function FirstLink(videos: Field<Videos>): VideoLink
    requires HasFirstLink(videos)
  {
    videos.value.links.value[0]
  }

  /** The `video_link` of an entry.
      `speedrun.py`:  "N/A" unless both `run.get("videos")` and
        `run["videos"].get("links")` are truthy, else `links[0]["uri"]`.
      `coletores/speedrun.py`:
        `run.get("videos", {}).get("links", [{}])[0].get("uri", "N/A")`. */
  function VideoLinkOf(videos: Field<Videos>, variant: Variant): (r: Result<string, Fault>)
    ensures variant == RootScript ==>
      (r.Failure? <==> HasFirstLink(videos) && FirstLink(videos).uri.None?)
    ensures variant == RootScript && !HasFirstLink(videos) ==> r == Success("N/A")
    ensures variant == CollectorScript ==>
      (r.Failure? <==> videos.Null? || (videos.Present? && videos.value.links.Null?)
                       || (videos.Present? && videos.value.links == Present([])))
    ensures variant == CollectorScript && (videos.Absent? || (videos.Present? && videos.value.links.Absent?))
      ==> r == Success("N/A")
    ensures HasFirstLink(videos) && FirstLink(videos).uri.Some? ==> r == Success(FirstLink(videos).uri.value)
    ensures variant == CollectorScript && HasFirstLink(videos) && FirstLink(videos).uri.None?
      ==> r == Success("N/A")
  {
    match variant
    case RootScript =>
      if HasFirstLink(videos) then
        match FirstLink(videos).uri
        case None => Failure(MissingUri)
        case Some(u) => Success(u)
      else Success("N/A")
    case CollectorScript =>
      match videos
      case Null => Failure(NullVideos)
      case Absent => Success("N/A")
      case Present(v) =>
        match v.links
        case Absent => Success("N/A")
        case Null => Failure(NullLinks)
        case Present(ls) =>
          if |ls| == 0 then Failure(NoLinks) else Success(ls[0].uri.GetOr("N/A"))
  }

  /** The two copies read `video_link` alike except in exactly two kinds of
      run: `speedrun.py` writes "N/A" where `coletores/speedrun.py` raises
      (a `null` videos or links, an empty links list), and `coletores`
      writes "N/A" where `speedrun.py` raises (a first link with no `uri`). */
  lemma VideoLinkVariantsDiffer(videos: Field<Videos>)
    ensures VideoLinkOf(videos, RootScript) != VideoLinkOf(videos, CollectorScript) <==>
      videos.Null?
      || (videos.Present? && (videos.value.links.Null? || videos.value.links == Present([])))
      || (HasFirstLink(videos) && FirstLink(videos).uri.None?)
    ensures VideoLinkOf(videos, RootScript).Success? && VideoLinkOf(videos, CollectorScript).Success?
      ==> VideoLinkOf(videos, RootScript) == VideoLinkOf(videos, CollectorScript)
  {
  }

  /** The history entry for a run that beat the best time so far, built in
      the order Python evaluates it: the player, the video link, then the
      dict literal (date, time, formatted time, run link). */
  function MakeEntry(run: Run, variant: Variant): (r: Result<Entry, Fault>)
    requires run.primaryT.Some?
    ensures r.Success? <==>
      PlayerName(run.players).Success? && VideoLinkOf(run.videos, variant).Success? && run.weblink.Some?
    ensures r.Success? ==>
      && r.value.date == run.date.GetOr("N/A")
      && r.value.player == PlayerName(run.players).value
      && r.value.timeMicros == run.primaryT.value
      && r.value.timeFormatted == FormatTime(run.primaryT)
      && r.value.runLink == run.weblink.value
      && r.value.videoLink == VideoLinkOf(run.videos, variant).value
  {
    match PlayerName(run.players)
    case Failure(e) => Failure(e)
    case Success(player) =>
      match VideoLinkOf(run.videos, variant)
      case Failure(e) => Failure(e)
      case Success(video) =>
        match run.weblink
        case None => Failure(MissingWeblink)
        case Some(link) =>
          Success(Entry(run.date.GetOr("N/A"), player, run.primaryT.value,
                        FormatTime(run.primaryT), link, video))
  }
}
