/** `coletores/youtube_coleta_dados.py`: reading the video id out of a run's
    video link, turning the statistics the YouTube Data API returns for it
    into a (views, likes, comments) triple, and collecting the distinct
    YouTube links of the speedrun CSV.  `\w` is taken as the ASCII word
    characters; the API's answers are given as a map from video id to
    response. */
module YouTube {
  import opened Wrappers
  import opened Text

  // ---------------------------------------------------------------------
  // The video id

  /** `[\w-]`, with `\w` restricted to ASCII letters, digits and `_`. */
  predicate IsIdChar(c: char) {
    ('a' <= c <= 'z') || ('A' <= c <= 'Z') || ('0' <= c <= '9') || c == '_' || c == '-'
  }

  /** The test at the top of `obter_estatisticas_youtube`. */
  predicate IsYoutubeUrl(url: string) {
    Contains(url, "youtube.com") || Contains(url, "youtu.be")
  }

  /** The lookbehind `(?<=pre)` holds at position `p`. */
  predicate PrecededBy(s: string, p: int, pre: string) {
    |pre| <= p <= |s| && s[p - |pre|..p] == pre
  }

  /** A match of `(?<=v=)[\w-]+|(?<=be/)[\w-]+` can start at `p`: one of
      the lookbehinds holds and at least one id character follows. */
  predicate Candidate(url: string, p: int) {
    0 <= p < |url| && (PrecededBy(url, p, "v=") || PrecededBy(url, p, "be/")) && IsIdChar(url[p])
  }

  /** Where the greedy `[\w-]+` starting at `p` stops. */
  function RunEnd(url: string, p: nat): (e: nat)
    requires p <= |url|
    ensures p <= e <= |url|
    ensures forall q :: p <= q < e ==> IsIdChar(url[q])
    ensures e == |url| || !IsIdChar(url[e])
    decreases |url| - p
  {
    if p == |url| || !IsIdChar(url[p]) then p else RunEnd(url, p + 1)
  }

  /** `re.search` tries the start positions from left to right. */
  function SearchFrom(url: string, p: nat): (r: Option<nat>)
    requires p <= |url|
    ensures r.None? <==> forall q :: p <= q < |url| ==> !Candidate(url, q)
    ensures r.Some? ==> p <= r.value < |url| && Candidate(url, r.value)
                        && forall q :: p <= q < r.value ==> !Candidate(url, q)
    decreases |url| - p
  {
    if p == |url| then None
    else if Candidate(url, p) then Some(p)
    else SearchFrom(url, p + 1)
  }

  /** `id` is what the search returns for `url` when it starts at `p`. */
  predicate MatchAt(url: string, p: int, id: string) {
    && 0 <= p && p + |id| <= |url| && url[p..p + |id|] == id
    && Candidate(url, p)
    && (forall q :: 0 <= q < p ==> !Candidate(url, q))
    && (p + |id| == |url| || !IsIdChar(url[p + |id|]))
  }

  lemma SearchGivesMatch(url: string, p: nat)
    requires SearchFrom(url, 0) == Some(p)
    ensures MatchAt(url, p, url[p..RunEnd(url, p)])
  {
    var id := url[p..RunEnd(url, p)];
    assert url[p..p + |id|] == id;
  }

  /** `video_id_match.group(0)`, or `None` when there is no match: the id
      is non-empty, made of id characters, right after "v=" or "be/",
      starts at the leftmost place a match can start, and runs on until the
      end of the URL or a character that cannot be part of an id. */
  function VideoId(url: string): (r: Option<string>)
    ensures r.None? <==> forall q :: 0 <= q < |url| ==> !Candidate(url, q)
    ensures r.Some? ==> exists p :: MatchAt(url, p, r.value)
    ensures r.Some? ==> |r.value| > 0 && forall i :: 0 <= i < |r.value| ==> IsIdChar(r.value[i])
  {
    match SearchFrom(url, 0)
    case None => None
    case Some(p) =>
      SearchGivesMatch(url, p);
      Some(url[p..RunEnd(url, p)])
  }

  /** Both lookbehinds end in '=' or '/': without one of these just before
      `q`, no match starts at `q`. */
  lemma NoMarkerNoCandidate(url: string, q: int)
    requires q < 1 || q > |url| || (url[q - 1] != '=' && url[q - 1] != '/')
    ensures !Candidate(url, q)
  {
    if 2 <= q <= |url| {
      var w := url[q - 2..q];
      assert w[1] == url[q - 1];
      assert "v="[1] == '=';
      assert w != "v=";
    }
    if 3 <= q <= |url| {
      var w := url[q - 3..q];
      assert w[2] == url[q - 1];
      assert "be/"[2] == '/';
      assert w != "be/";
    }
  }

  /** A short link `youtu.be/<id>` yields the path segment as id, whatever
      follows it (a query with its own "v=", say), as long as the segment
      ends there. */
  lemma ShortLinkId(id: string, rest: string)
    requires |id| > 0 && forall i :: 0 <= i < |id| ==> IsIdChar(id[i])
    requires rest == [] || !IsIdChar(rest[0])
    ensures VideoId("youtu.be/" + id + rest) == Some(id)
  {
    var pre := "youtu.be/";
    var url := pre + id + rest;
    assert forall q :: 0 <= q < |pre| ==> url[q] == pre[q];
    forall q | 0 <= q < 9 ensures !Candidate(url, q) {
      if q >= 1 {
        assert url[q - 1] == pre[q - 1];
      }
      NoMarkerNoCandidate(url, q);
    }
    assert url[6..9] == "be/";
    assert url[9] == id[0];
    assert Candidate(url, 9);
    var e := RunEnd(url, 9);
    assert forall k :: 0 <= k < |id| ==> url[9 + k] == id[k];
    assert 9 + |id| < |url| ==> url[9 + |id|] == rest[0];
    assert url[9..9 + |id|] == id;
  }

  // ---------------------------------------------------------------------
  // Statistics

  /** `response['items'][0]`; `statistics` is `None` when the key is missing. */
  datatype Item = Item(statistics: Option<map<string, string>>)

  /** A `videos().list` response; `items` is `None` when the key is missing. */
  datatype Response = Response(items: Option<seq<Item>>)

  datatype Counts = Counts(views: nat, likes: nat, comments: nat)

  /** `int(stats.get(key, 0))`: 0 for a missing key, the number for a
      string of decimal digits, `None` for the `ValueError` anything else
      raises (the `except` turns it into the all-`None` answer). */
  function CountOf(stats: map<string, string>, key: string): (r: Option<nat>)
    ensures key !in stats ==> r == Some(0)
    ensures key in stats ==> (r.Some? <==> |stats[key]| > 0 && AllDigits(stats[key]))
  {
    if key !in stats then Some(0)
    else if |stats[key]| > 0 && AllDigits(stats[key]) then Some(DigitsValue(stats[key]))
    else None
  }

  /** The API sends counts as decimal strings; reading one back gives the
      count it was written from. */
  lemma CountOfDecimal(stats: map<string, string>, key: string, n: nat)
    ensures CountOf(stats[key := Decimal(n)], key) == Some(n)
  {
    DecimalValue(n);
  }

  /** `obter_estatisticas_youtube(url)`: `None` stands for `(None, None,
      None)`.  `responses` holds the API's answer for each video id it
      answers; an id it does not answer is a request that raised. */
  function YoutubeStats(url: string, responses: map<string, Response>): (r: Option<Counts>)
    ensures r.Some? <==>
      && IsYoutubeUrl(url)
      && VideoId(url).Some?
      && VideoId(url).value in responses
      && responses[VideoId(url).value].items.Some?
      && |responses[VideoId(url).value].items.value| > 0
      && responses[VideoId(url).value].items.value[0].statistics.Some?
      && var stats := responses[VideoId(url).value].items.value[0].statistics.value;
         CountOf(stats, "viewCount").Some? && CountOf(stats, "likeCount").Some?
         && CountOf(stats, "commentCount").Some?
    ensures r.Some? ==>
      var stats := responses[VideoId(url).value].items.value[0].statistics.value;
      r.value == Counts(CountOf(stats, "viewCount").value, CountOf(stats, "likeCount").value,
                        CountOf(stats, "commentCount").value)
  {
    if !IsYoutubeUrl(url) then None
    else match VideoId(url)
      case None => None
      case Some(id) =>
        if id !in responses then None
        else
          var items := responses[id].items;
          if items.None? || |items.value| == 0 then None
          else match items.value[0].statistics
            case None => None
            case Some(stats) =>
              match (CountOf(stats, "viewCount"), CountOf(stats, "likeCount"), CountOf(stats, "commentCount"))
              case (Some(v), Some(l), Some(c)) => Some(Counts(v, l, c))
              case _ => None
  }

  /** Statistics the API leaves out are counted as zero. */
  lemma MissingCountsAreZero(url: string, responses: map<string, Response>)
    requires YoutubeStats(url, responses).Some?
    ensures var stats := responses[VideoId(url).value].items.value[0].statistics.value;
      var c := YoutubeStats(url, responses).value;
      && ("viewCount" !in stats ==> c.views == 0)
      && ("likeCount" !in stats ==> c.likes == 0)
      && ("commentCount" !in stats ==> c.comments == 0)
  {
  }

  // ---------------------------------------------------------------------
  // The link set of `main`

  /** The test `main` uses: "youtube", not "youtube.com". */
  predicate IsYoutubeLink(url: string) {
    Contains(url, "youtube") || Contains(url, "youtu.be")
  }

  /** `df['video_link'].fillna('')`: a cell pandas reads as missing (an
      empty cell, or one of its NA spellings such as "N/A") becomes "". */
  function VideoUrl(cell: Option<string>): string {
    cell.GetOr("")
  }

  /** The loop of `main` that fills `links_youtube`. */
  method CollectYoutubeLinks(column: seq<Option<string>>) returns (links: set<string>)
    ensures forall u :: u in links <==>
      IsYoutubeLink(u) && exists i :: 0 <= i < |column| && VideoUrl(column[i]) == u
  {
    links := {};
    for i := 0 to |column|
      invariant forall u :: u in links <==>
        IsYoutubeLink(u) && exists j :: 0 <= j < i && VideoUrl(column[j]) == u
    {
      var url := VideoUrl(column[i]);
      if Contains(url, "youtube") || Contains(url, "youtu.be") {
        links := links + {url};
      }
    }
  }

  /** Every URL the statistics lookup accepts is one `main` collects: the
      collection test is the wider of the two. */
  lemma GateImpliesLink(url: string)
    ensures IsYoutubeUrl(url) ==> IsYoutubeLink(url)
  {
    if Contains(url, "youtube.com") {
      var i: nat :| i <= |url| && OccursAt(url, "youtube.com", i);
      assert url[i..i + 7] == url[i..i + 11][..7];
      assert OccursAt(url, "youtube", i);
    }
  }

  /** The converse fails: a link that mentions "youtube" without
      "youtube.com" is collected, and its statistics are never asked for. */
  lemma LinkWithoutGate()
    ensures IsYoutubeLink("youtube.de/v") && !IsYoutubeUrl("youtube.de/v")
  {
    var u := "youtube.de/v";
    assert OccursAt(u, "youtube", 0);
    forall i: nat | i <= |u| ensures !OccursAt(u, "youtube.com", i) && !OccursAt(u, "youtu.be", i) {
      if i + 8 <= |u| {
        assert u[i..i + 8][0] == u[i] && u[i..i + 8][5] == u[i + 5];
      }
      if i + 11 <= |u| {
        assert u[i..i + 11][8] == u[i + 8];
      }
    }
  }
}
