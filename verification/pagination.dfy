/** `fetch_all_runs_for_category`: request the runs URL, append the page's
    `data`, follow the first `pagination.links` entry whose `rel` is "next",
    and stop when there is none.  The API is a snapshot: a map from URL to
    the page it answers; a URL it does not answer is a request that raises.
    The source loops for as long as the server hands out next links, so the
    model bounds the number of pages it will request. */
module Pagination {
  import opened Wrappers
  import opened Runs

  datatype PageLink = PageLink(rel: string, uri: string)

  /** One response of the runs endpoint: `data` and `pagination.links`. */
  datatype Page = Page(data: seq<Run>, links: seq<PageLink>)

  type Api = map<string, Page>

  datatype FetchError =
    | RequestFailed(url: string)   // get_api_data re-raises the request's exception
    | PageLimit                    // more pages than the bound allows

  /** The runs query for one game and category: verified runs including
      obsoleted ones, oldest first, with the players embedded. */
  function RunsUrl(gameId: string, categoryId: string): string {
    "https://www.speedrun.com/api/v1/runs?game=" + gameId + "&category=" + categoryId
    + "&status=verified&obsoleted=true" + "&orderby=date&direction=asc&embed=players"
  }

  /** `next_link[0] if next_link else None` with
      `next_link = [link['uri'] for link in links if link['rel'] == 'next']`. */
  function NextUrl(links: seq<PageLink>): (r: Option<string>)
    ensures r.None? <==> forall i :: 0 <= i < |links| ==> links[i].rel != "next"
    ensures r.Some? ==> exists i :: 0 <= i < |links| && links[i].rel == "next" && links[i].uri == r.value
                                    && forall j :: 0 <= j < i ==> links[j].rel != "next"
    decreases |links|
  {
    if links == [] then None
    else if links[0].rel == "next" then Some(links[0].uri)
    else
      var r := NextUrl(links[1..]);
      assert forall i :: 1 <= i < |links| ==> links[i] == links[1..][i - 1];
      r
  }

  /** `while url:` goes on for a non-empty string and stops at `None` or "". */
  predicate Truthy(url: Option<string>) {
    url.Some? && url.value != ""
  }

  /** All runs reachable from `url`, requesting at most `maxPages` pages. */
  function Fetch(api: Api, url: Option<string>, maxPages: nat): Result<seq<Run>, FetchError>
    decreases maxPages
  {
    if !Truthy(url) then Success([])
    else if maxPages == 0 then Failure(PageLimit)
    else if url.value !in api then Failure(RequestFailed(url.value))
    else
      var page := api[url.value];
      match Fetch(api, NextUrl(page.links), maxPages - 1)
      case Success(rest) => Success(page.data + rest)
      case Failure(e) => Failure(e)
  }

  /** `urls` is the walk the loop makes from `start`: every page answers,
      each URL is the next link of the page before, and the last page has
      no (truthy) next link. */
  ghost predicate IsWalk(api: Api, start: string, urls: seq<string>) {
    && |urls| > 0 && urls[0] == start
    && (forall k :: 0 <= k < |urls| ==> urls[k] != "" && urls[k] in api)
    && (forall k :: 0 <= k < |urls| - 1 ==> NextUrl(api[urls[k]].links) == Some(urls[k + 1]))
    && !Truthy(NextUrl(api[urls[|urls| - 1]].links))
  }

  /** The `data` of the pages at `urls`, concatenated in that order. */
  function Concat(api: Api, urls: seq<string>): seq<Run>
    requires forall k :: 0 <= k < |urls| ==> urls[k] in api
  {
    if urls == [] then [] else api[urls[0]].data + Concat(api, urls[1..])
  }

  lemma WalkTail(api: Api, start: string, urls: seq<string>)
    requires IsWalk(api, start, urls) && |urls| > 1
    ensures IsWalk(api, urls[1], urls[1..])
  {
  }

  /** A walk that fits the bound is fetched: the result is the walk's pages'
      data, concatenated in visit order. */
  lemma {:induction false} WalkIsFetched(api: Api, start: string, urls: seq<string>, maxPages: nat)
    requires IsWalk(api, start, urls) && |urls| <= maxPages
    ensures Fetch(api, Some(start), maxPages) == Success(Concat(api, urls))
    decreases |urls|
  {
    if |urls| > 1 {
      WalkTail(api, start, urls);
      WalkIsFetched(api, urls[1], urls[1..], maxPages - 1);
    } else {
      assert urls[1..] == [];
    }
  }

  /** Conversely, every successful fetch is such a walk. */
  lemma {:induction false} FetchIsWalk(api: Api, start: string, maxPages: nat)
    requires start != "" && Fetch(api, Some(start), maxPages).Success?
    ensures exists urls :: (IsWalk(api, start, urls) && |urls| <= maxPages
                            && Fetch(api, Some(start), maxPages) == Success(Concat(api, urls)))
    decreases maxPages
  {
    var next := NextUrl(api[start].links);
    if Truthy(next) {
      FetchIsWalk(api, next.value, maxPages - 1);
      var rest :| IsWalk(api, next.value, rest) && |rest| <= maxPages - 1
        && Fetch(api, next, maxPages - 1) == Success(Concat(api, rest));
      var urls := [start] + rest;
      assert urls[1..] == rest;
      assert IsWalk(api, start, urls);
    } else {
      assert IsWalk(api, start, [start]);
      assert Concat(api, [start]) == api[start].data + Concat(api, []);
    }
  }

  /** Allowing more pages never changes a result the bound already allowed. */
  lemma {:induction false} MorePagesSameResult(api: Api, url: Option<string>, maxPages: nat, more: nat)
    requires maxPages <= more && Fetch(api, url, maxPages).Success?
    ensures Fetch(api, url, more) == Fetch(api, url, maxPages)
    decreases maxPages
  {
    if Truthy(url) {
      MorePagesSameResult(api, NextUrl(api[url.value].links), maxPages - 1, more - 1);
    }
  }

  /** A page whose next link is itself keeps the loop going forever: no
      bound makes the fetch succeed. */
  lemma {:induction false} SelfLinkNeverEnds(api: Api, url: string, maxPages: nat)
    requires url != "" && url in api && NextUrl(api[url].links) == Some(url)
    ensures Fetch(api, Some(url), maxPages).Failure?
    decreases maxPages
  {
    if maxPages > 0 {
      SelfLinkNeverEnds(api, url, maxPages - 1);
    }
  }

  /** The loop itself: `all_runs.extend(runs_page)` and the next URL, for at
      most `maxPages` pages. */
  method FetchAllRuns(api: Api, gameId: string, categoryId: string, maxPages: nat)
    returns (r: Result<seq<Run>, FetchError>)
    ensures r == Fetch(api, Some(RunsUrl(gameId, categoryId)), maxPages)
  {
    var allRuns: seq<Run> := [];
    var url: Option<string> := Some(RunsUrl(gameId, categoryId));
    var left := maxPages;
    ghost var first := Fetch(api, url, left);
    if first.Success? {
      assert allRuns + first.value == first.value;
    }
    while Truthy(url)
      invariant Fetch(api, Some(RunsUrl(gameId, categoryId)), maxPages)
        == match Fetch(api, url, left)
           case Success(rest) => Success(allRuns + rest)
           case Failure(e) => Failure(e)
      decreases left
    {
      if left == 0 {
        return Failure(PageLimit);
      }
      if url.value !in api {
        return Failure(RequestFailed(url.value));
      }
      var page := api[url.value];
      ghost var after := Fetch(api, NextUrl(page.links), left - 1);
      if after.Success? {
        assert allRuns + (page.data + after.value) == (allRuns + page.data) + after.value;
      }
      allRuns := allRuns + page.data;
      url := NextUrl(page.links);
      left := left - 1;
    }
    assert allRuns + [] == allRuns;
    r := Success(allRuns);
  }
}
