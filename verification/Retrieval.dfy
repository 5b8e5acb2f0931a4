/** Bounded retrieval: which URLs are fetched, the per-host locks around a global
    semaphore, and the batched search (src/deepr/backends/fresh_context.py). */
module Retrievals {
  import opened Counting
  import opened FreshContexts
  import opened Options
  import opened Text

  datatype SearchResult = SearchResult(title: string, url: string, snippet: string, source: string)

  datatype CachedSource = CachedSource(
    title: string,
    url: string,
    etag: string,
    lastModified: string,
    contentHash: string,
    excerpt: string)

  /** A page, or the message of the exception the fetch raised. */
  datatype Fetched =
    | Page(status: int, title: string, url: string, text: string, etag: string, lastModified: string)
    | Broke(message: string)

  function Either(a: string, b: string): string { if a != "" then a else b }

  function NotModified(page: Fetched, title: string, url: string, snippet: string, source: string, browser: string,
                       cached: Option<CachedSource>): FreshSource
    requires page.Page?
  {
    match cached
    case None =>
      FreshSource(title, Either(page.url, url), snippet, "", source + "+" + browser, false,
                  "conditional fetch returned 304 without cached source metadata",
                  page.etag, page.lastModified, true, "")
    case Some(c) =>
      FreshSource(if page.title != "" && page.title != "Not modified" then page.title else Either(c.title, title),
                  Either(page.url, Either(c.url, url)), snippet, c.excerpt, source + "+" + browser, false, "",
                  Either(page.etag, c.etag), Either(page.lastModified, c.lastModified), true, c.contentHash)
  }

  /** `_source_from_url`, given what the browser returned; `None` when nothing is fetched. */
  function SourceFromUrl(url: string, result: Option<SearchResult>, browser: string, cached: Option<CachedSource>,
                         page: Option<Fetched>): FreshSource {
    var title := if result.Some? then result.value.title else url;
    var snippet := if result.Some? then result.value.snippet else "";
    var source := if result.Some? then result.value.source else "explicit-url";
    match page
    case None => FreshSource(title, url, snippet, "", source, false, "", "", "", false, "")
    case Some(Broke(message)) => FreshSource(title, url, snippet, "", source, false, message, "", "", false, "")
    case Some(p) =>
      if p.status == 304 then NotModified(p, title, url, snippet, source, browser, cached)
      else if p.status != 0 && Strip(p.text, IsSpace) != "" then
        FreshSource(Either(p.title, title), Either(p.url, url), snippet, p.text, source + "+" + browser, true, "",
                    p.etag, p.lastModified, false, "")
      else
        FreshSource(title, url, snippet, "", source, false, Either(p.text, "fetch returned no text"), "", "", false, "")
  }

  /** What a source can be cited for: a page that was fetched with text, or a 304 answer that
      revalidates cached text of known hash. A search result alone, a failed fetch or a URL
      beyond the fetch limit is never citable. */
  lemma CitableIff(url: string, result: Option<SearchResult>, browser: string, cached: Option<CachedSource>,
                   page: Option<Fetched>,
                   digest: string -> string)
    requires forall text: string :: IsSha256(digest(text))
    ensures var s := SourceFromUrl(url, result, browser, cached, page);
            && (s.fetched <==> page.Some? && page.value.Page? && page.value.status != 304 && page.value.status != 0
                               && Strip(page.value.text, IsSpace) != "")
            && (s.notModified <==> page.Some? && page.value.Page? && page.value.status == 304)
            && (Citable(s, digest) <==>
                  || s.fetched
                  || (s.notModified && cached.Some? && Body(s) != ""
                      && if cached.value.contentHash != "" then IsSha256(cached.value.contentHash)
                         else Strip(cached.value.excerpt, IsSpace) != ""))
  {
    hide Strip, IsSpace, IsSha256;
    assert Strip("", IsSpace) == "" by { StripEmpty(); }
    assert !IsSha256("") by { EmptyHash(); }
    ExcerptLength(SourceFromUrl(url, result, browser, cached, page), 1);
    hide Excerpt;
  }

  /** What the search result says of a URL, or the URL itself. */
  ghost function Named(url: string, result: Option<SearchResult>): SearchResult {
    if result.Some? then result.value else SearchResult(url, url, "", "explicit-url")
  }

  /** Field by field, a page with text comes before what the search result says. */
  lemma FetchedMeans(url: string, result: Option<SearchResult>, browser: string, cached: Option<CachedSource>,
                     page: Option<Fetched>)
    requires SourceFromUrl(url, result, browser, cached, page).fetched
    ensures var s, named := SourceFromUrl(url, result, browser, cached, page), Named(url, result);
            && page.Some? && page.value.Page? && !s.notModified
            && s.title == (if page.value.title != "" then page.value.title else named.title)
            && s.url == (if page.value.url != "" then page.value.url else url)
            && s.content == page.value.text && s.contentHash == "" && s.error == ""
            && s.etag == page.value.etag && s.lastModified == page.value.lastModified
  {
    hide Strip, IsSpace;
  }

  /** A URL whose page gave neither text nor a 304 answer keeps the search result's fields and
      the reason. */
  lemma UnfetchedMeans(url: string, result: Option<SearchResult>, browser: string, cached: Option<CachedSource>,
                       page: Option<Fetched>)
    requires !SourceFromUrl(url, result, browser, cached, page).fetched
    requires !SourceFromUrl(url, result, browser, cached, page).notModified
    ensures var s, named := SourceFromUrl(url, result, browser, cached, page), Named(url, result);
            && s.title == named.title && s.url == url
            && s.content == s.etag == s.lastModified == s.contentHash == ""
            && s.error == (match page
                           case None => ""
                           case Some(Broke(message)) => message
                           case Some(p) => if p.text != "" then p.text else "fetch returned no text")
  {
    hide Strip, IsSpace;
  }

  /** The snippet is the search result's, and the source names the browser exactly when the page
      answered with text or with 304. */
  lemma SnippetAndSource(url: string, result: Option<SearchResult>, browser: string, cached: Option<CachedSource>,
                         page: Option<Fetched>)
    ensures var s, named := SourceFromUrl(url, result, browser, cached, page), Named(url, result);
            && s.snippet == named.snippet
            && s.source == (if s.fetched || s.notModified then named.source + "+" + browser else named.source)
  {
    hide Strip, IsSpace, Either;
    if page.Some? && page.value.Page? && page.value.status == 304 {
      assert SourceFromUrl(url, result, browser, cached, page)
          == NotModified(page.value, Named(url, result).title, url, Named(url, result).snippet,
                         Named(url, result).source, browser, cached);
    } else {
      hide NotModified;
    }
  }

  /** A 304 answer brings the cached text and hash, if any are cached: the page's fields come
      before the cached ones, and those before the search result's. */
  lemma RevalidatedMeans(url: string, result: Option<SearchResult>, browser: string, cached: Option<CachedSource>,
                         page: Option<Fetched>)
    requires SourceFromUrl(url, result, browser, cached, page).notModified
    ensures var s := SourceFromUrl(url, result, browser, cached, page);
            && !s.fetched
            && s.url == (if page.value.url != "" then page.value.url
                         else if cached.Some? && cached.value.url != "" then cached.value.url else url)
            && s.title == (if cached.Some? && page.value.title !in {"", "Not modified"} then page.value.title
                           else if cached.Some? && cached.value.title != "" then cached.value.title
                           else Named(url, result).title)
            && s.content == (if cached.Some? then cached.value.excerpt else "")
            && s.contentHash == (if cached.Some? then cached.value.contentHash else "")
            && (s.error == "" <==> cached.Some?)
            && s.etag == (if page.value.etag == "" && cached.Some? then cached.value.etag else page.value.etag)
            && s.lastModified == (if page.value.lastModified == "" && cached.Some? then cached.value.lastModified
                                  else page.value.lastModified)
  {
    hide Strip, IsSpace;
  }

  lemma StripEmpty()
    ensures Strip("", IsSpace) == ""
  {
  }

  lemma EmptyHash()
    ensures !IsSha256("")
  {
  }

  // ----- The URLs -----

  /** The elements in order of first occurrence. */
  function Distinct<T(==)>(s: seq<T>): seq<T> {
    if s == [] then []
    else
      var front := Distinct(s[..|s| - 1]);
      if s[|s| - 1] in front then front else front + [s[|s| - 1]]
  }

  /** The URLs written in the query, each once, in order of first mention. */
  method ExtractUrls(matches: seq<string>) returns (urls: seq<string>)
    ensures urls == Distinct(matches)
    ensures NoRepeats(urls) && forall u :: u in urls <==> u in matches
    ensures forall i, j, n :: 0 <= i < j < |urls| && 0 <= n < |matches| && matches[n] == urls[j] ==>
              urls[i] in matches[..n]
  {
    hide FirstNamed, NoRepeats;
    urls := [];
    NothingNamed(matches);
    var seen: set<string> := {};
    var k := 0;
    while k < |matches|
      invariant 0 <= k <= |matches|
      invariant urls == Distinct(matches[..k])
      invariant NoRepeats(urls) && (forall u :: u in urls <==> u in matches[..k])
                  && (forall u :: u in seen <==> u in urls)
      invariant FirstNamed(urls, matches)
    {
      var url := matches[k];
      assert matches[..k + 1] == matches[..k] + [url];
      if url !in seen {
        NextNamed(urls, matches, k, url);
        NoRepeatsNext(urls, url);
        seen := seen + {url};
        urls := urls + [url];
      }
      k := k + 1;
    }
    assert matches[..k] == matches;
    FirstNamedMeans(urls, matches);
  }

  predicate Rejects(u: string, admitted: string -> bool) { u != "" && !admitted(u) }

  function CountRejected(urls: seq<string>, admitted: string -> bool): nat {
    if urls == [] then 0
    else CountRejected(urls[..|urls| - 1], admitted) + if Rejects(urls[|urls| - 1], admitted) then 1 else 0
  }

  /** Each inadmissible URL is counted as often as it is named. */
  lemma {:induction false} RejectedCounts(u: string, a: seq<string>, b: seq<string>, admitted: string -> bool)
    ensures CountRejected([], admitted) == 0
    ensures CountRejected([u], admitted) == if u == "" || admitted(u) then 0 else 1
    ensures CountRejected(a + b, admitted) == CountRejected(a, admitted) + CountRejected(b, admitted)
  {
    assert [u][..0] == [];
    if b == [] {
      assert a + b == a;
    } else {
      assert (a + b)[..|a + b| - 1] == a + b[..|b| - 1];
      RejectedCounts(u, a, b[..|b| - 1], admitted);
    }
  }

  function Urls(results: seq<SearchResult>): (r: seq<string>)
    ensures |r| == |results| && forall k :: 0 <= k < |r| ==> r[k] == results[k].url
  {
    seq(|results|, k requires 0 <= k < |results| => results[k].url)
  }

  /** The URLs to retrieve, each once, in the order in which the query and then the search
      results first name them; every admitted URL is there, one that the query does not write
      attributed to the first result that named it, and every inadmissible one is counted. */
  method RetrievalUrls(written: seq<string>, results: seq<SearchResult>, admitted: string -> bool)
    returns (urls: seq<string>, byUrl: map<string, SearchResult>, rejected: nat)
    requires NoRepeats(written) && "" !in written
    ensures NoRepeats(urls)
    ensures forall u :: u in urls <==> admitted(u) && (u in written || (u != "" && u in Urls(results)))
    ensures var named := written + Urls(results);
            forall i, j, n :: 0 <= i < j < |urls| && 0 <= n < |named| && named[n] == urls[j] ==> urls[i] in named[..n]
    ensures forall u :: u in byUrl <==> u in urls && u !in written
    ensures forall u <- byUrl :: exists k ::
              0 <= k < |results| && results[k] == byUrl[u] && byUrl[u].url == u && u !in Urls(results)[..k]
    ensures rejected == CountRejected(written, admitted) + CountRejected(Urls(results), admitted)
  {
    hide FirstNamed, FirstResults, NoRepeats, CountRejected;
    urls, rejected := AdmitWritten(written, admitted);
    byUrl := map[];
    var seen := set u | u in urls;
    var k := 0;
    var all := Urls(results);
    ghost var named := written + all;
    NoResults(results);
    CountNone(admitted);
    WrittenNamed(urls, written, all);
    while k < |results|
      invariant 0 <= k <= |results|
      invariant NoRepeats(urls) && (forall u :: u in seen <==> u in urls)
      invariant forall u :: u in urls <==> admitted(u) && (u in written || (u != "" && u in all[..k]))
      invariant FirstNamed(urls, named)
      invariant forall u :: u in byUrl <==> u in urls && u !in written
      invariant FirstResults(byUrl, results, k)
      invariant rejected == CountRejected(written, admitted) + CountRejected(all[..k], admitted)
    {
      var r := results[k];
      assert all[..k + 1] == all[..k] + [r.url];
      MoreResults(byUrl, results, k);
      CountNext(all, k, admitted);
      if r.url != "" && r.url !in seen {
        if admitted(r.url) {
          assert r.url !in all[..k] && r.url !in written;
          assert named[..|written| + k] == written + all[..k];
          NextNamed(urls, named, |written| + k, r.url);
          NoRepeatsNext(urls, r.url);
          seen := seen + {r.url};
          urls := urls + [r.url];
          NextResult(byUrl, results, k);
          byUrl := byUrl[r.url := r];
        } else {
          rejected := rejected + 1;
        }
      }
      k := k + 1;
    }
    assert all[..k] == all;
    FirstResultsMean(byUrl, results);
    FirstNamedMeans(urls, named);
  }

  lemma CountNone(admitted: string -> bool)
    ensures CountRejected([], admitted) == 0
  {
  }

  lemma CountNext(urls: seq<string>, k: nat, admitted: string -> bool)
    requires k < |urls|
    ensures CountRejected(urls[..k + 1], admitted)
            == CountRejected(urls[..k], admitted) + if Rejects(urls[k], admitted) then 1 else 0
  {
    assert urls[..k + 1][..k] == urls[..k];
  }

  lemma NoRepeatsNext(urls: seq<string>, url: string)
    requires NoRepeats(urls) && url !in urls
    ensures NoRepeats(urls + [url])
  {
  }

  /** Whatever `named` names first comes first. */
  ghost predicate FirstNamed(urls: seq<string>, named: seq<string>) {
    forall i, j, n :: 0 <= i < j < |urls| && 0 <= n < |named| && named[n] == urls[j] ==> urls[i] in named[..n]
  }

  lemma FirstNamedMeans(urls: seq<string>, named: seq<string>)
    ensures FirstNamed(urls, named)
            <==> forall i, j, n :: 0 <= i < j < |urls| && 0 <= n < |named| && named[n] == urls[j] ==>
                   urls[i] in named[..n]
  {
  }

  lemma NothingNamed(named: seq<string>)
    ensures FirstNamed([], named) && NoRepeats<string>([])
  {
  }

  lemma WrittenNamed(urls: seq<string>, written: seq<string>, more: seq<string>)
    requires FirstNamed(urls, written) && forall u <- urls :: u in written
    ensures FirstNamed(urls, written + more)
  {
    var named := written + more;
    forall i, j, n | 0 <= i < j < |urls| && 0 <= n < |named| && named[n] == urls[j] ensures urls[i] in named[..n] {
      if n < |written| {
        assert named[..n] == written[..n] && written[n] == urls[j];
      } else {
        assert named[..n] == written + more[..n - |written|];
      }
    }
  }

  /** A URL that nothing before `k` names comes after all that are named there. */
  lemma NextNamed(urls: seq<string>, named: seq<string>, k: nat, url: string)
    requires FirstNamed(urls, named) && k <= |named| && url !in named[..k]
    requires forall u <- urls :: u in named[..k]
    ensures FirstNamed(urls + [url], named)
  {
    var more := urls + [url];
    forall i, j, n | 0 <= i < j < |more| && 0 <= n < |named| && named[n] == more[j] ensures more[i] in named[..n] {
      if j == |urls| {
        forall m | 0 <= m < k ensures named[m] != url { assert named[..k][m] in named[..k]; }
        assert more[i] in named[..k] && named[..k] <= named[..n];
      }
    }
  }

  /** Each URL is attributed to the first of the first `k` results that names it. */
  ghost predicate FirstResults(byUrl: map<string, SearchResult>, results: seq<SearchResult>, k: nat) {
    forall u <- byUrl :: exists m ::
      0 <= m < k && m < |results| && results[m] == byUrl[u] && byUrl[u].url == u && u !in Urls(results)[..m]
  }

  lemma NoResults(results: seq<SearchResult>)
    ensures FirstResults(map[], results, 0)
  {
  }

  lemma NextResult(byUrl: map<string, SearchResult>, results: seq<SearchResult>, k: nat)
    requires FirstResults(byUrl, results, k) && k < |results| && results[k].url !in Urls(results)[..k]
    ensures FirstResults(byUrl[results[k].url := results[k]], results, k + 1)
  {
  }

  lemma MoreResults(byUrl: map<string, SearchResult>, results: seq<SearchResult>, k: nat)
    requires FirstResults(byUrl, results, k)
    ensures FirstResults(byUrl, results, k + 1)
  {
  }

  lemma FirstResultsMean(byUrl: map<string, SearchResult>, results: seq<SearchResult>)
    requires FirstResults(byUrl, results, |results|)
    ensures forall u <- byUrl :: exists k ::
              0 <= k < |results| && results[k] == byUrl[u] && byUrl[u].url == u && u !in Urls(results)[..k]
  {
  }

  /** The first loop of `_retrieval_urls`, over the URLs written in the query. */
  method AdmitWritten(written: seq<string>, admitted: string -> bool) returns (urls: seq<string>, rejected: nat)
    requires NoRepeats(written) && "" !in written
    ensures NoRepeats(urls) && forall u :: u in urls <==> u in written && admitted(u)
    ensures FirstNamed(urls, written)
    ensures rejected == CountRejected(written, admitted)
  {
    hide FirstNamed;
    urls, rejected := [], 0;
    NothingNamed(written);
    var k := 0;
    while k < |written|
      invariant 0 <= k <= |written|
      invariant NoRepeats(urls) && forall u :: u in urls <==> u in written[..k] && admitted(u)
      invariant FirstNamed(urls, written)
      invariant rejected == CountRejected(written[..k], admitted)
    {
      var url := written[k];
      assert written[..k + 1] == written[..k] + [url];
      assert url in written && url !in written[..k];
      if admitted(url) {
        NextNamed(urls, written, k, url);
        urls := urls + [url];
      } else {
        rejected := rejected + 1;
      }
      k := k + 1;
    }
    assert written[..k] == written;
  }

  // ----- The fetch schedule -----

  const MAX_FETCHES := 4

  /** A fetch waits for its host's lock, then for a permit, then for the page. */
  datatype Phase = Waiting | HoldsHost | Fetching | Finished(source: FreshSource)

  predicate Holding(p: Phase) { p.HoldsHost? || p.Fetching? }

  /** `hosts[i]` is the host key of the URL fetched by task `i`. */
  datatype Fetches = Fetches(hosts: seq<string>, phases: seq<Phase>)

  function InFlight(p: Phase): nat { if p.Fetching? then 1 else 0 }

  function Flights(s: Fetches): nat { Sum(s.phases, InFlight) }

  predicate HostFree(s: Fetches, host: string) {
    forall j :: 0 <= j < |s.phases| && j < |s.hosts| && s.hosts[j] == host ==> !Holding(s.phases[j])
  }

  datatype Event = TakeHost(task: nat) | TakePermit(task: nat) | Finish(task: nat, source: FreshSource)

  predicate Enabled(s: Fetches, e: Event) {
    && |s.hosts| == |s.phases| && e.task < |s.phases|
    && match e
       case TakeHost(i) => s.phases[i].Waiting? && HostFree(s, s.hosts[i])
       case TakePermit(i) => s.phases[i].HoldsHost? && Flights(s) < MAX_FETCHES
       case Finish(i, _) => s.phases[i].Fetching?
  }

  /** Finishing releases the permit and the host lock together. */
  function Step(s: Fetches, e: Event): Fetches
    requires Enabled(s, e)
  {
    s.(phases := s.phases[e.task := match e
                                    case TakeHost(_) => HoldsHost
                                    case TakePermit(_) => Fetching
                                    case Finish(_, source) => Finished(source)])
  }

  ghost predicate Execution(s: Fetches, events: seq<Event>)
    decreases |events|
  {
    events == [] || (Enabled(s, events[0]) && Execution(Step(s, events[0]), events[1..]))
  }

  function After(s: Fetches, events: seq<Event>): Fetches
    requires Execution(s, events)
    decreases |events|
  {
    if events == [] then s else After(Step(s, events[0]), events[1..])
  }

  function Begin(hosts: seq<string>): Fetches { Fetches(hosts, seq(|hosts|, _ => Waiting)) }

  predicate Complete(s: Fetches) { forall p <- s.phases :: p.Finished? }

  /** At most four fetches in flight and at most one task per host holding its lock. */
  ghost predicate Safe(s: Fetches) {
    && |s.hosts| == |s.phases|
    && Flights(s) <= MAX_FETCHES
    && forall i, j :: 0 <= i < j < |s.phases| && s.hosts[i] == s.hosts[j] ==>
         !Holding(s.phases[i]) || !Holding(s.phases[j])
  }

  lemma BeginSafe(hosts: seq<string>)
    ensures Safe(Begin(hosts))
  {
    SumZero(Begin(hosts).phases, InFlight);
  }

  lemma StepSafe(s: Fetches, e: Event)
    requires Safe(s) && Enabled(s, e)
    ensures Safe(Step(s, e))
  {
    SumUpdate(s.phases, e.task, Step(s, e).phases[e.task], InFlight);
  }

  /** In every schedule at most four fetches are in flight, at most one per host. */
  lemma {:induction false} AlwaysSafe(s: Fetches, events: seq<Event>)
    requires Safe(s) && Execution(s, events)
    ensures Safe(After(s, events)) && After(s, events).hosts == s.hosts
    decreases |events|
  {
    if events != [] {
      hide Safe, Enabled;
      StepSafe(s, events[0]);
      AlwaysSafe(Step(s, events[0]), events[1..]);
    }
  }

  /** No schedule deadlocks: a fetch in flight can finish; without one, a task holding its
      host can take a permit; without either, every host is free. */
  lemma NeverStuck(s: Fetches, page: FreshSource)
    requires Safe(s) && !Complete(s)
    ensures exists i: nat :: Enabled(s, TakeHost(i)) || Enabled(s, TakePermit(i)) || Enabled(s, Finish(i, page))
  {
    var i: nat :| i < |s.phases| && !s.phases[i].Finished?;
    if j: nat :| j < |s.phases| && s.phases[j].Fetching? {
      assert Enabled(s, Finish(j, page));
    } else {
      forall p | p in s.phases ensures InFlight(p) == 0 {}
      SumZero(s.phases, InFlight);
      if j: nat :| j < |s.phases| && s.phases[j].HoldsHost? {
        assert Enabled(s, TakePermit(j));
      } else {
        assert Enabled(s, TakeHost(i));
      }
    }
  }

  function Rank(p: Phase): nat {
    match p
    case Waiting => 3
    case HoldsHost => 2
    case Fetching => 1
    case Finished(_) => 0
  }

  /** Every schedule ends within three segments per URL. */
  lemma {:induction false} SchedulesAreShort(s: Fetches, events: seq<Event>)
    requires Execution(s, events)
    ensures |events| + Sum(After(s, events).phases, Rank) <= Sum(s.phases, Rank) <= 3 * |s.phases|
    decreases |events|
  {
    SumBound(s.phases, Rank, 3);
    if events != [] {
      var i := events[0].task;
      SumUpdate(s.phases, i, Step(s, events[0]).phases[i], Rank);
      SchedulesAreShort(Step(s, events[0]), events[1..]);
    }
  }

  /** From its beginning on, every schedule of every list of hosts is safe, ends within three
      segments per URL, and can always go on until every fetch has finished. */
  lemma FetchesFinish(hosts: seq<string>, events: seq<Event>, page: FreshSource)
    requires Execution(Begin(hosts), events)
    ensures var s := After(Begin(hosts), events);
            && Safe(s) && s.hosts == hosts && |events| <= 3 * |hosts|
            && (Complete(s) || exists i: nat ::
                  Enabled(s, TakeHost(i)) || Enabled(s, TakePermit(i)) || Enabled(s, Finish(i, page)))
  {
    hide Safe, Enabled, Complete;
    BeginSafe(hosts);
    AlwaysSafe(Begin(hosts), events);
    SchedulesAreShort(Begin(hosts), events);
    var s := After(Begin(hosts), events);
    if !Complete(s) { NeverStuck(s, page); }
  }

  // ----- The order of the sources -----

  /** Task `i`'s fetch yields `pages[i]`, whenever it finishes. */
  ghost predicate Yields(events: seq<Event>, pages: seq<FreshSource>) {
    forall e <- events :: e.Finish? && e.task < |pages| ==> e.source == pages[e.task]
  }

  lemma {:induction false} FinishedAsYielded(s: Fetches, events: seq<Event>, pages: seq<FreshSource>)
    requires Execution(s, events) && Yields(events, pages) && |pages| == |s.phases|
    requires forall i :: 0 <= i < |s.phases| && s.phases[i].Finished? ==> s.phases[i].source == pages[i]
    ensures var s' := After(s, events);
            |s'.phases| == |pages| && forall i :: 0 <= i < |pages| && s'.phases[i].Finished? ==>
              s'.phases[i].source == pages[i]
    decreases |events|
  {
    if events != [] {
      assert events[0] in events;
      forall e | e in events[1..] ensures e in events {}
      FinishedAsYielded(Step(s, events[0]), events[1..], pages);
    }
  }

  /** What `gather` returns: the sources in the order of the tasks. */
  function Gathered(s: Fetches): (r: seq<FreshSource>)
    requires Complete(s)
    ensures |r| == |s.phases|
  {
    seq(|s.phases|, i requires 0 <= i < |s.phases| => assert s.phases[i] in s.phases; s.phases[i].source)
  }

  /** The gathered sources are in URL order under every schedule, so two schedules of the
      same fetches give the same sources. */
  lemma GatheredInUrlOrder(hosts: seq<string>, events: seq<Event>, pages: seq<FreshSource>)
    requires Execution(Begin(hosts), events) && Complete(After(Begin(hosts), events))
    requires Yields(events, pages) && |pages| == |hosts|
    ensures Gathered(After(Begin(hosts), events)) == pages
  {
    FinishedAsYielded(Begin(hosts), events, pages);
    var s := After(Begin(hosts), events);
    forall i | 0 <= i < |pages| ensures Gathered(s)[i] == pages[i] { assert s.phases[i] in s.phases; }
  }

  /** The URLs that are fetched: none without a browser, else as many as the limit allows. */
  function FetchCount(urls: nat, hasBrowser: bool, maxFetches: int): (n: nat)
    ensures n <= urls
    ensures n > 0 ==> hasBrowser && n <= maxFetches
    ensures hasBrowser && n < urls ==> maxFetches <= n
  {
    if !hasBrowser then 0 else Min(urls, if maxFetches > 0 then maxFetches else 0)
  }

  /** The source of a URL that is not fetched. */
  function Unfetched(url: string, byUrl: map<string, SearchResult>): FreshSource {
    SourceFromUrl(url, if url in byUrl then Some(byUrl[url]) else None, "", None, None)
  }

  /** `_build_sources` after its gather, which has fetched as many URLs as the limit allows: one
      source per URL, in URL order, the rest unfetched. */
  method BuildSources(urls: seq<string>, byUrl: map<string, SearchResult>, hasBrowser: bool, maxFetches: int,
                      fetched: seq<FreshSource>)
    returns (sources: seq<FreshSource>)
    requires |fetched| == FetchCount(|urls|, hasBrowser, maxFetches)
    ensures |sources| == |urls| && fetched <= sources
    ensures forall k :: |fetched| <= k < |urls| ==>
              sources[k].url == urls[k] && !sources[k].fetched && sources[k].content == ""
              && sources[k] == Unfetched(urls[k], byUrl)
    ensures forall k :: |fetched| <= k < |urls| ==>
              if urls[k] in byUrl then
                var r := byUrl[urls[k]];
                sources[k].title == r.title && sources[k].snippet == r.snippet && sources[k].source == r.source
              else sources[k].title == urls[k] && sources[k].snippet == "" && sources[k].source == "explicit-url"
    ensures !hasBrowser || maxFetches <= 0 ==> forall k :: 0 <= k < |urls| ==> sources[k] == Unfetched(urls[k], byUrl)
    ensures hasBrowser && maxFetches >= |urls| ==> sources == fetched
  {
    sources := fetched;
    var k := |fetched|;
    while k < |urls|
      invariant |fetched| <= k <= |urls| && |sources| == k && fetched <= sources
      invariant forall j :: |fetched| <= j < k ==>
                  sources[j] == Unfetched(urls[j], byUrl)
    {
      sources := sources + [Unfetched(urls[k], byUrl)];
      k := k + 1;
    }
  }

  // ----- The batched search -----

  /** What one search returned: its results, or the message of its failure. */
  datatype Searched = Found(results: seq<SearchResult>) | Failed(error: string)

  function AllResults(outcomes: seq<Searched>): seq<SearchResult> {
    if outcomes == [] then []
    else AllResults(outcomes[..|outcomes| - 1]) + match outcomes[|outcomes| - 1] case Found(r) => r case Failed(_) => []
  }

  function AllErrors(outcomes: seq<Searched>): seq<string> {
    if outcomes == [] then []
    else
      AllErrors(outcomes[..|outcomes| - 1])
      + match outcomes[|outcomes| - 1] case Found(_) => [] case Failed(e) => [e]
  }

  /** The batches of `_collect_search_results`, where `outcomes[i]` is what searching for
      query `i` gives: however the queries are batched, results and errors come out in query
      order. Serial backends search one query at a time, the others four. */
  method CollectSearchResults(outcomes: seq<Searched>, serial: bool) returns (results: seq<SearchResult>,
                              errors: seq<string>)
    ensures results == AllResults(outcomes) && errors == AllErrors(outcomes)
    ensures forall i :: 0 <= i < |outcomes| && outcomes[i].Found? ==>
              results == AllResults(outcomes[..i]) + outcomes[i].results + AllResults(outcomes[i + 1..])
    ensures forall i :: 0 <= i < |outcomes| && outcomes[i].Failed? ==>
              errors == AllErrors(outcomes[..i]) + [outcomes[i].error] + AllErrors(outcomes[i + 1..])
  {
    hide AllResults, AllErrors;
    CollectedOnce(Found([]));
    results, errors := [], [];
    var concurrency := if serial then 1 else 4;
    var offset := 0;
    while offset < |outcomes|
      invariant 0 <= offset <= |outcomes|
      invariant results == AllResults(outcomes[..offset]) && errors == AllErrors(outcomes[..offset])
    {
      var end := if offset + concurrency < |outcomes| then offset + concurrency else |outcomes|;
      var batch := outcomes[offset..end];
      var k := 0;
      while k < |batch|
        invariant 0 <= k <= |batch|
        invariant results == AllResults(outcomes[..offset + k]) && errors == AllErrors(outcomes[..offset + k])
      {
        assert outcomes[..offset + k + 1] == outcomes[..offset + k] + [batch[k]];
        CollectedInOrder(outcomes[..offset + k], [batch[k]]);
        CollectedOnce(batch[k]);
        match batch[k] {
          case Found(r) => results := results + r;
          case Failed(e) => errors := errors + [e];
        }
        k := k + 1;
      }
      offset := end;
    }
    assert outcomes[..offset] == outcomes;
    CollectedAround(outcomes);
  }

  /** One search contributes its results, or its error, and nothing else. */
  lemma CollectedOnce(o: Searched)
    ensures AllResults([]) == [] && AllErrors([]) == []
    ensures AllResults([o]) == if o.Found? then o.results else []
    ensures AllErrors([o]) == if o.Failed? then [o.error] else []
  {
    assert [o][..0] == [];
  }

  /** What the earlier queries contribute stands before what the later ones do. */
  lemma {:induction false} CollectedInOrder(a: seq<Searched>, b: seq<Searched>)
    ensures AllResults(a + b) == AllResults(a) + AllResults(b)
    ensures AllErrors(a + b) == AllErrors(a) + AllErrors(b)
  {
    if b == [] {
      assert a + b == a;
    } else {
      var front := b[..|b| - 1];
      assert (a + b)[..|a + b| - 1] == a + front;
      CollectedInOrder(a, front);
    }
  }

  lemma CollectedAround(outcomes: seq<Searched>)
    ensures forall i :: 0 <= i < |outcomes| && outcomes[i].Found? ==>
              AllResults(outcomes) == AllResults(outcomes[..i]) + outcomes[i].results + AllResults(outcomes[i + 1..])
    ensures forall i :: 0 <= i < |outcomes| && outcomes[i].Failed? ==>
              AllErrors(outcomes) == AllErrors(outcomes[..i]) + [outcomes[i].error] + AllErrors(outcomes[i + 1..])
  {
    hide AllResults, AllErrors;
    forall i | 0 <= i < |outcomes|
      ensures AllResults(outcomes) == AllResults(outcomes[..i]) + AllResults([outcomes[i]])
                                      + AllResults(outcomes[i + 1..])
      ensures AllErrors(outcomes) == AllErrors(outcomes[..i]) + AllErrors([outcomes[i]]) + AllErrors(outcomes[i + 1..])
    {
      assert outcomes == outcomes[..i] + [outcomes[i]] + outcomes[i + 1..];
      CollectedInOrder(outcomes[..i] + [outcomes[i]], outcomes[i + 1..]);
      CollectedInOrder(outcomes[..i], [outcomes[i]]);
    }
    forall i | 0 <= i < |outcomes|
      ensures AllResults([outcomes[i]]) == if outcomes[i].Found? then outcomes[i].results else []
      ensures AllErrors([outcomes[i]]) == if outcomes[i].Failed? then [outcomes[i].error] else []
    {
      CollectedOnce(outcomes[i]);
    }
  }
}
