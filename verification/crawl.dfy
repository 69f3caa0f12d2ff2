/** The crawl-and-ingest orchestration: `ingest(url)` over the module-level
    `visitedUrls` set, the `allLinks` frontier that `webScrappingOfSite`
    overwrites, `trainModel` which ingests the frontier and clears it, and the
    `startChat` session.

    `IngestSpec`, `TrainSpec` and their helpers are the reference definitions
    on a value `CrawlState`; the class `Crawler` holds the same state in
    fields and its methods are proved to move it exactly as the reference
    does. The `trace` records, in order, the calls that `ingest` makes to
    the external services (fetches, embeddings, inserts), so that "fetched at
    most once" and "one embed and one insert per chunk" can be stated; the
    embedding and query calls of `chat` are not recorded. */
module Crawl {
  import opened Wrappers
  import opened Chunker
  import opened Links
  import opened Records
  import opened Responder
  import opened Session

  /** What `webScrappingOfSite` returns: head and body markup (`None` for
      `null`) and the page's links. */
  datatype Page = Page(head: Option<string>, body: Option<string>, links: seq<string>)

  /** The scrape of `url`, or `None` when it threw: the fetch or parse
      failed, or a kept href did not resolve. */
  function ScrapeOf(url: string, env: Env): Option<Page>
  {
    match env.fetch(url)
    case None => None
    case Some(doc) =>
      match PageLinks(doc.hrefs, url, env.resolve)
      case None => None
      case Some(links) => Some(Page(doc.head, doc.body, links))
  }

  /** A call to an external service. */
  datatype Event = Fetch(url: string) | Embed(text: string) | Insert(id: string, record: Record)

  /** The crawler's state: the visited set, the link frontier, the vector
      store and the calls made so far. */
  datatype CrawlState = CrawlState(visited: set<string>, allLinks: seq<string>, store: Store, trace: seq<Event>)

  /** The calls one iteration of a chunk loop in `ingest` makes: embed the
      truncated chunk, then insert under `id = url` with that embedding and
      the whole page as metadata. */
  function Calls(url: string, head: string, body: string, chunk: string, env: Env): seq<Event>
  {
    var text := EmbedInput(chunk);
    [Embed(text), Insert(url, Record(env.embed(text), Meta(url, head, body)))]
  }

  /** The calls of a whole chunk loop. */
  function CallsAll(url: string, head: string, body: string, chunks: seq<string>, env: Env): seq<Event>
    decreases |chunks|
  {
    if chunks == [] then []
    else CallsAll(url, head, body, chunks[..|chunks| - 1], env) + Calls(url, head, body, chunks[|chunks| - 1], env)
  }

  /** One iteration of a chunk loop in `ingest`. */
  function IndexChunk(st: CrawlState, url: string, head: string, body: string, chunk: string, env: Env): CrawlState
  {
    st.(store := Add(st.store, url, env.embed(EmbedInput(chunk)), head, body, env.onDuplicate),
        trace := st.trace + Calls(url, head, body, chunk, env))
  }

  /** A whole chunk loop, chunk by chunk in order. */
  function IndexAll(st: CrawlState, url: string, head: string, body: string, chunks: seq<string>, env: Env): CrawlState
    decreases |chunks|
  {
    if chunks == [] then st
    else IndexChunk(IndexAll(st, url, head, body, chunks[..|chunks| - 1], env), url, head, body, chunks[|chunks| - 1], env)
  }

  /** JavaScript truthiness of a possibly-null string. */
  predicate Present(s: Option<string>)
  {
    s.Some? && s.value != ""
  }

  /** The state once `ingest` has marked `url` visited and scraped it: the
      fetch is recorded, and the frontier is replaced by the page's links
      unless the scrape threw. */
  function Scraped(st: CrawlState, url: string, env: Env): CrawlState
  {
    var marked := st.(visited := st.visited + {url}, trace := st.trace + [Fetch(url)]);
    match ScrapeOf(url, env)
    case None => marked
    case Some(page) => marked.(allLinks := page.links)
  }

  /** The two chunk loops of `ingest`: the head's chunks (bound 100), then
      the body's chunks (bound 500). */
  function IndexPage(st: CrawlState, url: string, head: string, body: string, env: Env): CrawlState
  {
    var afterHead := IndexAll(st, url, head, body, Chunks(head, HeadMaxBytes), env);
    IndexAll(afterHead, url, head, body, Chunks(body, BodyMaxBytes), env)
  }

  /** `ingest(url)`: return if visited; mark visited; scrape; return unless
      both head and body are present; then index the page. */
  function IngestSpec(st: CrawlState, url: string, env: Env): CrawlState
  {
    if url in st.visited then st
    else
      var page := ScrapeOf(url, env);
      if page.None? || !Present(page.value.body) || !Present(page.value.head) then Scraped(st, url, env)
      else IndexPage(Scraped(st, url, env), url, page.value.head.value, page.value.body.value, env)
  }

  /** `ingest` applied to each link in order. */
  function RunIngests(st: CrawlState, links: seq<string>, env: Env): CrawlState
    decreases |links|
  {
    if links == [] then st
    else IngestSpec(RunIngests(st, links[..|links| - 1], env), links[|links| - 1], env)
  }

  /** `trainModel`: ingest every link of the frontier as it was when the loop
      started, then clear the frontier. */
  function TrainSpec(st: CrawlState, env: Env): CrawlState
  {
    RunIngests(st, st.allLinks, env).(allLinks := [])
  }

  /** The URLs fetched, in order. */
  function Fetched(trace: seq<Event>): seq<string>
    decreases |trace|
  {
    if trace == [] then []
    else Fetched(trace[..|trace| - 1]) + (if trace[|trace| - 1].Fetch? then [trace[|trace| - 1].url] else [])
  }

  /** Each URL fetched at most once, and only after being marked visited. */
  ghost predicate FetchedOnce(st: CrawlState)
  {
    NoDup(Fetched(st.trace)) && forall u :: u in Fetched(st.trace) ==> u in st.visited
  }

  /** The links of `links` that are neither in `visited` nor earlier in
      `links`, in order: the URLs that ingesting `links` fetches. */
  function FreshLinks(visited: set<string>, links: seq<string>): seq<string>
    decreases |links|
  {
    if links == [] then []
    else
      var init := links[..|links| - 1];
      var last := links[|links| - 1];
      if last in visited || last in init then FreshLinks(visited, init) else FreshLinks(visited, init) + [last]
  }

  // -----------------------------------------------------------------------
  // Lemmas: the chunk loops

  lemma {:induction false} FetchedAppend(t: seq<Event>, e: seq<Event>)
    ensures Fetched(t + e) == Fetched(t) + Fetched(e)
    decreases |e|
  {
    if e == [] {
      assert t + e == t;
    } else {
      var e' := e[..|e| - 1];
      assert (t + e)[..|t + e| - 1] == t + e';
      FetchedAppend(t, e');
    }
  }

  lemma {:induction false} FetchedNone(e: seq<Event>)
    requires forall i :: 0 <= i < |e| ==> !e[i].Fetch?
    ensures Fetched(e) == []
    decreases |e|
  {
    if e != [] {
      FetchedNone(e[..|e| - 1]);
    }
  }

  /** A chunk loop changes neither the visited set nor the frontier. */
  lemma {:induction false} IndexAllFrame(st: CrawlState, url: string, head: string, body: string, chunks: seq<string>, env: Env)
    ensures IndexAll(st, url, head, body, chunks, env).visited == st.visited
    ensures IndexAll(st, url, head, body, chunks, env).allLinks == st.allLinks
    decreases |chunks|
  {
    if chunks != [] {
      IndexAllFrame(st, url, head, body, chunks[..|chunks| - 1], env);
    }
  }

  /** A chunk loop appends its calls to the trace. */
  lemma {:induction false} IndexAllTrace(st: CrawlState, url: string, head: string, body: string, chunks: seq<string>, env: Env)
    ensures IndexAll(st, url, head, body, chunks, env).trace == st.trace + CallsAll(url, head, body, chunks, env)
    decreases |chunks|
  {
    if chunks != [] {
      IndexAllTrace(st, url, head, body, chunks[..|chunks| - 1], env);
    }
  }

  lemma {:induction false} CallsAllAppend(url: string, head: string, body: string, hc: seq<string>, bc: seq<string>, env: Env)
    ensures CallsAll(url, head, body, hc + bc, env) == CallsAll(url, head, body, hc, env) + CallsAll(url, head, body, bc, env)
    decreases |bc|
  {
    if bc == [] {
      assert hc + bc == hc;
    } else {
      var init := bc[..|bc| - 1];
      assert (hc + bc)[..|hc + bc| - 1] == hc + init;
      CallsAllAppend(url, head, body, hc, init, env);
    }
  }

  /** The calls of a chunk loop: exactly two per chunk, in chunk order, the
      embedding of the truncated chunk and then an insert under `id = url`
      with that embedding and the whole-page metadata; no fetch among them. */
  lemma {:induction false} CallsAllShape(url: string, head: string, body: string, chunks: seq<string>, env: Env)
    ensures var calls := CallsAll(url, head, body, chunks, env);
            |calls| == 2 * |chunks|
            && (forall i :: 0 <= i < |chunks| ==>
                  calls[2 * i] == Embed(EmbedInput(chunks[i]))
                  && calls[2 * i + 1] == Insert(url, Record(env.embed(EmbedInput(chunks[i])), Meta(url, head, body))))
            && Fetched(calls) == []
    decreases |chunks|
  {
    if chunks != [] {
      var init := chunks[..|chunks| - 1];
      CallsAllShape(url, head, body, init, env);
      var calls := CallsAll(url, head, body, chunks, env);
      var prev := CallsAll(url, head, body, init, env);
      var pair := Calls(url, head, body, chunks[|chunks| - 1], env);
      assert calls == prev + pair;
      FetchedAppend(prev, pair);
      FetchedNone(pair);
      forall i | 0 <= i < |init|
        ensures calls[2 * i] == prev[2 * i] && calls[2 * i + 1] == prev[2 * i + 1]
      {
      }
    }
  }

  /** The chunk whose record an insert-per-chunk loop leaves under the URL:
      the last one when the collection overwrites, the first one when it keeps
      the first. */
  function StoredChunk(chunks: seq<string>, dup: OnDuplicate): (c: string)
    requires chunks != []
    ensures c in chunks
  {
    if dup == Overwrite then chunks[|chunks| - 1] else chunks[0]
  }

  /** After a chunk loop the store holds, under `url`, what one insert of the
      surviving chunk's embedding leaves; every other id is untouched. */
  lemma {:induction false} IndexAllStore(st: CrawlState, url: string, head: string, body: string, chunks: seq<string>, env: Env)
    ensures IndexAll(st, url, head, body, chunks, env).store ==
              if chunks == [] then st.store
              else Add(st.store, url, env.embed(EmbedInput(StoredChunk(chunks, env.onDuplicate))), head, body, env.onDuplicate)
    decreases |chunks|
  {
    if |chunks| > 1 {
      var init := chunks[..|chunks| - 1];
      IndexAllStore(st, url, head, body, init, env);
      AddAgain(st.store, url, env.embed(EmbedInput(StoredChunk(init, env.onDuplicate))),
               env.embed(EmbedInput(chunks[|chunks| - 1])), head, body, env.onDuplicate);
      assert init[0] == chunks[0];
    } else if |chunks| == 1 {
      assert chunks[..0] == [];
    }
  }

  lemma IndexTwiceTrace(st: CrawlState, url: string, head: string, body: string, hc: seq<string>, bc: seq<string>, env: Env)
    ensures IndexAll(IndexAll(st, url, head, body, hc, env), url, head, body, bc, env).trace
              == st.trace + CallsAll(url, head, body, hc + bc, env)
  {
    var afterHead := IndexAll(st, url, head, body, hc, env);
    var calls, more := CallsAll(url, head, body, hc, env), CallsAll(url, head, body, bc, env);
    IndexAllTrace(st, url, head, body, hc, env);
    IndexAllTrace(afterHead, url, head, body, bc, env);
    CallsAllAppend(url, head, body, hc, bc, env);
    SeqAssoc(st.trace, calls, more);
  }

  lemma SeqAssoc<T>(a: seq<T>, b: seq<T>, c: seq<T>)
    ensures a + b + c == a + (b + c)
  {
  }

  /** Indexing a page makes, after the calls already made, the calls of one
      chunk loop over the head's chunks followed by the body's chunks; it
      changes neither the visited set nor the frontier. */
  lemma IndexPageTrace(st: CrawlState, url: string, head: string, body: string, env: Env)
    ensures var r := IndexPage(st, url, head, body, env);
            r.visited == st.visited && r.allLinks == st.allLinks
            && r.trace == st.trace + CallsAll(url, head, body, Chunks(head, HeadMaxBytes) + Chunks(body, BodyMaxBytes), env)
  {
    var hc, bc := Chunks(head, HeadMaxBytes), Chunks(body, BodyMaxBytes);
    IndexAllFrame(st, url, head, body, hc, env);
    IndexAllFrame(IndexAll(st, url, head, body, hc, env), url, head, body, bc, env);
    IndexTwiceTrace(st, url, head, body, hc, bc, env);
  }

  /** After indexing a page with a body the store holds, under the URL, what
      one insert of the surviving chunk of the head's and body's chunks
      leaves: the last body chunk when the collection overwrites, the first
      chunk when it keeps the first. */
  lemma IndexPageStore(st: CrawlState, url: string, head: string, body: string, env: Env)
    requires body != ""
    ensures var hc, bc := Chunks(head, HeadMaxBytes), Chunks(body, BodyMaxBytes);
            |bc| > 0
            && IndexPage(st, url, head, body, env).store
               == Add(st.store, url, env.embed(EmbedInput(StoredChunk(hc + bc, env.onDuplicate))), head, body, env.onDuplicate)
  {
    ChunkCount(body, BodyMaxBytes);
    IndexTwiceStore(st, url, head, body, Chunks(head, HeadMaxBytes), Chunks(body, BodyMaxBytes), env);
  }

  lemma IndexTwiceStore(st: CrawlState, url: string, head: string, body: string, hc: seq<string>, bc: seq<string>, env: Env)
    requires hc + bc != []
    ensures IndexAll(IndexAll(st, url, head, body, hc, env), url, head, body, bc, env).store
              == Add(st.store, url, env.embed(EmbedInput(StoredChunk(hc + bc, env.onDuplicate))), head, body, env.onDuplicate)
  {
    var afterHead := IndexAll(st, url, head, body, hc, env);
    IndexAllStore(st, url, head, body, hc, env);
    IndexAllStore(afterHead, url, head, body, bc, env);
    if hc == [] {
      assert hc + bc == bc;
    } else if bc == [] {
      assert hc + bc == hc;
    } else {
      AddAgain(st.store, url, env.embed(EmbedInput(StoredChunk(hc, env.onDuplicate))),
               env.embed(EmbedInput(StoredChunk(bc, env.onDuplicate))), head, body, env.onDuplicate);
      assert (hc + bc)[0] == hc[0] && (hc + bc)[|hc + bc| - 1] == bc[|bc| - 1];
    }
  }

  // -----------------------------------------------------------------------
  // Lemmas: ingest

  /** `ingest` marks the URL visited (the set only grows) and fetches it
      exactly when it was not visited before. */
  lemma IngestFetches(st: CrawlState, url: string, env: Env)
    ensures IngestSpec(st, url, env).visited == st.visited + {url}
    ensures Fetched(IngestSpec(st, url, env).trace) == Fetched(st.trace) + (if url in st.visited then [] else [url])
  {
    if url !in st.visited {
      FetchedAppend(st.trace, [Fetch(url)]);
      assert Fetched([Fetch(url)]) == [url] by {
        assert [Fetch(url)][..0] == [];
      }
      var s := Scraped(st, url, env);
      assert s.trace == st.trace + [Fetch(url)] && s.visited == st.visited + {url};
      var page := ScrapeOf(url, env);
      if page.Some? && Present(page.value.body) && Present(page.value.head) {
        var head, body := page.value.head.value, page.value.body.value;
        var calls := CallsAll(url, head, body, Chunks(head, HeadMaxBytes) + Chunks(body, BodyMaxBytes), env);
        IndexPageTrace(s, url, head, body, env);
        CallsAllShape(url, head, body, Chunks(head, HeadMaxBytes) + Chunks(body, BodyMaxBytes), env);
        FetchedAppend(s.trace, calls);
      }
    }
  }

  /** Each URL is fetched at most once in a session: `ingest` keeps the
      fetched URLs distinct and all in the visited set. */
  lemma IngestFetchesOnce(st: CrawlState, url: string, env: Env)
    requires FetchedOnce(st)
    ensures FetchedOnce(IngestSpec(st, url, env))
  {
    IngestFetches(st, url, env);
  }

  /** A visited URL is a no-op, so a second `ingest` of the same URL changes
      nothing. */
  lemma IngestIdempotent(st: CrawlState, url: string, env: Env)
    ensures url in st.visited ==> IngestSpec(st, url, env) == st
    ensures IngestSpec(IngestSpec(st, url, env), url, env) == IngestSpec(st, url, env)
  {
    IngestFetches(st, url, env);
  }

  /** When the scrape throws or the head or body is missing or empty, the URL
      is fetched and nothing is embedded or stored. */
  lemma IngestAborts(st: CrawlState, url: string, env: Env)
    requires url !in st.visited
    requires var p := ScrapeOf(url, env); p.None? || !Present(p.value.head) || !Present(p.value.body)
    ensures IngestSpec(st, url, env).trace == st.trace + [Fetch(url)]
    ensures IngestSpec(st, url, env).store == st.store
  {
  }

  /** The frontier after `ingest` of a new URL is exactly that page's links
      when the scrape did not throw (distinct `http(s)` URLs), and is left as
      it was when it threw. */
  lemma IngestFrontier(st: CrawlState, url: string, env: Env)
    requires url !in st.visited
    ensures var p := ScrapeOf(url, env);
            IngestSpec(st, url, env).allLinks == (if p.Some? then p.value.links else st.allLinks)
            && (p.Some? ==> NoDup(p.value.links) && forall j :: 0 <= j < |p.value.links| ==> IsWebUrl(p.value.links[j]))
  {
    var p := ScrapeOf(url, env);
    if p.Some? {
      var doc := env.fetch(url).value;
      PageLinksSpec(doc.hrefs, url, env.resolve);
      if Present(p.value.body) && Present(p.value.head) {
        IndexPageTrace(Scraped(st, url, env), url, p.value.head.value, p.value.body.value, env);
      }
    }
  }

  /** A page with head and body is indexed chunk by chunk: after the fetch
      come the calls of one chunk loop over the head's chunks (bound 100) and
      then the body's chunks (bound 500) — two per chunk, see
      `CallsAllShape` — and the store ends up as after one insert of the
      surviving chunk's embedding under the URL. */
  lemma IngestIndexes(st: CrawlState, url: string, env: Env)
    requires url !in st.visited
    requires var p := ScrapeOf(url, env); p.Some? && Present(p.value.head) && Present(p.value.body)
    ensures var p := ScrapeOf(url, env).value;
            var head, body := p.head.value, p.body.value;
            var bc := Chunks(body, BodyMaxBytes);
            var r := IngestSpec(st, url, env);
            r.trace == st.trace + [Fetch(url)] + CallsAll(url, head, body, Chunks(head, HeadMaxBytes) + bc, env)
            && |bc| > 0
            && r.store == Add(st.store, url, env.embed(EmbedInput(StoredChunk(Chunks(head, HeadMaxBytes) + bc, env.onDuplicate))),
                              head, body, env.onDuplicate)
  {
    var p := ScrapeOf(url, env).value;
    var s := Scraped(st, url, env);
    assert s.trace == st.trace + [Fetch(url)] && s.store == st.store;
    IndexPageTrace(s, url, p.head.value, p.body.value, env);
    IndexPageStore(s, url, p.head.value, p.body.value, env);
  }

  // -----------------------------------------------------------------------
  // Lemmas: trainModel

  /** Ingesting a list of links marks them all visited and fetches, in list
      order, exactly those not visited before and not earlier in the list. */
  lemma {:induction false} RunIngestsVisited(st: CrawlState, links: seq<string>, env: Env)
    ensures RunIngests(st, links, env).visited == st.visited + set l | l in links
    decreases |links|
  {
    if links != [] {
      var init := links[..|links| - 1];
      RunIngestsVisited(st, init, env);
      IngestFetches(RunIngests(st, init, env), links[|links| - 1], env);
      assert links == init + [links[|links| - 1]];
    }
  }

  lemma {:induction false} RunIngestsFetches(st: CrawlState, links: seq<string>, env: Env)
    ensures Fetched(RunIngests(st, links, env).trace) == Fetched(st.trace) + FreshLinks(st.visited, links)
    decreases |links|
  {
    if links != [] {
      var init := links[..|links| - 1];
      var last := links[|links| - 1];
      RunIngestsFetches(st, init, env);
      RunIngestsVisited(st, init, env);
      var s := RunIngests(st, init, env);
      IngestFetches(s, last, env);
      assert (last in s.visited) == (last in st.visited || last in init);
      var newLinks: seq<string> := if last in s.visited then [] else [last];
      assert RunIngests(st, links, env) == IngestSpec(s, last, env);
      assert FreshLinks(st.visited, links) == FreshLinks(st.visited, init) + newLinks;
      SeqAssoc(Fetched(st.trace), FreshLinks(st.visited, init), newLinks);
    }
  }

  lemma {:induction false} RunIngestsFetchOnce(st: CrawlState, links: seq<string>, env: Env)
    requires FetchedOnce(st)
    ensures FetchedOnce(RunIngests(st, links, env))
    decreases |links|
  {
    if links != [] {
      RunIngestsFetchOnce(st, links[..|links| - 1], env);
      IngestFetchesOnce(RunIngests(st, links[..|links| - 1], env), links[|links| - 1], env);
    }
  }

  /** After `trainModel` the frontier is empty, every link of the frontier it
      started from is visited, and the URLs fetched are the frontier's
      unvisited links in frontier order; running it again changes nothing. */
  lemma TrainSpecFacts(st: CrawlState, env: Env)
    ensures TrainSpec(st, env).allLinks == []
    ensures TrainSpec(st, env).visited == st.visited + set l | l in st.allLinks
    ensures Fetched(TrainSpec(st, env).trace) == Fetched(st.trace) + FreshLinks(st.visited, st.allLinks)
    ensures FetchedOnce(st) ==> FetchedOnce(TrainSpec(st, env))
    ensures TrainSpec(TrainSpec(st, env), env) == TrainSpec(st, env)
  {
    RunIngestsVisited(st, st.allLinks, env);
    RunIngestsFetches(st, st.allLinks, env);
    if FetchedOnce(st) {
      RunIngestsFetchOnce(st, st.allLinks, env);
    }
  }

  /** With an empty frontier `trainModel` does nothing. */
  lemma TrainIdle(st: CrawlState, env: Env)
    requires st.allLinks == []
    ensures TrainSpec(st, env) == st
  {
  }

  /** With a duplicate-free frontier none of whose links is visited yet,
      `trainModel` fetches the whole frontier, once each, in order. */
  lemma {:induction false} FreshLinksAll(visited: set<string>, links: seq<string>)
    requires NoDup(links) && forall j :: 0 <= j < |links| ==> links[j] !in visited
    ensures FreshLinks(visited, links) == links
    decreases |links|
  {
    if links != [] {
      var init := links[..|links| - 1];
      assert NoDup(init);
      FreshLinksAll(visited, init);
      assert links[|links| - 1] !in init;
      assert links == init + [links[|links| - 1]];
    }
  }

  // -----------------------------------------------------------------------
  // The script's state and functions

  class Crawler {
    /** `visitedUrls`. */
    var visited: set<string>
    /** `allLinks`, the frontier. */
    var allLinks: seq<string>
    /** The vector-store collection. */
    var store: Store
    /** The external calls made so far. */
    ghost var trace: seq<Event>

    ghost function State(): CrawlState
      reads this
    {
      CrawlState(visited, allLinks, store, trace)
    }

    ghost predicate Valid()
      reads this
    {
      FetchedOnce(State())
    }

    /** A new session over a collection that may already hold records. */
    constructor (store: Store)
      ensures Valid() && State() == CrawlState({}, [], store, [])
    {
      visited := {};
      allLinks := [];
      this.store := store;
      trace := [];
    }

    /** `webScrappingOfSite(url)`: fetch and parse, collect the links, and
        on success overwrite the frontier with them; on any error the result
        has null head and body and no links, and the frontier is kept. */
    method ScrapeSite(url: string, env: Env) returns (page: Page)
      modifies this`allLinks, this`trace
      ensures trace == old(trace) + [Fetch(url)]
      ensures page == (if ScrapeOf(url, env).Some? then ScrapeOf(url, env).value else Page(None, None, []))
      ensures allLinks == (if ScrapeOf(url, env).Some? then ScrapeOf(url, env).value.links else old(allLinks))
    {
      trace := trace + [Fetch(url)];
      var data := env.fetch(url);
      if data.None? {
        return Page(None, None, []);
      }
      var pageLinks := CollectLinks(data.value.hrefs, url, env.resolve);
      if pageLinks.None? {
        return Page(None, None, []);
      }
      allLinks := pageLinks.value;
      return Page(data.value.head, data.value.body, pageLinks.value);
    }

    /** `generateVectorEmbeddings`: embed the first 9500 characters. */
    method GenerateEmbedding(text: string, env: Env) returns (embedding: Vector)
      modifies this`trace
      ensures embedding == env.embed(EmbedInput(text))
      ensures trace == old(trace) + [Embed(EmbedInput(text))]
    {
      var truncatedText := EmbedInput(text);
      trace := trace + [Embed(truncatedText)];
      embedding := env.embed(truncatedText);
    }

    /** `insertIntoDB`: add the record under `id = url`. */
    method InsertIntoDB(embedding: Vector, url: string, head: string, body: string, env: Env)
      modifies this`store, this`trace
      ensures store == Add(old(store), url, embedding, head, body, env.onDuplicate)
      ensures trace == old(trace) + [Insert(url, Record(embedding, Meta(url, head, body)))]
    {
      store := Add(store, url, embedding, head, body, env.onDuplicate);
      trace := trace + [Insert(url, Record(embedding, Meta(url, head, body)))];
    }

    /** One of the two `for (let chunk of ...)` loops of `ingest`. */
    method IndexChunks(url: string, head: string, body: string, chunks: seq<string>, env: Env)
      modifies this`store, this`trace
      ensures State() == IndexAll(old(State()), url, head, body, chunks, env)
    {
      for i := 0 to |chunks|
        invariant State() == IndexAll(old(State()), url, head, body, chunks[..i], env)
      {
        var embedding := GenerateEmbedding(chunks[i], env);
        InsertIntoDB(embedding, url, head, body, env);
        assert chunks[..i + 1][..i] == chunks[..i];
      }
      assert chunks[..|chunks|] == chunks;
    }

    /** `ingest(url)`. */
    method Ingest(url: string, env: Env)
      requires Valid()
      modifies this
      ensures Valid()
      ensures State() == IngestSpec(old(State()), url, env)
    {
      IngestFetchesOnce(State(), url, env);
      if url in visited {
        return;
      }
      visited := visited + {url};
      var page := ScrapeSite(url, env);
      assert State() == Scraped(old(State()), url, env);
      if !Present(page.body) || !Present(page.head) {
        return;
      }
      var head, body := page.head.value, page.body.value;
      var headChunks := ChunkText(head, HeadMaxBytes);
      var bodyChunks := ChunkText(body, BodyMaxBytes);
      IndexChunks(url, head, body, headChunks, env);
      IndexChunks(url, head, body, bodyChunks, env);
      assert State() == IndexPage(Scraped(old(State()), url, env), url, head, body, env);
    }

    /** `trainModel()`: ingest the frontier as it stood when the loop began
        (ingesting reassigns `allLinks`, not the array being iterated), then
        clear it. */
    method TrainModel(env: Env)
      requires Valid()
      modifies this
      ensures Valid()
      ensures State() == TrainSpec(old(State()), env)
    {
      var links := allLinks;
      for i := 0 to |links|
        invariant Valid()
        invariant State() == RunIngests(old(State()), links[..i], env)
      {
        Ingest(links[i], env);
        assert links[..i + 1][..i] == links[..i];
      }
      assert links[..|links|] == links;
      allLinks := [];
    }

    /** `startChat()`: train, then answer prompts until the exit sentinel. */
    method StartChat(prompts: seq<string>, env: Env) returns (turns: seq<Turn>)
      requires Valid()
      modifies this
      ensures Valid()
      ensures State() == TrainSpec(old(State()), env)
      ensures turns == Conversation(prompts, store, env)
    {
      TrainModel(env);
      TrainSpecFacts(old(State()), env);
      turns := Converse(prompts, env);
    }

    /** The prompt loop of `startChat`, entered with an empty frontier: each
        answered prompt re-enters `startChat`, whose `trainModel` then finds
        nothing to ingest, so the state stays as it was. */
    method Converse(prompts: seq<string>, env: Env) returns (turns: seq<Turn>)
      requires Valid() && allLinks == []
      modifies this
      ensures Valid() && State() == old(State())
      ensures turns == Conversation(prompts, store, env)
    {
      turns := [];
      var i := 0;
      while i < |prompts| && !IsExit(prompts[i])
        invariant Valid() && State() == old(State())
        invariant i <= ExitIndex(prompts)
        invariant turns == Answers(prompts, i, store, env)
      {
        var turn := Chat(prompts[i], store, env);
        turns := turns + [turn];
        TrainIdle(State(), env);
        TrainModel(env);
        ExitIndexStep(prompts, i);
        i := i + 1;
      }
      ExitIndexAt(prompts, i);
    }
  }

  /** The compiled script as it runs: the module state starts with no visited
      URL and an empty frontier, and the only top-level call is `startChat()`.
      Its `trainModel` therefore ingests nothing, no page is ever fetched, and
      every answer is drawn from the collection as it already was. */
  method RunScript(store: Store, prompts: seq<string>, env: Env)
    returns (turns: seq<Turn>, visited: set<string>, links: seq<string>, stored: Store)
    ensures visited == {} && links == [] && stored == store
    ensures turns == Conversation(prompts, store, env)
  {
    var crawler := new Crawler(store);
    turns := crawler.StartChat(prompts, env);
    TrainIdle(CrawlState({}, [], store, []), env);
    visited, links, stored := crawler.visited, crawler.allLinks, crawler.store;
  }
}
