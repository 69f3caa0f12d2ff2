# web-ai-assistant crawler and retriever, modelled in Dafny

This project models the core of the `web-ai-assistant` backend script. The script
scrapes a page and its outbound links, cuts the page's head and body markup into
byte-bounded chunks, embeds each chunk and stores it in a vector collection. It then
answers prompts by embedding the question, retrieving the three nearest records and
building a context from their metadata.

The model follows the compiled script `backend/dist/index.js`. That file is
`backend/src/index.ts` plus the `allLinks` frontier and `trainModel`, and
`startChat` calls `trainModel` there. Apart from those two additions (the frontier
update in `webScrappingOfSite` and the `trainModel` call in `startChat`), the functions
the two files share do the same thing.

Modules:

- `Text` holds the string primitives the script uses:
  - JavaScript's `\s` whitespace class;
  - `split(/\s+/)`, with a first empty piece for leading whitespace and a last one for trailing whitespace;
  - `trim()`;
  - UTF-8 byte length (`TextEncoder().encode(s).length`).
- `Chunker` holds `chunkText`. `ChunkText` is the loop itself, working on `currentChunk` and `currentSize`. It is proved equal to `Chunks`, a word-level reference fold. The lemmas about `Chunks` say what the chunks are.
- `Links` holds the anchor loop of `webScrappingOfSite`:
  - the href filter;
  - resolution against the page URL;
  - the `http(s)` test;
  - the insertion-ordered `Set`.
- `Records` holds the record and store types, the constants (9500, 100, 500, `nResults` 3), the embedding-input truncation and `insertIntoDB` (`id = url`). The script does not decide what `add` does with an id the collection already holds. That choice is the collection's policy `Env.onDuplicate`: keep the first record or overwrite it.
- `Responder` covers `chat` up to the completion call. The three metadata lists are mapped and then filtered for blank entries. The printed source is the first remaining URL.
- `Session` covers the exit sentinel test and the prompt loop, seen as a sequence of prompts.
- `Crawl` holds `ingest`, the frontier, `trainModel` and `startChat`:
  - The reference functions (`IngestSpec`, `TrainSpec`) work on a `CrawlState` value.
  - The class `Crawler` keeps the same state in fields (`visited`, `allLinks`, `store`) plus a ghost trace of the calls `ingest` makes (fetches, embeddings, inserts).
  - Each method is proved to move the state exactly as the reference does.

The external services are function-valued parameters collected in `Records.Env`:
HTTP fetch plus HTML parse, URL resolution, the embedding model, the collection
query and the collection's policy for duplicate ids.

## Model

| member | source | states |
|---|---|---|
| Text.ByteLen | backend/src/index.ts:63 | UTF-8 length of a string lies between its character count and four times that count |
| Text.ByteLenAppend | backend/src/index.ts:70-71 | the byte length of a concatenation is the sum of the byte lengths |
| Text.TrimPadded | backend/src/index.ts:66 | `trim()` of a string padded with spaces gives back the string when it has no whitespace at its ends |
| Text.SplitShape | backend/src/index.ts:62 | no piece of `split(/\s+/)` holds whitespace, and only the first and last pieces can be empty |
| Text.SplitContent | backend/src/index.ts:62 | `split(/\s+/)` removes whitespace and nothing else: the pieces concatenated are the string's non-whitespace characters, in order |
| Text.ConcatNonEmpty | backend/src/index.ts:62 | dropping the empty pieces leaves the concatenation unchanged |
| Text.NonSpaceJoin | backend/src/index.ts:70 | joining words with spaces adds only whitespace: the joined string has the same non-whitespace characters as the words concatenated |
| Text.WhitespaceSplit | backend/src/index.ts:62 | a non-empty whitespace-only string splits into two empty pieces |
| Text.SplitJoin | backend/src/index.ts:62 | non-empty whitespace-free words joined by single spaces split back into exactly those words |
| Text.SplitTwoWords | backend/src/index.ts:62 | two whitespace-free words joined by a space split back into the two words |
| Text.NonEmptyMembers | backend/src/index.ts:62 | the non-empty pieces are exactly the pieces that are not `""` |
| Text.JoinSpaceByteLen | backend/src/index.ts:70 | a chunk of `n` words is `n - 1` bytes longer than its words' bytes added |
| Chunker.ChunkText | backend/src/index.ts:55-77 | the loop returns `Chunks(text, maxBytes)`: `[]` for `""`; otherwise the reference fold's word lists joined by single spaces |
| Chunker.ScanTracks | backend/src/index.ts:58-73 | after every prefix of the pieces the loop's strings match the word-level fold: emitted chunks are the flushed word lists joined, `currentChunk` is the running words joined and padded with spaces, and `currentSize` is their summed bytes |
| Chunker.ScanChunks | backend/src/index.ts:74-76 | pushing the trimmed running chunk when it is non-empty completes the chunks of the text |
| Chunker.ChunkWordsPreserved | backend/src/index.ts:62-73 | no word is cut, dropped, added or reordered: the chunks' words concatenated are the non-empty split pieces, and each chunk is its words joined by one space |
| Chunker.ChunkBound | backend/src/index.ts:63-72 | each chunk's words add up to at most `maxBytes` bytes, unless the chunk is one word that alone exceeds it; words are non-empty and space-free; the chunk's byte length adds one byte per separator |
| Chunker.ChunkCount | backend/src/index.ts:56 | a text yields no chunk exactly when it is empty |
| Chunker.OnlyFirstChunkEmpty | backend/src/index.ts:65-68 | only the first chunk can be the empty string |
| Chunker.FirstChunkEmpty | backend/src/index.ts:59-68 | the first chunk is empty exactly when the text has no word or its first word alone exceeds `maxBytes` |
| Chunker.WhitespaceOnlyText | backend/src/index.ts:56-74 | a whitespace-only text gives one empty chunk, not none |
| Chunker.SpaceNotCounted | backend/src/index.ts:65-71 | two words whose sizes add up to at most `maxBytes` share one chunk, which is one byte longer than that sum |
| Chunker.ChunkSplit | backend/src/index.ts:62-73 | no word is cut: every chunk holding a word splits back into exactly its group of words |
| Chunker.ChunkContent | backend/src/index.ts:55-77 | chunking loses and adds no non-whitespace character and keeps their order: the chunks' words concatenated, and the chunks' own non-whitespace characters, are those of the text |
| Chunker.ChunkGreedy | backend/src/index.ts:65-68 | the chunking is greedy: every chunk after the first is non-empty and starts with a word that would have pushed the chunk before it past `maxBytes` |
| Chunker.FoldGreedy | backend/src/index.ts:62-73 | after every prefix of the pieces, each flushed word list and the running list start with a word that did not fit into the list before |
| Chunker.FoldWords | backend/src/index.ts:62-73 | after `k` pieces the flushed and running word lists hold exactly the non-empty pieces so far, in order |
| Chunker.FoldFits | backend/src/index.ts:65-72 | every word list the fold builds satisfies the chunk bound |
| Links.CollectLinks | backend/src/index.ts:35-48 | the anchor loop returns `PageLinks`; it returns `None` as soon as a kept href fails to resolve (the scrape throws) |
| Links.PageLinksSpec | backend/src/index.ts:37-48 | collection fails exactly when a kept href does not resolve; otherwise the links are distinct `http(s)` URLs, and a URL is among them exactly when a non-empty href other than `"/"` resolves to it |
| Links.DedupeSpec | backend/src/index.ts:44-48 | the `Set` round trip keeps every element exactly once and adds nothing |
| Links.DedupeNoDup | backend/src/index.ts:44-48 | a duplicate-free list comes back unchanged, so first-insertion order is kept |
| Links.ResolvedFailsIff | backend/src/index.ts:39-41 | resolution fails exactly when some kept href has no absolute URL |
| Links.ResolvedMembers | backend/src/index.ts:38-45 | the collected URLs are exactly the web URLs that kept hrefs resolve to |
| Links.ResolvedFailed | backend/src/index.ts:41 | once a resolution has thrown, the whole collection has failed |
| Records.EmbedInput | backend/src/index.ts:80-81 | the embedded text is the prefix of the chunk of length `min(|chunk|, 9500)` |
| Records.Add | backend/src/index.ts:86-96 | after an insert the id `url` is present; a new id gets the record with the whole-page metadata; an existing id keeps its record under `KeepFirst` and gets the new one under `Overwrite`; other ids are untouched |
| Records.AddAgain | backend/src/index.ts:91-95 | two inserts under the same id leave what one insert of the surviving embedding leaves: the second under `Overwrite`, the first under `KeepFirst` |
| Responder.NonBlankSpec | backend/src/index.ts:136-140 | the filter keeps exactly the entries whose `trim()` is non-empty, and is never longer than its input |
| Responder.NonBlankAppend | backend/src/index.ts:136-140 | the filter keeps the original order: it distributes over concatenation |
| Responder.NonBlankFirst | backend/src/index.ts:140 | the first kept entry is the first non-blank entry of the input |
| Responder.AssembleSpec | backend/src/index.ts:136-140 | each context list holds only non-blank strings and is no longer than the list of returned records |
| Responder.SourceSpec | backend/src/index.ts:140-166 | the printed source `url[0]` is the url of the first returned record whose url is non-blank, and is absent exactly when every url is blank |
| Responder.ContextBound | backend/src/index.ts:131-140 | with the query returning at most `nResults` records, each context list has at most 3 entries |
| Responder.EmptyRetrieval | backend/src/index.ts:131-140 | an empty retrieval gives empty context lists and no source, and the turn still takes place |
| Session.ExitSentinel | backend/src/index.ts:173 | a prompt ends the session exactly when it is `exit` in any mix of letter cases, with nothing else in it |
| Session.ExitIndexSpec | backend/src/index.ts:171-179 | no prompt before the stopping point is the sentinel; the prompt at the stopping point, when there is one, is the sentinel |
| Crawl.CallsAllShape | backend/dist/index.js:143-152 | a chunk loop makes exactly two calls per chunk, in chunk order: embed the truncated chunk, then insert under `id = url` with that embedding and the whole-page metadata; it fetches nothing |
| Crawl.IndexAllFrame | backend/dist/index.js:143-152 | a chunk loop changes neither the visited set nor the frontier |
| Crawl.IndexAllTrace | backend/dist/index.js:143-152 | a chunk loop appends its calls to the calls already made |
| Crawl.IndexAllStore | backend/dist/index.js:143-152 | a non-empty chunk loop leaves the store as one insert of the surviving chunk's embedding would: the last chunk's under `Overwrite`, the first chunk's under `KeepFirst` |
| Crawl.IndexPageTrace | backend/dist/index.js:141-152 | indexing a page makes the calls of the head's chunks (bound 100), then those of the body's chunks (bound 500) |
| Crawl.IndexPageStore | backend/dist/index.js:141-152 | indexing a page with a body leaves the store as one insert of the surviving chunk of the head's and body's chunks: the last body chunk under `Overwrite`, the first chunk under `KeepFirst` |
| Crawl.IngestFetches | backend/dist/index.js:135-138 | `ingest` marks the URL visited and fetches it exactly when it was not visited before |
| Crawl.IngestFetchesOnce | backend/dist/index.js:135-138 | `ingest` keeps every URL fetched at most once, and only after it has been marked visited |
| Crawl.IngestIdempotent | backend/dist/index.js:135-136 | `ingest` of a visited URL changes nothing, so a second `ingest` of a URL is a no-op |
| Crawl.IngestAborts | backend/dist/index.js:138-140 | when the scrape fails or head or body is missing or empty, the page is fetched and nothing is embedded or stored |
| Crawl.IngestFrontier | backend/dist/index.js:82-87 | after `ingest` of a new URL, the frontier is exactly that page's links (distinct `http(s)` URLs) when the scrape succeeded, and is unchanged when it threw |
| Crawl.IngestIndexes | backend/dist/index.js:133-154 | a page with head and body is fetched, then indexed chunk by chunk, head before body; the store then is as after one insert, under the URL, of the surviving chunk's embedding (last body chunk under `Overwrite`, first chunk under `KeepFirst`) |
| Crawl.RunIngestsVisited | backend/dist/index.js:198-201 | ingesting a list of links marks every link visited |
| Crawl.RunIngestsFetches | backend/dist/index.js:198-201 | ingesting a list of links fetches, in list order, exactly the links not visited before and not earlier in the list |
| Crawl.RunIngestsFetchOnce | backend/dist/index.js:198-201 | ingesting a list of links keeps every URL fetched at most once |
| Crawl.TrainSpecFacts | backend/dist/index.js:196-204 | `trainModel` empties the frontier and marks every link of the starting frontier visited; it fetches the unvisited links in frontier order and keeps fetches unique; a second run changes nothing |
| Crawl.TrainIdle | backend/dist/index.js:196-204 | with an empty frontier `trainModel` changes nothing |
| Crawl.FreshLinksAll | backend/dist/index.js:198-201 | a duplicate-free frontier with no visited link is fetched whole, once each, in order |
| Crawl.Crawler.constructor | backend/dist/index.js:62-64 | a session starts with no visited URL, an empty frontier and no call made, over any existing collection |
| Crawl.Crawler.ScrapeSite | backend/dist/index.js:65-90 | one fetch; the result is the page, or null head and body with no links on any error; the frontier is overwritten with the page's links only on success |
| Crawl.Crawler.GenerateEmbedding | backend/dist/index.js:114-120 | the embedding of the first 9500 characters, recorded as one embed call |
| Crawl.Crawler.InsertIntoDB | backend/dist/index.js:121-132 | the store becomes `Add(store, url, …)` under the collection's duplicate-id policy, recorded as one insert call |
| Crawl.Crawler.IndexChunks | backend/dist/index.js:143-152 | the loop moves the state as the reference chunk loop `IndexAll` does |
| Crawl.Crawler.Ingest | backend/dist/index.js:133-154 | the method moves the state as `IngestSpec` does, and keeps fetches unique |
| Crawl.Crawler.TrainModel | backend/dist/index.js:196-204 | ingests the frontier as it was when the loop began, then clears it (`TrainSpec`); keeps fetches unique |
| Crawl.Crawler.StartChat | backend/dist/index.js:206-220 | trains first, then answers `Conversation(prompts)`: one `chat` per prompt before the first exit sentinel, over the trained store |
| Crawl.RunScript | backend/dist/index.js:62-64 | the compiled script starts with nothing visited and an empty frontier, and its only top-level call is `startChat()` (line 221), so it fetches no page and every answer comes from the collection as it already was |
| Crawl.Crawler.Converse | backend/dist/index.js:209-217 | each re-entry of `startChat` finds an empty frontier, so the state stays as it is and the turns are the answers up to the sentinel |

## Left out

- The HTTP fetch and the HTML parse (`axios.get`, `cheerio.load`, `$("head").html()`, `attr("href")`) are the oracle `Env.fetch`. Its result is head and body markup, which may be absent, and the hrefs in document order.
- URL resolution (`new URL(href, base).href`) is the oracle `Env.resolve`. `None` stands for the constructor throwing. WHATWG URL parsing is not modelled.
- The embedding model, the collection's nearest-neighbour ranking and `getOrCreateCollection` are the oracles `Env.embed` and `Env.query`. The collection is a map from id to record.
- The chat completion is not modelled: its prompt text, the model name and the printed answer. A `Turn` records the question, the context lists sent with it and the printed source URL.
- Process I/O is not modelled. The prompt loop reads from the sequence `prompts` instead of `readline`. `rl.close`, `console.log`/`console.error`, `dotenv`, `heartbeat` and the API keys are out.
- Provider failures are not modelled. A thrown embedding, insert, query or completion error would abort `ingest` or `chat` midway; every such call succeeds in the model. Scrape failures are modelled.
- Concurrency is not modelled: promises, callbacks, and the un-awaited re-entry of `startChat` from the `readline` callback. The session is a sequential loop in which each answered prompt runs `trainModel` again.
- The unused `depth` parameter of `ingest` and the unused `pageLinks` result are not modelled.
- Records.EmbedInput: `substring(0, 9500)` counts UTF-16 code units, while the model counts characters (code points). The two differ only for text with characters outside the Basic Multilingual Plane. JavaScript strings with lone surrogates are not representable.
- Session.Lower: maps only the ASCII letters. JavaScript's `toLowerCase` applies full Unicode case mapping, which can change the length (U+0130 lower-cases to two characters). The only characters that lower-case to exactly one of `e`, `x`, `i` or `t` are the ASCII letters themselves. So `IsExit` agrees with `toLowerCase() === "exit"` on every input.
- Top-level calls: only those of the compiled script are modelled, by `Crawl.RunScript`. Its frontier starts empty (`backend/dist/index.js:64`) and its only top-level call is `startChat()` (`backend/dist/index.js:221`). So `trainModel` has nothing to ingest, and the script never crawls. The top level of `backend/src/index.ts` (`ingest("https://console.groq.com")`, then `startChat()`) is left to the caller, through `Crawler.Ingest` and `Crawler.StartChat`. The `Crawler` methods can be called in any order, from any store, so the crawl lemmas do not depend on the top level.
- A failing `add` is not modelled. Some collections reject an existing id with an error instead of ignoring it; that would abort `ingest`, like the provider failures above.
- Responder.ContextBound: assumes that the collection returns at most `nResults` records. That is the vector store's promise, not the script's.

Behaviour of the code that the model keeps as written:

- Whitespace-only text yields one empty chunk, not none (`Chunker.WhitespaceOnlyText`).
- The chunk bound counts the words' bytes only. A chunk string is one byte longer than that for each joining space (`Chunker.SpaceNotCounted`, `Chunker.ChunkBound`).
- The first chunk is `""` when the first word alone exceeds the bound, because the loop flushes its empty starting chunk. That empty chunk is still embedded and inserted (`Chunker.FirstChunkEmpty`).
- Blank metadata entries are filtered list by list, not record by record. The three context lists need not line up (`Responder.AssembleSpec`).
- Links are not classified as internal or external. Every `http(s)` link is kept.
- The frontier is overwritten by every successful scrape, not filled once from the seed. `trainModel` walks the frontier as it was when it started and then clears it, so links discovered while training are dropped (`Crawl.TrainSpecFacts`).
- Oversized chunks are truncated to 9500 characters before embedding, never rejected.
- Every chunk of a page is inserted under `id = url`, so at most one record per page survives. Under `KeepFirst` the record already stored under the URL survives; if there is none, the first chunk's does. Under `Overwrite` the last body chunk's survives (`Crawl.IngestIndexes`).
