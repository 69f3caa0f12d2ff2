/** The values that cross the crawler's external boundaries: scraped
    documents, embedding vectors, vector-store records, and the oracles that
    stand for the HTTP/HTML libraries, the embedding model and the vector
    database. Also the script's constants, and the two thin adapters whose
    logic is local: embedding-input truncation and `insertIntoDB` keying. */
module Records {
  import opened Wrappers
  import Links

  /** An embedding, kept opaque: only identity matters to the model. */
  type Vector = seq<real>

  /** The metadata attached to every stored record: the whole page. */
  datatype Meta = Meta(url: string, head: string, body: string)

  datatype Record = Record(embedding: Vector, meta: Meta)

  /** The vector-store collection, keyed by record id. */
  type Store = map<string, Record>

  /** What the HTTP fetch and the HTML parse yield for a page: the serialized
      `<head>` and `<body>` (`None` when the element is missing) and the `href`
      attribute of every anchor, in document order (`None` when absent). */
  datatype Document = Document(head: Option<string>, body: Option<string>, hrefs: seq<Option<string>>)

  /** What the collection's `add` does with an id it already holds. The
      script passes the same id for every chunk of a page and does not choose
      the outcome: the vector store either ignores the new record or
      overwrites the old one. */
  datatype OnDuplicate = KeepFirst | Overwrite

  /** The external collaborators. `fetch` returns `None` when the request or
      the parse throws; `resolve` is `new URL(href, base).href`; `embed` is the
      embedding model; `query` is the collection's nearest-neighbour query,
      returning the metadata of at most `n` records; `onDuplicate` is the
      collection's policy for an `add` under an existing id. */
  datatype Env = Env(
    fetch: string -> Option<Document>,
    resolve: Links.Resolver,
    embed: string -> Vector,
    query: (Store, Vector, nat) -> seq<Meta>,
    onDuplicate: OnDuplicate)

  /** Characters kept by `text.substring(0, 9500)` before embedding. */
  const EmbedMaxChars: nat := 9500
  /** Byte bound for chunks of the page head. */
  const HeadMaxBytes: nat := 100
  /** Byte bound for chunks of the page body. */
  const BodyMaxBytes: nat := 500
  /** `nResults` of the retrieval query. */
  const TopK: nat := 3

  /** The text actually sent to the embedding model. */
  function EmbedInput(text: string): (r: string)
    ensures |r| == (if |text| <= EmbedMaxChars then |text| else EmbedMaxChars)
    ensures r == text[..|r|]
  {
    if |text| <= EmbedMaxChars then text else text[..EmbedMaxChars]
  }

  /** `insertIntoDB`: the record is added under `id = url`. A new id gets the
      record; an existing id keeps its record or gets the new one, as the
      collection's policy says; every other record is left as it was. */
  function Add(store: Store, url: string, embedding: Vector, head: string, body: string, dup: OnDuplicate): (r: Store)
    ensures r.Keys == store.Keys + {url}
    ensures url !in store || dup == Overwrite ==> r[url] == Record(embedding, Meta(url, head, body))
    ensures url in store && dup == KeepFirst ==> r[url] == store[url]
    ensures forall id :: id in store && id != url ==> r[id] == store[id]
  {
    if url in store && dup == KeepFirst then store
    else store[url := Record(embedding, Meta(url, head, body))]
  }

  /** Two inserts under the same id leave what one insert of the surviving
      embedding leaves: the second under `Overwrite`, the first under
      `KeepFirst`. */
  lemma AddAgain(store: Store, url: string, e0: Vector, e: Vector, head: string, body: string, dup: OnDuplicate)
    ensures Add(Add(store, url, e0, head, body, dup), url, e, head, body, dup)
              == Add(store, url, if dup == Overwrite then e else e0, head, body, dup)
  {
  }
}
