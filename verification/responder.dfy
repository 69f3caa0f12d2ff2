/** Retrieval context assembly in `chat`: the question is embedded (after
    truncation), the collection is queried for `TopK` records, and the url,
    head and body of each returned record are collected into three lists from
    which blank entries are dropped. The chat completion that consumes the
    context is a foreign call and is not modelled; the turn records what is
    sent to it and the source URL that is printed beside the answer. */
module Responder {
  import opened Wrappers
  import opened Text
  import opened Records

  /** `e.trim() === ""`. */
  predicate Blank(s: string)
  {
    Trim(s) == ""
  }

  /** `.filter((e) => e.trim() !== "" && !!e)`: for strings the second
      conjunct adds nothing, so the filter keeps the non-blank entries. */
  function NonBlank(xs: seq<string>): seq<string>
    decreases |xs|
  {
    if xs == [] then []
    else (if Blank(xs[0]) then [] else [xs[0]]) + NonBlank(xs[1..])
  }

  /** The three context lists handed to the completion prompt. */
  datatype Context = Context(urls: seq<string>, heads: seq<string>, bodies: seq<string>)

  /** `.map((e) => e.url)` and its `head` and `body` counterparts. */
  function Urls(ms: seq<Meta>): seq<string>
  {
    seq(|ms|, i requires 0 <= i < |ms| => ms[i].url)
  }

  function Heads(ms: seq<Meta>): seq<string>
  {
    seq(|ms|, i requires 0 <= i < |ms| => ms[i].head)
  }

  function Bodies(ms: seq<Meta>): seq<string>
  {
    seq(|ms|, i requires 0 <= i < |ms| => ms[i].body)
  }

  /** The three filtered lists built from the returned metadata. */
  function Assemble(ms: seq<Meta>): Context
  {
    Context(NonBlank(Urls(ms)), NonBlank(Heads(ms)), NonBlank(Bodies(ms)))
  }

  /** One answered prompt: the question, the context sent with it, and the
      URL printed as the source (`url[0]`, undefined when the list is empty). */
  datatype Turn = Turn(question: string, context: Context, source: Option<string>)

  /** `chat(question)` up to the completion call. */
  function Chat(question: string, store: Store, env: Env): Turn
  {
    var questionEmbedding := env.embed(EmbedInput(question));
    var context := Assemble(env.query(store, questionEmbedding, TopK));
    Turn(question, context, if |context.urls| > 0 then Some(context.urls[0]) else None)
  }

  // -----------------------------------------------------------------------
  // Properties

  /** The filter keeps exactly the non-blank entries and never adds any. */
  lemma {:induction false} NonBlankSpec(xs: seq<string>)
    ensures |NonBlank(xs)| <= |xs|
    ensures forall j :: 0 <= j < |NonBlank(xs)| ==> !Blank(NonBlank(xs)[j])
    ensures forall x :: x in NonBlank(xs) <==> x in xs && !Blank(x)
    decreases |xs|
  {
    if xs != [] {
      NonBlankSpec(xs[1..]);
      assert xs == [xs[0]] + xs[1..];
    }
  }

  /** The filter keeps the original order: it distributes over
      concatenation. */
  lemma {:induction false} NonBlankAppend(a: seq<string>, b: seq<string>)
    ensures NonBlank(a + b) == NonBlank(a) + NonBlank(b)
    decreases |a|
  {
    if a != [] {
      assert (a + b)[1..] == a[1..] + b;
      NonBlankAppend(a[1..], b);
    } else {
      assert a + b == b;
    }
  }

  /** The first kept entry is the first non-blank entry of the input. */
  lemma {:induction false} NonBlankFirst(xs: seq<string>)
    requires NonBlank(xs) != []
    ensures exists i :: 0 <= i < |xs| && xs[i] == NonBlank(xs)[0] && !Blank(xs[i])
              && forall j :: 0 <= j < i ==> Blank(xs[j])
    decreases |xs|
  {
    if Blank(xs[0]) {
      NonBlankFirst(xs[1..]);
      var i :| 0 <= i < |xs[1..]| && xs[1..][i] == NonBlank(xs[1..])[0] && !Blank(xs[1..][i])
               && forall j :: 0 <= j < i ==> Blank(xs[1..][j]);
      assert xs[i + 1] == NonBlank(xs)[0];
      forall j | 0 <= j < i + 1
        ensures Blank(xs[j])
      {
        if j > 0 {
          assert xs[j] == xs[1..][j - 1];
        }
      }
    }
  }

  /** Each context list holds only non-blank strings, in their original
      order, and is no longer than the list of returned records. */
  lemma AssembleSpec(ms: seq<Meta>)
    ensures var c := Assemble(ms);
            |c.urls| <= |ms| && |c.heads| <= |ms| && |c.bodies| <= |ms|
            && (forall j :: 0 <= j < |c.urls| ==> !Blank(c.urls[j]))
            && (forall j :: 0 <= j < |c.heads| ==> !Blank(c.heads[j]))
            && (forall j :: 0 <= j < |c.bodies| ==> !Blank(c.bodies[j]))
  {
    NonBlankSpec(Urls(ms));
    NonBlankSpec(Heads(ms));
    NonBlankSpec(Bodies(ms));
  }

  /** The printed source is the url of the first returned record whose url
      is not blank, and is absent only when every url is blank. */
  lemma SourceSpec(question: string, store: Store, env: Env)
    ensures var ms := env.query(store, env.embed(EmbedInput(question)), TopK);
            var t := Chat(question, store, env);
            (t.source.None? <==> forall i :: 0 <= i < |ms| ==> Blank(ms[i].url))
            && (t.source.Some? ==>
                  exists i :: 0 <= i < |ms| && ms[i].url == t.source.value && !Blank(ms[i].url)
                    && forall j :: 0 <= j < i ==> Blank(ms[j].url))
  {
    var ms := env.query(store, env.embed(EmbedInput(question)), TopK);
    var urls := Urls(ms);
    assert forall i :: 0 <= i < |ms| ==> urls[i] == ms[i].url;
    if NonBlank(urls) != [] {
      NonBlankFirst(urls);
    } else {
      NonBlankSpec(urls);
      forall i | 0 <= i < |ms|
        ensures Blank(ms[i].url)
      {
        assert urls[i] in urls;
      }
    }
  }

  /** With the store returning at most `nResults` records, each context list
      has at most `TopK` entries. */
  lemma ContextBound(question: string, store: Store, env: Env)
    requires |env.query(store, env.embed(EmbedInput(question)), TopK)| <= TopK
    ensures var c := Chat(question, store, env).context;
            |c.urls| <= TopK && |c.heads| <= TopK && |c.bodies| <= TopK
  {
    AssembleSpec(env.query(store, env.embed(EmbedInput(question)), TopK));
  }

  /** An empty retrieval degrades to empty context lists and no source; the
      turn still happens. */
  lemma EmptyRetrieval(question: string, store: Store, env: Env)
    requires env.query(store, env.embed(EmbedInput(question)), TopK) == []
    ensures Chat(question, store, env) == Turn(question, Context([], [], []), None)
  {
  }
}
