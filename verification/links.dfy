/** Link collection inside `webScrappingOfSite`: every anchor's `href` is
    filtered (absent, empty and `"/"` are skipped), resolved against the page
    URL, kept only when the result is an `http://` or `https://` URL, and added
    to an insertion-ordered `Set`. URL resolution (`new URL(href, base).href`)
    is a parameter: `None` stands for the constructor throwing, which aborts
    the whole scrape. */
module Links {
  import opened Wrappers

  /** The WHATWG URL parser, left abstract: the absolute URL, or `None` if the
      constructor throws. */
  type Resolver = (string, string) -> Option<string>

  /** The anchor filter `if (!href || href == "/") return;`, negated. */
  predicate Kept(href: Option<string>)
  {
    href.Some? && href.value != "" && href.value != "/"
  }

  /** `u.startsWith("http://") || u.startsWith("https://")`. */
  predicate IsWebUrl(u: string)
  {
    "http://" <= u || "https://" <= u
  }

  predicate NoDup<T(==)>(s: seq<T>)
  {
    forall i, j :: 0 <= i < j < |s| ==> s[i] != s[j]
  }

  /** The resolved web URLs of the first `k` anchors, in anchor order with
      repetitions, or `None` once resolving a kept href threw. */
  function Resolved(hrefs: seq<Option<string>>, k: nat, base: string, resolve: Resolver): Option<seq<string>>
    requires k <= |hrefs|
    decreases k
  {
    if k == 0 then Some([])
    else
      match Resolved(hrefs, k - 1, base, resolve)
      case None => None
      case Some(c) =>
        var h := hrefs[k - 1];
        if !Kept(h) then Some(c)
        else
          match resolve(h.value, base)
          case None => None
          case Some(u) => Some(if IsWebUrl(u) then c + [u] else c)
  }

  /** First occurrences of `s`, in order: what adding each element to a
      JavaScript `Set` and reading it back with `Array.from` gives. */
  function Dedupe<T(==)>(s: seq<T>): seq<T>
    decreases |s|
  {
    if s == [] then []
    else
      var d := Dedupe(s[..|s| - 1]);
      if s[|s| - 1] in d then d else d + [s[|s| - 1]]
  }

  /** The `pageLinks` array of a scrape, or `None` if it threw. */
  function PageLinks(hrefs: seq<Option<string>>, base: string, resolve: Resolver): Option<seq<string>>
  {
    match Resolved(hrefs, |hrefs|, base, resolve)
    case None => None
    case Some(c) => Some(Dedupe(c))
  }

  // -----------------------------------------------------------------------
  // Properties

  /** `Dedupe` keeps every element once and nothing else. */
  lemma {:induction false} DedupeSpec<T>(s: seq<T>)
    ensures NoDup(Dedupe(s))
    ensures forall x :: x in Dedupe(s) <==> x in s
    ensures |Dedupe(s)| <= |s|
    decreases |s|
  {
    if s != [] {
      DedupeSpec(s[..|s| - 1]);
      assert s == s[..|s| - 1] + [s[|s| - 1]];
    }
  }

  /** A list without duplicates comes back unchanged: the order of first
      occurrences is the list order. */
  lemma {:induction false} DedupeNoDup<T>(s: seq<T>)
    requires NoDup(s)
    ensures Dedupe(s) == s
    decreases |s|
  {
    if s != [] {
      var init := s[..|s| - 1];
      assert NoDup(init);
      DedupeNoDup(init);
      DedupeSpec(init);
      assert s[|s| - 1] !in init;
      assert s == init + [s[|s| - 1]];
    }
  }

  /** Once resolution throws, the whole collection has failed. */
  lemma {:induction false} ResolvedFailed(hrefs: seq<Option<string>>, j: nat, k: nat, base: string, resolve: Resolver)
    requires j <= k <= |hrefs| && Resolved(hrefs, j, base, resolve).None?
    ensures Resolved(hrefs, k, base, resolve).None?
    decreases k - j
  {
    if j < k {
      ResolvedFailed(hrefs, j + 1, k, base, resolve);
    }
  }

  /** Collection throws exactly when some kept href fails to resolve. */
  lemma {:induction false} ResolvedFailsIff(hrefs: seq<Option<string>>, k: nat, base: string, resolve: Resolver)
    requires k <= |hrefs|
    ensures Resolved(hrefs, k, base, resolve).None? <==>
              exists i :: 0 <= i < k && Kept(hrefs[i]) && resolve(hrefs[i].value, base).None?
    decreases k
  {
    if k > 0 {
      ResolvedFailsIff(hrefs, k - 1, base, resolve);
    }
  }

  /** The resolved URLs are exactly the web URLs that kept hrefs resolve to. */
  lemma {:induction false} ResolvedMembers(hrefs: seq<Option<string>>, k: nat, base: string, resolve: Resolver)
    requires k <= |hrefs| && Resolved(hrefs, k, base, resolve).Some?
    ensures forall x :: x in Resolved(hrefs, k, base, resolve).value <==>
              exists i :: 0 <= i < k && Kept(hrefs[i]) && resolve(hrefs[i].value, base) == Some(x) && IsWebUrl(x)
    decreases k
  {
    if k > 0 {
      ResolvedMembers(hrefs, k - 1, base, resolve);
    }
  }

  /** The links of a page: a scrape fails exactly when a kept href does not
      resolve; otherwise the links are pairwise distinct `http(s)` URLs, and a
      URL is among them exactly when some href other than an absent one, `""`
      or `"/"` resolves to it. */
  lemma PageLinksSpec(hrefs: seq<Option<string>>, base: string, resolve: Resolver)
    ensures PageLinks(hrefs, base, resolve).None? <==>
              exists i :: 0 <= i < |hrefs| && Kept(hrefs[i]) && resolve(hrefs[i].value, base).None?
    ensures PageLinks(hrefs, base, resolve).Some? ==>
              var links := PageLinks(hrefs, base, resolve).value;
              NoDup(links)
              && (forall j :: 0 <= j < |links| ==> IsWebUrl(links[j]))
              && forall x :: x in links <==>
                   exists i :: 0 <= i < |hrefs| && Kept(hrefs[i]) && resolve(hrefs[i].value, base) == Some(x) && IsWebUrl(x)
  {
    ResolvedFailsIff(hrefs, |hrefs|, base, resolve);
    var r := Resolved(hrefs, |hrefs|, base, resolve);
    if r.Some? {
      ResolvedMembers(hrefs, |hrefs|, base, resolve);
      DedupeSpec(r.value);
      var links := Dedupe(r.value);
      forall j | 0 <= j < |links|
        ensures IsWebUrl(links[j])
      {
        assert links[j] in r.value;
      }
    }
  }

  // -----------------------------------------------------------------------
  // The loop

  /** The `$("a").each(...)` loop adding to `pageLinks`, followed by
      `Array.from(pageLinks)`. */
  method CollectLinks(hrefs: seq<Option<string>>, base: string, resolve: Resolver) returns (pageLinks: Option<seq<string>>)
    ensures pageLinks == PageLinks(hrefs, base, resolve)
  {
    var links: seq<string> := [];
    ghost var found: seq<string> := [];
    for i := 0 to |hrefs|
      invariant Resolved(hrefs, i, base, resolve) == Some(found)
      invariant links == Dedupe(found)
    {
      var href := hrefs[i];
      if href.None? || href.value == "" || href.value == "/" {
        continue;
      }
      var resolvedUrl := resolve(href.value, base);
      if resolvedUrl.None? {
        ResolvedFailed(hrefs, i + 1, |hrefs|, base, resolve);
        return None;
      }
      if IsWebUrl(resolvedUrl.value) {
        assert (found + [resolvedUrl.value])[..|found|] == found;
        found := found + [resolvedUrl.value];
        if resolvedUrl.value !in links {
          links := links + [resolvedUrl.value];
        }
      }
    }
    return Some(links);
  }
}
