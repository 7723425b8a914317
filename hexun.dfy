/** The Hexun futures headline scraper (utils/futurenews_hexun_utils.py):
    the charset rule applied after the page is fetched, the extraction of
    (title, url) items from the page's anchors with first-seen
    de-duplication, and the headline query.

    The parsed page is given as its anchors in document order, each tagged
    with what the CSS selection needs to know about it; `urljoin` is a
    parameter. */
module Hexun {
  import opened Wrappers
  import opened Sequences
  import opened Text

  /** The page that `hexun_news` scrapes; also the base URL of its links. */
  const HexunUrl := "https://futures.hexun.com/integratednews/index.html"

  /** The charset used when the detected one is not a Unicode transform. */
  const FallbackEncoding := "gb18030"

  /** How `fetch_html` sets `r.encoding` from `r.apparent_encoding`
      (`None` when detection found nothing). */
  function ChooseEncoding(apparent: Option<string>): (enc: string)
    ensures enc == FallbackEncoding || Contains(Lower(enc), "utf")
    ensures apparent.Some? && Contains(Lower(apparent.value), "utf") ==> enc == apparent.value
    ensures apparent.None? || !Contains(Lower(apparent.value), "utf") ==> enc == FallbackEncoding
  {
    var declared := if apparent.Some? && apparent.value != "" then apparent.value else FallbackEncoding;
    if declared == "" || !Contains(Lower(declared), "utf") then FallbackEncoding else declared
  }

  /** One `<a>` element of the parsed page.
      texts: its descendant text nodes, in order;
      href: its `href` attribute, if it has one;
      inListItem: it lies under an `<li>`;
      inContainer: it lies inside the first `<div class="temp01">`. */
  datatype Anchor = Anchor(texts: seq<string>, href: Option<string>, inListItem: bool, inContainer: bool)

  /** The parsed page: its anchors in document order, and whether it has a
      `<div class="temp01">` at all. */
  datatype Document = Document(anchors: seq<Anchor>, hasContainer: bool)

  /** One extracted headline; the pair is also the de-duplication key. */
  datatype Item = Item(title: string, url: string)

  /** The anchor is matched by `li a[href]`, searched inside the container
      when the page has one and in the whole page otherwise. */
  predicate Selected(doc: Document, a: Anchor)
  {
    a.href.Some? && a.inListItem && (doc.hasContainer ==> a.inContainer)
  }

  /** The anchors `extract_items` walks, in document order. */
  function Candidates(doc: Document): seq<Anchor>
  {
    Filter(a => Selected(doc, a), doc.anchors)
  }

  /** `a.get_text(strip=True)`: every text node stripped, then joined with
      the empty separator. */
  function GetText(texts: seq<string>): string
  {
    ConcatMap(Strip, texts)
  }

  /** The joined text is empty exactly when every text node strips to
      nothing. */
  lemma GetTextEmpty(texts: seq<string>)
    ensures GetText(texts) == [] <==> forall i :: 0 <= i < |texts| ==> Strip(texts[i]) == []
  {
    ConcatMapEmpty(Strip, texts);
  }

  function Title(a: Anchor): string
  {
    GetText(a.texts)
  }

  /** `a.get("href", "").strip()` */
  function CleanHref(a: Anchor): string
  {
    Strip(if a.href.Some? then a.href.value else "")
  }

  /** The cleaned href is empty exactly when the anchor has no href or a
      blank one, and otherwise it is the href without its surrounding white
      space. */
  lemma CleanHrefSpec(a: Anchor)
    ensures CleanHref(a) == [] <==> a.href.None? || IsBlank(a.href.value)
    ensures a.href.Some? ==>
              exists i, j :: 0 <= i <= j <= |a.href.value|
                && CleanHref(a) == a.href.value[i..j] && Trimmed(a.href.value, i, j)
  {
  }

  /** The anchor survives the skip test: it has a title and an href, and the
      href is not a `javascript` link in any letter case. */
  predicate Accepts(a: Anchor)
  {
    Title(a) != "" && CleanHref(a) != "" && !StartsWith(Lower(CleanHref(a)), "javascript")
  }

  /** The item an accepted anchor yields. */
  function ItemOf(baseUrl: string, urljoin: (string, string) -> string, a: Anchor): Item
  {
    Item(Title(a), urljoin(baseUrl, CleanHref(a)))
  }

  /** The items of the accepted anchors, repeats included. */
  function Usable(baseUrl: string, urljoin: (string, string) -> string, anchors: seq<Anchor>): seq<Item>
  {
    Map(a => ItemOf(baseUrl, urljoin, a), Filter(Accepts, anchors))
  }

  /** Keeps the first occurrence of every item and drops its repeats. The
      result holds the same items as the input, each once. */
  function Dedup(xs: seq<Item>): (r: seq<Item>)
    ensures forall x :: x in r <==> x in xs
    ensures Unique(r)
    ensures |r| <= |xs|
    decreases |xs|
  {
    if xs == [] then []
    else
      var kept := Dedup(xs[..|xs| - 1]);
      var x := xs[|xs| - 1];
      if x in kept then kept else kept + [x]
  }

  /** What `extract_items(html, base_url)` returns. */
  function Extracted(doc: Document, baseUrl: string, urljoin: (string, string) -> string): seq<Item>
  {
    Dedup(Usable(baseUrl, urljoin, Candidates(doc)))
  }

  lemma DedupSnoc(xs: seq<Item>, x: Item)
    ensures Dedup(xs + [x]) == if x in Dedup(xs) then Dedup(xs) else Dedup(xs) + [x]
  {
    assert (xs + [x])[..|xs|] == xs;
  }

  lemma UsableSnoc(baseUrl: string, urljoin: (string, string) -> string, s: seq<Anchor>, a: Anchor)
    ensures Usable(baseUrl, urljoin, s + [a])
         == Usable(baseUrl, urljoin, s) + if Accepts(a) then [ItemOf(baseUrl, urljoin, a)] else []
  {
    FilterSnoc(Accepts, s, a);
    MapSnoc(x => ItemOf(baseUrl, urljoin, x), Filter(Accepts, s), a);
  }

  /** One step of the walk: the result for one more anchor. */
  lemma ExtractStep(baseUrl: string, urljoin: (string, string) -> string, anchors: seq<Anchor>, i: nat)
    requires i < |anchors|
    ensures var before := Dedup(Usable(baseUrl, urljoin, anchors[..i]));
            var it := ItemOf(baseUrl, urljoin, anchors[i]);
            Dedup(Usable(baseUrl, urljoin, anchors[..i + 1]))
              == if Accepts(anchors[i]) && it !in before then before + [it] else before
  {
    assert anchors[..i + 1] == anchors[..i] + [anchors[i]];
    UsableSnoc(baseUrl, urljoin, anchors[..i], anchors[i]);
    DedupSnoc(Usable(baseUrl, urljoin, anchors[..i]), ItemOf(baseUrl, urljoin, anchors[i]));
  }

  /** `extract_items`: walks the candidate anchors once, remembering the
      keys already emitted in `seen`. */
  method ExtractItems(doc: Document, baseUrl: string, urljoin: (string, string) -> string)
    returns (items: seq<Item>)
    ensures items == Extracted(doc, baseUrl, urljoin)
  {
    var anchors := Candidates(doc);
    var seen: set<Item> := {};
    items := [];
    var i := 0;
    while i < |anchors|
      invariant 0 <= i <= |anchors|
      invariant items == Dedup(Usable(baseUrl, urljoin, anchors[..i]))
      invariant forall x :: x in seen <==> x in items
    {
      var a := anchors[i];
      ExtractStep(baseUrl, urljoin, anchors, i);
      var title := Title(a);
      var href := CleanHref(a);
      if title != "" && href != "" && !StartsWith(Lower(href), "javascript") {
        var key := Item(title, urljoin(baseUrl, href));
        assert Accepts(a) && key == ItemOf(baseUrl, urljoin, a);
        if key !in seen {
          seen := seen + {key};
          items := items + [key];
        }
      }
      i := i + 1;
    }
    assert anchors[..i] == anchors;
  }

  /// Properties of the selection, de-duplication and extraction

  /** Only anchors matched by `li a[href]` are walked, all of them, in page
      order, and only the container's ones when the page has the container. */
  lemma CandidatesSpec(doc: Document)
    ensures IsSubseq(Candidates(doc), doc.anchors)
    ensures forall a :: a in Candidates(doc) <==> a in doc.anchors && Selected(doc, a)
    ensures doc.hasContainer ==> forall a :: a in Candidates(doc) ==> a.inContainer
    ensures !doc.hasContainer ==> forall a :: a in doc.anchors && a.inListItem && a.href.Some? ==> a in Candidates(doc)
    ensures forall a :: multiset(Candidates(doc))[a] == if Selected(doc, a) then multiset(doc.anchors)[a] else 0
  {
    var p := a => Selected(doc, a);
    FilterSubseq(p, doc.anchors);
    FilterComplete(p, doc.anchors);
    forall a ensures multiset(Filter(p, doc.anchors))[a] == if Selected(doc, a) then multiset(doc.anchors)[a] else 0 {
      FilterMultiplicity(p, doc.anchors, a);
    }
  }

  /** The kept items keep their relative order. */
  lemma {:induction false} DedupSubseq(xs: seq<Item>)
    ensures IsSubseq(Dedup(xs), xs)
    decreases |xs|
  {
    if xs != [] {
      var init := xs[..|xs| - 1];
      var x := xs[|xs| - 1];
      DedupSubseq(init);
      assert xs == init + [x];
      var kept := Dedup(init);
      if x in kept {
        SubseqSnoc(kept, init, x);
      } else {
        assert (kept + [x])[..|kept|] == kept;
      }
    }
  }

  /** On a repeated key the earliest copy is the one kept: the kept items
      appear in the order of their first occurrences in the input. */
  lemma {:induction false} DedupFirstSeen(xs: seq<Item>)
    ensures forall i, j :: 0 <= i < j < |Dedup(xs)| ==>
              FirstIndex(xs, Dedup(xs)[i]) < FirstIndex(xs, Dedup(xs)[j])
    decreases |xs|
  {
    if xs != [] {
      var n := |xs| - 1;
      var init := xs[..n];
      var x := xs[n];
      DedupFirstSeen(init);
      var prev := Dedup(init);
      assert xs == init + [x];
      forall y | y in prev
        ensures FirstIndex(xs, y) == FirstIndex(init, y)
      {
      }
      if x !in prev {
        assert FirstIndex(xs, x) == n;
        assert forall y :: y in prev ==> FirstIndex(init, y) < n;
      }
    }
  }

  /** A list without repeats passes through unchanged. */
  lemma {:induction false} DedupOfUnique(xs: seq<Item>)
    requires Unique(xs)
    ensures Dedup(xs) == xs
    decreases |xs|
  {
    if xs != [] {
      var init := xs[..|xs| - 1];
      DedupOfUnique(init);
      assert xs == init + [xs[|xs| - 1]];
    }
  }

  /** Running the de-duplication again on its own output changes nothing. */
  lemma DedupIdempotent(xs: seq<Item>)
    ensures Dedup(Dedup(xs)) == Dedup(xs)
  {
    DedupOfUnique(Dedup(xs));
  }

  /** The item found for one extracted item by ExtractedSound. */
  lemma ExtractedSource(doc: Document, baseUrl: string, urljoin: (string, string) -> string, it: Item)
    requires it in Usable(baseUrl, urljoin, Candidates(doc))
    ensures exists a :: a in Candidates(doc) && Accepts(a) && it == ItemOf(baseUrl, urljoin, a)
  {
    var f := a => ItemOf(baseUrl, urljoin, a);
    MapFilterSource(f, Accepts, Candidates(doc), it);
    var a :| a in Candidates(doc) && Accepts(a) && it == f(a);
    assert it == ItemOf(baseUrl, urljoin, a);
  }

  /** Every extracted item comes from a walked anchor that passed the skip
      test: its title is the anchor's non-empty stripped text, and its url
      is `urljoin(base_url, href)` of the anchor's stripped, non-empty,
      non-`javascript` href. */
  lemma ExtractedSound(doc: Document, baseUrl: string, urljoin: (string, string) -> string)
    ensures forall it :: it in Extracted(doc, baseUrl, urljoin) ==>
              exists a :: a in Candidates(doc) && Accepts(a) && it == ItemOf(baseUrl, urljoin, a)
    ensures forall it :: it in Extracted(doc, baseUrl, urljoin) ==>
              it.title != ""
              && (exists a :: a in Candidates(doc) && it.url == urljoin(baseUrl, CleanHref(a))
                    && CleanHref(a) != "" && !StartsWith(Lower(CleanHref(a)), "javascript"))
  {
    forall it | it in Extracted(doc, baseUrl, urljoin)
      ensures exists a :: a in Candidates(doc) && Accepts(a) && it == ItemOf(baseUrl, urljoin, a)
    {
      ExtractedSource(doc, baseUrl, urljoin, it);
    }
  }

  /** Every walked anchor that passes the skip test is represented. */
  lemma ExtractedComplete(doc: Document, baseUrl: string, urljoin: (string, string) -> string)
    ensures forall a :: a in Candidates(doc) && Accepts(a) ==> ItemOf(baseUrl, urljoin, a) in Extracted(doc, baseUrl, urljoin)
  {
    var f := x => ItemOf(baseUrl, urljoin, x);
    forall a | a in Candidates(doc) && Accepts(a)
      ensures ItemOf(baseUrl, urljoin, a) in Extracted(doc, baseUrl, urljoin)
    {
      MapFilterImage(f, Accepts, Candidates(doc), a);
      assert f(a) in Usable(baseUrl, urljoin, Candidates(doc));
    }
  }

  /** The extracted items are unique, at most as many as the walked anchors,
      and ordered by first occurrence among the accepted anchors' items,
      which themselves follow page order. */
  lemma ExtractedShape(doc: Document, baseUrl: string, urljoin: (string, string) -> string)
    ensures Unique(Extracted(doc, baseUrl, urljoin))
    ensures |Extracted(doc, baseUrl, urljoin)| <= |Candidates(doc)| <= |doc.anchors|
    ensures IsSubseq(Extracted(doc, baseUrl, urljoin), Usable(baseUrl, urljoin, Candidates(doc)))
    ensures var us := Usable(baseUrl, urljoin, Candidates(doc));
            var r := Extracted(doc, baseUrl, urljoin);
            forall i, j :: 0 <= i < j < |r| ==> FirstIndex(us, r[i]) < FirstIndex(us, r[j])
  {
    DedupSubseq(Usable(baseUrl, urljoin, Candidates(doc)));
    DedupFirstSeen(Usable(baseUrl, urljoin, Candidates(doc)));
  }

  /// The headline query

  /** The query test of `hexun_news`: lower-cased substring match. */
  predicate Matches(title: string, query: string)
  {
    Contains(Lower(title), Lower(query))
  }

  function Titles(items: seq<Item>): seq<string>
  {
    Map((it: Item) => it.title, items)
  }

  /** The list `hexun_news` builds from the extracted items. */
  function QueryTitles(items: seq<Item>, query: string): seq<string>
  {
    if query != "" then Titles(Filter((it: Item) => Matches(it.title, query), items))
    else Titles(items)
  }

  /** An empty query returns every title in order; any other query returns
      exactly the titles that match it, each as often as it occurs, in
      their original order. */
  lemma QueryTitlesSpec(items: seq<Item>, query: string)
    ensures query == "" ==> QueryTitles(items, query) == Titles(items)
    ensures query != "" ==> QueryTitles(items, query) == Filter(t => Matches(t, query), Titles(items))
    ensures query != "" ==> IsSubseq(QueryTitles(items, query), Titles(items))
    ensures query != "" ==> forall t :: t in QueryTitles(items, query) ==> Matches(t, query)
    ensures query != "" ==>
              forall t :: multiset(QueryTitles(items, query))[t]
                          == if Matches(t, query) then multiset(Titles(items))[t] else 0
  {
    if query != "" {
      var q := t => Matches(t, query);
      FilterMap(q, (it: Item) => it.title, (it: Item) => Matches(it.title, query), items);
      FilterSubseq(q, Titles(items));
      forall t ensures multiset(Filter(q, Titles(items)))[t]
                       == if Matches(t, query) then multiset(Titles(items))[t] else 0 {
        FilterMultiplicity(q, Titles(items), t);
      }
    }
  }

  /** `hexun_news(query)`, given the fetched and parsed page. */
  method HexunNews(doc: Document, urljoin: (string, string) -> string, query: string)
    returns (titles: seq<string>)
    ensures titles == QueryTitles(Extracted(doc, HexunUrl, urljoin), query)
  {
    var items := ExtractItems(doc, HexunUrl, urljoin);
    if query != "" {
      items := Filter((it: Item) => Matches(it.title, query), items);
    }
    titles := Titles(items);
  }
}
