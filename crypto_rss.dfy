/** The crypto RSS aggregator (utils/crypto_rss_utils.py): normalising the
    entries of one parsed feed, merging the configured feeds in order with a
    `source` tag on every record, and the ticker filter.

    Parsing a feed is a parameter: it maps a feed URL to the parsed entries,
    each a dictionary from field names to strings, or to `None` when the
    parser raises. */
module CryptoRss {
  import opened Wrappers
  import opened Sequences
  import opened Text

  /** One parsed feed entry: field name to value. */
  type FeedEntry = map<string, string>

  /** The outcome of parsing one feed: its entries, or `None` when parsing
      raised. */
  type ParsedFeed = Option<seq<FeedEntry>>

  /** The default `max_entries` of `extract_feed_entries`. */
  const DefaultMaxEntries: int := 999

  /** The feeds `crypto_rss_feeds` reads, in this order. */
  const ExampleFeeds: seq<string> := [
    "https://cointelegraph.com/rss",
    "https://bitcoinist.com/feed/",
    "https://bitcoinethereumnews.com/feed/",
    "https://cryptoverze.com/feed/",
    "https://www.coolwallet.io/blogs/blog.atom",
    "https://latinoreview.com/feed/",
    "https://bitrss.com/rss.xml",
    "https://coinlabz.com/feed/",
    "https://crypto.news/feed/",
    "https://cryptobriefing.com/feed/",
    "https://99bitcoins.com/feed/",
    "https://cryptopotato.com/feed/",
    "https://www.newsbtc.com/feed/"
  ]

  /** One normalised entry, with the four fields `extract_feed_entries`
      keeps. */
  datatype Entry = Entry(title: string, link: string, published: string, summary: string)

  /** One merged record: a normalised entry plus the URL of its feed. */
  datatype Record = Record(title: string, link: string, published: string, summary: string, source: string)

  /** `entry.get(key, default)` */
  function Get(m: FeedEntry, key: string, default: string): string
  {
    if key in m then m[key] else default
  }

  /** The dictionary `extract_feed_entries` builds for one entry. */
  function NormalizeEntry(m: FeedEntry): Entry
  {
    Entry(Get(m, "title", "No title"), Get(m, "link", "No link"),
          Get(m, "published", "No date"), Get(m, "summary", "No summary"))
  }

  /** The kept fields and the sentinel each one gets when absent. */
  const Fields: seq<(string, string)> :=
    [("title", "No title"), ("link", "No link"), ("published", "No date"), ("summary", "No summary")]

  /** The value an entry holds under one of the kept field names. */
  function FieldValue(e: Entry, key: string): string
  {
    if key == "title" then e.title
    else if key == "link" then e.link
    else if key == "published" then e.published
    else if key == "summary" then e.summary
    else ""
  }

  /** The dictionary view of a normalised entry. */
  function EntryMap(e: Entry): FeedEntry
  {
    map["title" := e.title, "link" := e.link, "published" := e.published, "summary" := e.summary]
  }

  /** Each kept field is copied unchanged when the entry has it and set to
      its own sentinel when it does not, independently of the other three. */
  lemma NormalizeEntryFields(m: FeedEntry)
    ensures forall k :: 0 <= k < |Fields| ==>
              FieldValue(NormalizeEntry(m), Fields[k].0)
                == if Fields[k].0 in m then m[Fields[k].0] else Fields[k].1
  {
    forall k | 0 <= k < |Fields|
      ensures FieldValue(NormalizeEntry(m), Fields[k].0)
                == if Fields[k].0 in m then m[Fields[k].0] else Fields[k].1
    {
      assert k == 0 || k == 1 || k == 2 || k == 3;
    }
  }

  /** Normalising an already normalised entry gives it back, and only the
      four kept fields matter: other keys are ignored. */
  lemma NormalizeEntryRoundTrip(e: Entry, extra: FeedEntry)
    ensures NormalizeEntry(EntryMap(e)) == e
    ensures NormalizeEntry(extra + EntryMap(e)) == e
  {
  }

  /** Python's `s[:n]` for any integer `n`: a negative `n` counts from the
      end. */
  function Prefix<T>(s: seq<T>, n: int): (r: seq<T>)
    ensures |r| <= |s| && r == s[..|r|]
    ensures n >= 0 ==> |r| == if n <= |s| then n else |s|
    ensures n < 0 ==> |r| == if |s| + n >= 0 then |s| + n else 0
  {
    if n >= 0 then (if n <= |s| then s[..n] else s)
    else if |s| + n >= 0 then s[..|s| + n]
    else []
  }

  /** What `extract_feed_entries` returns for a parse outcome: nothing when
      parsing raised or found no entries, otherwise the first `maxEntries`
      entries (Python slice rules), each normalised, in feed order. */
  function FeedEntries(feed: ParsedFeed, maxEntries: int): (r: seq<Entry>)
    ensures feed.None? ==> r == []
    ensures feed.Some? && maxEntries >= 0 ==>
              |r| == if maxEntries <= |feed.value| then maxEntries else |feed.value|
    ensures feed.Some? ==> |r| <= |feed.value|
    ensures feed.Some? ==> |r| == |Prefix(feed.value, maxEntries)|
    ensures feed.Some? ==> forall k :: 0 <= k < |r| ==> r[k] == NormalizeEntry(feed.value[k])
  {
    match feed
    case None => []
    case Some(entries) =>
      if entries == [] then [] else Map(NormalizeEntry, Prefix(entries, maxEntries))
  }

  /** `extract_feed_entries(feed_url, max_entries)` */
  method ExtractFeedEntries(parse: string -> ParsedFeed, feedUrl: string, maxEntries: int)
    returns (entries: seq<Entry>)
    ensures entries == FeedEntries(parse(feedUrl), maxEntries)
  {
    var feed := parse(feedUrl);
    if feed.None? || feed.value == [] {
      return [];
    }
    var slice := Prefix(feed.value, maxEntries);
    entries := [];
    var i := 0;
    while i < |slice|
      invariant 0 <= i <= |slice|
      invariant entries == Map(NormalizeEntry, slice[..i])
    {
      MapSnoc(NormalizeEntry, slice[..i], slice[i]);
      assert slice[..i + 1] == slice[..i] + [slice[i]];
      entries := entries + [NormalizeEntry(slice[i])];
      i := i + 1;
    }
    assert slice[..i] == slice;
  }

  /** `entry_with_source = dict(entry); entry_with_source['source'] = feed_url` */
  function WithSource(e: Entry, source: string): Record
  {
    Record(e.title, e.link, e.published, e.summary, source)
  }

  /** The entry part of a merged record. */
  function EntryOf(r: Record): Entry
  {
    Entry(r.title, r.link, r.published, r.summary)
  }

  /** The records one feed contributes to the merge. */
  function FeedRecords(parse: string -> ParsedFeed, feedUrl: string): seq<Record>
  {
    Map(e => WithSource(e, feedUrl), FeedEntries(parse(feedUrl), DefaultMaxEntries))
  }

  /** The records of every feed, as a function of the feed's URL. */
  function Contribution(parse: string -> ParsedFeed): string -> seq<Record>
  {
    feedUrl => FeedRecords(parse, feedUrl)
  }

  /** The merged list for a list of feeds, before the ticker filter: every
      feed's records, feed after feed. */
  function Merged(parse: string -> ParsedFeed, feeds: seq<string>): seq<Record>
  {
    ConcatMap(Contribution(parse), feeds)
  }

  /** The two nested loops of `crypto_rss_feeds`. */
  method MergeFeeds(parse: string -> ParsedFeed, feeds: seq<string>) returns (all: seq<Record>)
    ensures all == Merged(parse, feeds)
  {
    all := [];
    var i := 0;
    while i < |feeds|
      invariant 0 <= i <= |feeds|
      invariant all == Merged(parse, feeds[..i])
    {
      var feedUrl := feeds[i];
      var entries := ExtractFeedEntries(parse, feedUrl, DefaultMaxEntries);
      var j := 0;
      while j < |entries|
        invariant 0 <= j <= |entries|
        invariant all == Merged(parse, feeds[..i]) + Map(e => WithSource(e, feedUrl), entries[..j])
      {
        MapSnoc(e => WithSource(e, feedUrl), entries[..j], entries[j]);
        assert entries[..j + 1] == entries[..j] + [entries[j]];
        var withSource := WithSource(entries[j], feedUrl);
        all := all + [withSource];
        j := j + 1;
      }
      assert entries[..j] == entries;
      assert feeds[..i + 1] == feeds[..i] + [feedUrl];
      MergedSnoc(parse, feeds[..i], feedUrl);
      i := i + 1;
    }
    assert feeds[..i] == feeds;
  }

  /** The ticker test: lower-cased substring match on the title. */
  predicate MentionsTicker(r: Record, ticker: string)
  {
    Contains(Lower(r.title), Lower(ticker))
  }

  /** The ticker filter of `crypto_rss_feeds`; an empty ticker keeps all. */
  function TickerFilter(records: seq<Record>, ticker: string): seq<Record>
  {
    if ticker != "" then Filter(r => MentionsTicker(r, ticker), records) else records
  }

  /** `crypto_rss_feeds(ticker)` up to the JSON encoding of its result. */
  method CryptoRssFeeds(parse: string -> ParsedFeed, ticker: string) returns (records: seq<Record>)
    ensures records == TickerFilter(Merged(parse, ExampleFeeds), ticker)
  {
    records := MergeFeeds(parse, ExampleFeeds);
    if ticker != "" {
      records := Filter(r => MentionsTicker(r, ticker), records);
    }
  }

  /// Properties of the merge and the filter

  /** One more feed adds its own records at the end. */
  lemma MergedSnoc(parse: string -> ParsedFeed, feeds: seq<string>, feedUrl: string)
    ensures Merged(parse, feeds + [feedUrl]) == Merged(parse, feeds) + FeedRecords(parse, feedUrl)
  {
    ConcatMapSnoc(Contribution(parse), feeds, feedUrl);
  }

  /** Merging two feed lists one after the other is merging their
      concatenation. */
  lemma MergedAppend(parse: string -> ParsedFeed, f: seq<string>, g: seq<string>)
    ensures Merged(parse, f + g) == Merged(parse, f) + Merged(parse, g)
  {
    ConcatMapAppend(Contribution(parse), f, g);
  }

  /** Merge order is feed order: everything from the feeds before feed `i`,
      then feed `i`'s own records in feed order, then everything after. */
  lemma MergedSplit(parse: string -> ParsedFeed, feeds: seq<string>, i: nat)
    requires i < |feeds|
    ensures Merged(parse, feeds)
         == Merged(parse, feeds[..i]) + FeedRecords(parse, feeds[i]) + Merged(parse, feeds[i + 1..])
  {
    assert feeds == feeds[..i] + [feeds[i]] + feeds[i + 1..];
    MergedAppend(parse, feeds[..i] + [feeds[i]], feeds[i + 1..]);
    MergedSnoc(parse, feeds[..i], feeds[i]);
  }

  /** A feed whose parsing raises contributes nothing and does not stop the
      feeds after it: the merge is the merge of the other feeds. */
  lemma FailingFeedIsolated(parse: string -> ParsedFeed, feeds: seq<string>, i: nat)
    requires i < |feeds| && parse(feeds[i]).None?
    ensures FeedRecords(parse, feeds[i]) == []
    ensures Merged(parse, feeds) == Merged(parse, feeds[..i] + feeds[i + 1..])
  {
    MergedSplit(parse, feeds, i);
    MergedAppend(parse, feeds[..i], feeds[i + 1..]);
  }

  /** Every record of a feed carries that feed's URL as `source` and one of
      the feed's normalised entries, unchanged and in order. */
  lemma FeedRecordsTagged(parse: string -> ParsedFeed, feedUrl: string)
    ensures |FeedRecords(parse, feedUrl)| == |FeedEntries(parse(feedUrl), DefaultMaxEntries)|
    ensures forall k :: 0 <= k < |FeedRecords(parse, feedUrl)| ==>
              FeedRecords(parse, feedUrl)[k].source == feedUrl &&
              EntryOf(FeedRecords(parse, feedUrl)[k]) == FeedEntries(parse(feedUrl), DefaultMaxEntries)[k]
  {
  }

  /** Provenance is never lost: every merged record names, as its source, a
      configured feed whose normalised entries contain the record's entry. */
  lemma {:induction false} MergedProvenance(parse: string -> ParsedFeed, feeds: seq<string>, r: Record)
    requires r in Merged(parse, feeds)
    ensures exists i :: 0 <= i < |feeds| && r.source == feeds[i]
              && EntryOf(r) in FeedEntries(parse(feeds[i]), DefaultMaxEntries)
    decreases |feeds|
  {
    assert feeds != [];
    var n := |feeds| - 1;
    var init := feeds[..n];
    assert feeds == init + [feeds[n]];
    MergedSnoc(parse, init, feeds[n]);
    if r in Merged(parse, init) {
      MergedProvenance(parse, init, r);
      var i :| 0 <= i < |init| && r.source == init[i]
               && EntryOf(r) in FeedEntries(parse(init[i]), DefaultMaxEntries);
      assert feeds[i] == init[i];
    } else {
      var rs := FeedRecords(parse, feeds[n]);
      assert r in rs;
      var k :| 0 <= k < |rs| && rs[k] == r;
      assert EntryOf(r) == FeedEntries(parse(feeds[n]), DefaultMaxEntries)[k];
    }
  }

  /** An empty ticker leaves the merged list unchanged; any other ticker
      keeps exactly the records whose lower-cased title contains the
      lower-cased ticker, each as often as it occurs, in order. */
  lemma TickerFilterSpec(records: seq<Record>, ticker: string)
    ensures ticker == "" ==> TickerFilter(records, ticker) == records
    ensures ticker != "" ==> IsSubseq(TickerFilter(records, ticker), records)
    ensures ticker != "" ==> forall r :: r in TickerFilter(records, ticker) ==> MentionsTicker(r, ticker)
    ensures ticker != "" ==>
              forall r :: multiset(TickerFilter(records, ticker))[r]
                          == if MentionsTicker(r, ticker) then multiset(records)[r] else 0
  {
    if ticker != "" {
      var p := r => MentionsTicker(r, ticker);
      FilterSubseq(p, records);
      forall r ensures multiset(Filter(p, records))[r]
                       == if MentionsTicker(r, ticker) then multiset(records)[r] else 0 {
        FilterMultiplicity(p, records, r);
      }
    }
  }
}
