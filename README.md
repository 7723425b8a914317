# Multi-source news retrieval: a Dafny model

This project models the retrieval and normalisation layer of a trading-research
code base: it scrapes futures headlines from Hexun, merges a fixed list of
crypto RSS feeds into tagged records, and fetches indicator data with bounded,
exponentially backed-off retries. Each part is proved against a specification
stated independently of the loop that computes it.

- `wrappers.dfy` (`Wrappers`): the `Option` type.
- `sequences.dfy` (`Sequences`): projection, filtering, concatenation of
  per-element results, subsequences, uniqueness and first occurrence, with
  the generic lemmas the other modules use.
- `text.dfy` (`Text`): the Python string operations the sources rely on:
  `str.strip` (Python's whitespace set), `str.lower`, `startswith`,
  substring `in`, and decimal formatting of a natural number.
- `hexun.dfy` (`Hexun`): `utils/futurenews_hexun_utils.py`. The charset
  rule, `extract_items` as a loop with its `seen` set proved equal to a
  first-seen de-duplication of the accepted anchors' items, and
  `hexun_news`'s query filter.
  - The parsed page is its `<a>` elements in document order. Each one
    records its text nodes, its `href`, and whether it lies under an `<li>`
    and inside the first `<div class="temp01">`.
  - `urljoin` is a parameter.
- `crypto_rss.dfy` (`CryptoRss`): `utils/crypto_rss_utils.py`. Entry
  normalisation with per-field sentinels, the `max_entries` slice, the
  in-order merge of the thirteen configured feeds with a `source` tag, and
  the ticker filter.
  - The feed parser is a parameter mapping a URL to its entries.
  - A parse that raises is `None`.
- `robust_fetch.dfy` (`RobustFetch`): `robust_indicator_fetch` in
  `utils/examples/stockstats_robust_example.py`, as a `while` loop proved
  equal to a recursive definition of the run.
  - The indicator call is a parameter giving the outcome of the k-th call.
  - The sleeps are returned as the list of requested delays.

Points where the code's behaviour may surprise a reader:
- An anchor is skipped when its stripped `href`, lower-cased, starts with
  `javascript`. No colon is required.
- A retry happens when the exception text contains one of `connection`,
  `curl`, `timeout`, `reset`, `network`. It does not depend on an error kind.
- The RSS merge does no de-duplication.
- There is no overall deadline. The one per-request timeout (`fetch_html`,
  utils/futurenews_hexun_utils.py:24) is part of the network I/O that is not
  modelled.
- The backoff delay doubles after each retry.

## Model

| member | source | states |
|---|---|---|
| Text.LeadingSpace | utils/futurenews_hexun_utils.py:43 | the cut of `lstrip`: every character before it is white space and the one at it, if any, is not |
| Text.TrailingSpace | utils/futurenews_hexun_utils.py:43 | the cut of `rstrip` after a given start: every character from it on is white space and the one before it, past the start, is not |
| Text.Strip | utils/futurenews_hexun_utils.py:42-43 | the result is the input with only white space removed before and after it; it is empty exactly when the input is all whitespace, neither end of a non-empty result is whitespace, and it is never longer than the input |
| Text.StripIdempotent | utils/futurenews_hexun_utils.py:43 | stripping a stripped string changes nothing |
| Text.Lower | utils/futurenews_hexun_utils.py:44 | `str.lower()` on ASCII letters, character by character; its properties are stated by Text.LowerSpec |
| Text.LowerSpec | utils/futurenews_hexun_utils.py:44 | lower-casing keeps the length, leaves no capital letter, keeps every other character and maps each capital to its small letter |
| Text.Contains | utils/futurenews_hexun_utils.py:60 | the substring `in` test, by trying each start position in turn; its meaning is stated by Text.ContainsAt |
| Text.ContainsAt | utils/futurenews_hexun_utils.py:60 | the substring test holds exactly when the pattern occurs at some index of the text |
| Text.Decimal | utils/examples/stockstats_robust_example.py:49 | the decimal rendering of a count is a non-empty string of digits with no leading zero except for the count zero |
| Text.DecimalRoundTrip | utils/examples/stockstats_robust_example.py:49 | reading the decimal rendering back gives the count |
| Hexun.ChooseEncoding | utils/futurenews_hexun_utils.py:26-28 | the charset is gb18030 unless the detected one mentions utf in any letter case, in which case the detected one is kept |
| Hexun.GetText | utils/futurenews_hexun_utils.py:42 | `get_text(strip=True)`: the text nodes, each stripped, joined with no separator; its emptiness is stated by Hexun.GetTextEmpty |
| Hexun.GetTextEmpty | utils/futurenews_hexun_utils.py:42 | the joined stripped text is empty exactly when every text node strips to nothing |
| Hexun.CleanHref | utils/futurenews_hexun_utils.py:43 | `a.get("href", "").strip()`; its properties are stated by Hexun.CleanHrefSpec |
| Hexun.CleanHrefSpec | utils/futurenews_hexun_utils.py:43 | the cleaned href is empty exactly when the anchor has no href or a blank one, and otherwise is the href with only surrounding white space removed |
| Hexun.Accepts | utils/futurenews_hexun_utils.py:44 | the skip test: a non-empty title, a non-empty href and no lower-cased `javascript` prefix; used by Hexun.ExtractStep and Hexun.ExtractedSound |
| Hexun.CandidatesSpec | utils/futurenews_hexun_utils.py:37-38 | the walked anchors are exactly the page's `li a[href]` anchors, in page order and with their multiplicities, restricted to the container when the page has one |
| Hexun.Dedup | utils/futurenews_hexun_utils.py:40-51 | the kept items are exactly the input's items, each once, and never more than the input |
| Hexun.DedupSubseq | utils/futurenews_hexun_utils.py:40-51 | the kept items keep their relative order in the input |
| Hexun.DedupFirstSeen | utils/futurenews_hexun_utils.py:48-51 | the kept items appear in the order of their first occurrences, so a repeat never displaces the earlier copy |
| Hexun.DedupOfUnique | utils/futurenews_hexun_utils.py:48-51 | a list without repeats passes through unchanged |
| Hexun.DedupIdempotent | utils/futurenews_hexun_utils.py:40-51 | de-duplicating twice is de-duplicating once |
| Hexun.ExtractStep | utils/futurenews_hexun_utils.py:41-51 | one more anchor appends its item exactly when it passes the skip test and its key is new |
| Hexun.ExtractItems | utils/futurenews_hexun_utils.py:31-53 | the loop with its `seen` set returns the first-seen de-duplication of the items of the accepted candidate anchors |
| Hexun.ExtractedSound | utils/futurenews_hexun_utils.py:42-47 | every extracted item comes from a walked anchor with a non-empty title and a non-empty, non-javascript href, its url being `urljoin(base_url, href)` |
| Hexun.ExtractedComplete | utils/futurenews_hexun_utils.py:41-51 | every walked anchor that passes the skip test has its item in the result |
| Hexun.ExtractedShape | utils/futurenews_hexun_utils.py:36-53 | the result is unique, no longer than the walked anchors, a subsequence of the accepted anchors' items, and ordered by first occurrence among them |
| Hexun.QueryTitles | utils/futurenews_hexun_utils.py:59-62 | the query filter and title projection of `hexun_news`; its properties are stated by Hexun.QueryTitlesSpec |
| Hexun.QueryTitlesSpec | utils/futurenews_hexun_utils.py:59-62 | an empty query returns every title in order; another query returns exactly the matching titles, case-insensitively, each as often as it occurs, in order |
| Hexun.HexunNews | utils/futurenews_hexun_utils.py:55-62 | the returned titles are the query filter applied to the items extracted from the Hexun page with that page as base URL |
| CryptoRss.NormalizeEntry | utils/crypto_rss_utils.py:14-19 | the four-key dictionary built from one entry with `get` and its defaults; its properties are stated by CryptoRss.NormalizeEntryFields and CryptoRss.NormalizeEntryRoundTrip |
| CryptoRss.NormalizeEntryFields | utils/crypto_rss_utils.py:14-19 | each of title, link, published, summary is copied when present and set to its own sentinel when absent, independently of the others |
| CryptoRss.NormalizeEntryRoundTrip | utils/crypto_rss_utils.py:14-19 | normalising an already normalised entry gives it back, whatever other keys the entry holds |
| CryptoRss.Prefix | utils/crypto_rss_utils.py:13 | Python's `s[:n]` is a prefix of length `min(n, len(s))` for `n >= 0` and `max(len(s) + n, 0)` for negative `n` |
| CryptoRss.FeedEntries | utils/crypto_rss_utils.py:6-24 | a parse that raises gives no entries; otherwise as many entries as the `max_entries` slice keeps (for any integer `max_entries`), each the normalised feed entry at the same position |
| CryptoRss.ExtractFeedEntries | utils/crypto_rss_utils.py:6-24 | the loop returns the normalised prefix of the parsed feed |
| CryptoRss.MergeFeeds | utils/crypto_rss_utils.py:43-49 | the nested loops return every feed's records in feed order, each tagged with its feed URL |
| CryptoRss.MergedSnoc | utils/crypto_rss_utils.py:44-49 | one more feed adds exactly its own records at the end |
| CryptoRss.MergedAppend | utils/crypto_rss_utils.py:43-49 | merging two feed lists in turn is merging their concatenation |
| CryptoRss.MergedSplit | utils/crypto_rss_utils.py:44-49 | the merge is the feeds before feed i, then feed i's records, then the feeds after |
| CryptoRss.FailingFeedIsolated | utils/crypto_rss_utils.py:44-49 | a feed whose parse raises contributes nothing and the merge equals the merge of the other feeds |
| CryptoRss.FeedRecordsTagged | utils/crypto_rss_utils.py:46-49 | a feed contributes one record per normalised entry, in order, each carrying the entry unchanged and the feed URL as source |
| CryptoRss.MergedProvenance | utils/crypto_rss_utils.py:44-49 | every merged record names a configured feed as source, and that feed's entries contain the record's entry |
| CryptoRss.TickerFilter | utils/crypto_rss_utils.py:51-52 | the `if ticker:` filter on lower-cased titles; its properties are stated by CryptoRss.TickerFilterSpec |
| CryptoRss.TickerFilterSpec | utils/crypto_rss_utils.py:51-52 | an empty ticker keeps everything; another keeps exactly the records whose title contains it case-insensitively, each as often as it occurs, in order |
| CryptoRss.CryptoRssFeeds | utils/crypto_rss_utils.py:27-53 | the result is the ticker filter applied to the merge of the thirteen configured feeds |
| RobustFetch.MentionsAny | utils/examples/stockstats_robust_example.py:42 | `any(word in text for word in words)`; its meaning is stated by RobustFetch.MentionsAnySpec |
| RobustFetch.MentionsAnySpec | utils/examples/stockstats_robust_example.py:42 | the test holds exactly when some listed word occurs in the text |
| RobustFetch.IsNetworkError | utils/examples/stockstats_robust_example.py:42 | the keyword test on the lower-cased message; its meaning is stated by RobustFetch.IsNetworkErrorSpec |
| RobustFetch.IsNetworkErrorSpec | utils/examples/stockstats_robust_example.py:42 | a message is a network error exactly when one of the five keywords occurs in its lower-cased form |
| RobustFetch.NetworkFailure | utils/examples/stockstats_robust_example.py:49 | the message `Network error after {max_retries} attempts: {error_msg}`; its content is used by RobustFetch.RunFromLast and RobustFetch.FetchGivesUp |
| RobustFetch.RunFrom | utils/examples/stockstats_robust_example.py:22-55 | the recursive definition of the run from one attempt on; its properties are stated by the RunFrom lemmas below |
| RobustFetch.Fetch | utils/examples/stockstats_robust_example.py:22-55 | the whole run, from attempt 0; its properties are stated by the Fetch lemmas below |
| RobustFetch.RobustIndicatorFetch | utils/examples/stockstats_robust_example.py:18-55 | the loop returns the result, the error, the number of calls and the delays of the recursive definition of the run |
| RobustFetch.RunFromCalls | utils/examples/stockstats_robust_example.py:22-55 | exactly one of result and error; with no attempt left no call is made and the error is "Max retries exceeded"; otherwise between one and `max_retries` calls in all |
| RobustFetch.RunFromRetried | utils/examples/stockstats_robust_example.py:37-51 | every call of the run before the last failed with a network error |
| RobustFetch.RunFromLast | utils/examples/stockstats_robust_example.py:35-51 | the last call decides the return: its value on success, its message on a non-network error, the "Network error after N attempts" message after `max_retries` network errors |
| RobustFetch.RunFromSleeps | utils/examples/stockstats_robust_example.py:43-46 | one sleep per retry, the retry after call j waiting `delay * 2^j` |
| RobustFetch.RunFromUsesCallsMade | utils/examples/stockstats_robust_example.py:22-35 | the run depends only on the outcomes of the calls it makes |
| RobustFetch.FetchCalls | utils/examples/stockstats_robust_example.py:22-55 | exactly one of result and error; `max_retries <= 0` means no call, no sleep and "Max retries exceeded"; otherwise 1 to `max_retries` calls |
| RobustFetch.FetchRetriesOnlyNetworkErrors | utils/examples/stockstats_robust_example.py:37-51 | only network errors are retried, a result is returned exactly when the last call succeeded, and each error message is the one the source builds |
| RobustFetch.FetchFirstSuccess | utils/examples/stockstats_robust_example.py:22-35 | after k network errors, a success on call k ends the run with its value after k + 1 calls |
| RobustFetch.FetchNonNetworkStop | utils/examples/stockstats_robust_example.py:37-53 | after k network errors, a failure that is not a network error on call k ends the run with its own message after k + 1 calls and k sleeps, with no result |
| RobustFetch.FetchGivesUp | utils/examples/stockstats_robust_example.py:42-49 | when every permitted call fails with a network error, exactly `max_retries` calls and `max_retries - 1` sleeps are made, ending with the network error message |
| RobustFetch.FetchBackoff | utils/examples/stockstats_robust_example.py:43-46 | the first sleep is `delay`, each later one is twice the one before, and with a non-negative delay they never decrease |
| RobustFetch.FetchUsesCallsMade | utils/examples/stockstats_robust_example.py:22-35 | outcomes of calls past the last one made do not change the run |
| RobustFetch.Pow2Monotonic | utils/examples/stockstats_robust_example.py:46 | the doubling factor grows with the number of retries |

## Left out

- Network I/O: `make_session`, its retrying HTTP adapter and headers (utils/futurenews_hexun_utils.py:8-19) and the request in `fetch_html` are not modelled. Only the charset rule is.
- HTML parsing: the parsed page is given as its anchors, each tagged with what `li a[href]` and the container lookup need. BeautifulSoup and lxml are not part of this model.
- `urljoin` and `feedparser.parse` are function parameters: their behaviour is not modelled.
- Text.Lower: folds ASCII letters only, not the full Unicode case mapping of Python's `str.lower`.
- CryptoRss.CryptoRssFeeds: returns the filtered records instead of the `json.dumps` text of them (utils/crypto_rss_utils.py:53).
- Hexun.ExtractItems: returns (title, url) items instead of two-key dictionaries.
- Exceptions other than a feed parse that raises are not modelled. A raising `urljoin` (a malformed IPv6 host, say) is an example.
- All `print` calls and the `main` and test functions of the three files are left out. The model assumes printing never fails: in the source a raise from the prints at utils/examples/stockstats_robust_example.py:24 and :34 would be caught and turn a successful fetch into `(None, str(e))`, and a raise from the prints in the handler (lines 39, 44, 48, 52) would escape the function.
- RobustFetch.RobustIndicatorFetch: `time.sleep` is recorded as the list of requested delays, not waited out.
- RobustFetch.RobustIndicatorFetch: a negative `delay` makes `time.sleep` raise at the first retry (utils/examples/stockstats_robust_example.py:45); the model records the negative delay and goes on.
- RobustFetch.RobustIndicatorFetch: the indicator call's arguments (symbol, indicator, date, window) are folded into the call parameter.
- Default arguments (`max_entries=999`, `ticker="btc"`, `query=""`, `max_retries=3`, `delay=2`) are passed explicitly. Only `max_entries` has a named constant, because `crypto_rss_feeds` relies on it.
