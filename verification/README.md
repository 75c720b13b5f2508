# Internship aggregator, modelled in Dafny

This project models the core of a small internship aggregator written in Python (a Flask front end in `app.py` and the acquisition pipeline in `internshala_scraper.py`), and proves properties of that model.

The pipeline works in four stages:

- **Adapters.** Four source adapters run in a fixed order: the Internshala scraper, the GitHub Jobs API mapping, and two fixture adapters standing in for Indeed and LinkedIn. Each adapter is isolated, so one that raises contributes nothing.
- **Deduplication.** The outputs are concatenated. One forward pass then keeps the first listing of each `(title, company)` key.
- **Caching.** The result is cached for 1800 seconds. An empty result is replaced by twelve placeholder listings, which are stored. A failed aggregation keeps the old cache. A manual refresh clears the cache.
- **Serving.** The listing page filters the served list four ways and paginates it ten per page. It also computes:
  - the filter facets;
  - the five trending title words;
  - the trending-chart keywords: tokens counted like `Counter.most_common`;
  - the CSV export rows;
  - the check of the subscription form.

Everything outside the program is an oracle parameter:

- **Network:** a `fetch` is a list of attempt outcomes.
- **HTML:** a page is the list of cards each card selector finds, and a card is the outcome of each field selector.
- **Clock:** an integer `now` and an opaque timestamp string.
- **Aggregation:** as seen by the cache, either a result or an exception message.

The modules follow the program's structure:

- `Listings`: the record and its sentinels.
- `Fetcher`: the retry loop.
- `Scraper`: the adapters.
- `Aggregator`: `get_internships` and `get_jobs_with_metadata`.
- `Cache`: `get_jobs_cached` and `refresh_data`, as a `JobCache` class over a pure transition `ReadCache`.
- `Query`: the filter, pagination, facets, CSV and subscription code.
- `Trending`: the tokenizer and counting.
- `Text` and `Seqs`: the Python string and sequence operations the program relies on, including `strip`, `split(',')`, `split()`, `lower`, `in`, `sorted(set(...))` and a first-occurrence pass.

Loops the program runs step by step are methods with invariants. Each is proved equal to a pure specification function, and the properties are lemmas about those functions. The loops are the retry loop, the extraction loops, the card loop, the URL loop, the dedup loop, the filter loop and the location-facet loop.

## Behaviour worth knowing

- **Empty aggregation result.** A refresh whose aggregation yields no listings stores the placeholder list with the current time, overwriting any earlier cache (`app.py:147-157`). See `Cache.EmptyRefreshStoresMock`.
- **The wired pipeline is never empty.** The two fixture adapters always contribute, so the aggregate always holds listings (`internshala_scraper.py:279-293`, `Aggregator.Harvest`). Placeholder data is therefore reached only when aggregation raises.
- **Trending tags are lowercased.** Every whitespace-separated title word is lowercased before it is counted (`app.py:261`), so "Python" and "python" are one tag.
- **GitHub records are not checked for completeness.** The GitHub mapping emits a record for every one of the first ten results, with empty strings for missing fields (`internshala_scraper.py:148-158`). Only the Internshala card loop drops records without a title, a company or a link (`Scraper.CardRecord`).

## Model

| member | source | states |
|---|---|---|
| Fetcher.FetchOutcome | internshala_scraper.py:19-34 | the outcome is the first answered attempt among the first `retries`, every earlier attempt having errored; when all of them errored, it is a failure carrying the last attempt's error |
| Fetcher.Fetch | internshala_scraper.py:19-34 | the retry loop yields `FetchOutcome`. It makes between 1 and `retries` attempts, every one before the last having errored, so it stops at the first answer; on failure it makes all of them. The backoff exponents are 0, 1, …, one per failed attempt except the last allowed |
| Scraper.FirstText | internshala_scraper.py:122-131 | the text of the first selector that finds an element; the empty string when none does (a selector that raises counts as finding nothing) |
| Scraper.ExtractText | internshala_scraper.py:122-131 | the selector loop returns `FirstText` |
| Scraper.SelectedCards | internshala_scraper.py:54-65 | the result is empty exactly when every card selector finds nothing; otherwise it is the result of a selector all of whose predecessors found nothing |
| Scraper.SelectCards | internshala_scraper.py:61-65 | the card-selector loop returns `SelectedCards` |
| Scraper.CardRecord | internshala_scraper.py:70-110 | a card yields a record exactly when its title, its company and its link href are all non-empty. The record is complete, tagged Internshala and stamped, with link `BASE + href`. The location is the extracted one, or `Remote` when that is empty. Duration is the stripped second detail block and stipend the stripped third, each `Not specified` when that block is missing. A card that raises yields nothing |
| Scraper.ParseCard | internshala_scraper.py:67-114 | the card-loop body returns `CardRecord` |
| Scraper.CardListings | internshala_scraper.py:67-114 | the card loop's records, in card order: at most one per card |
| Scraper.PageListings | internshala_scraper.py:48-118 | one URL's contribution: nothing when every one of its retries fails, else the records of its selected cards |
| Scraper.InternshalaListings | internshala_scraper.py:36-120 | the adapter's records: every one comes from the page of one of the category URLs |
| Scraper.ScrapePage | internshala_scraper.py:48-118 | one URL's contribution: nothing when the fetch fails, else the records of the selected cards in card order |
| Scraper.ScrapeInternshala | internshala_scraper.py:36-120 | the URL loop over the four category pages returns `InternshalaListings` |
| Scraper.CardListingsComplete | internshala_scraper.py:99-110 | every emitted card record is complete, tagged Internshala, stamped, and has a link starting with the site base and longer than it |
| Scraper.InternshalaListingsComplete | internshala_scraper.py:45-120 | the same holds for every record of the whole adapter |
| Scraper.CardListingsAppend | internshala_scraper.py:67-114 | cards are processed independently and in order: the records of `c1 + c2` are those of `c1` followed by those of `c2` |
| Scraper.UnparsableCardSkipped | internshala_scraper.py:112-114 | a card that raises contributes nothing and the cards after it are still processed |
| Scraper.InternshalaListingsAppend | internshala_scraper.py:47-118 | URLs are processed independently and in order |
| Scraper.FailedUrlSkipped | internshala_scraper.py:116-118 | a URL whose every retry fails contributes nothing and the later URLs are still scraped |
| Scraper.GithubJobs | internshala_scraper.py:133-163 | at most 10 records, each tagged GitHub Jobs with duration and stipend `Not specified`; a failed request yields none, and so does a non-object among the first ten results; otherwise record `i` is the mapping of result `i`, with defaults `''` and `Remote` |
| Scraper.IndeedListings | internshala_scraper.py:165-214 | four complete fixture records tagged Indeed |
| Scraper.LinkedInListings | internshala_scraper.py:216-255 | three complete fixture records tagged LinkedIn |
| Aggregator.CollectAll | internshala_scraper.py:261-293 | the aggregate is the Internshala, GitHub, Indeed and LinkedIn outputs concatenated in that order; an adapter that raised contributes nothing and the later ones still run |
| Aggregator.RemoveDuplicates | internshala_scraper.py:295-302 | the loop with its `seen` set computes the first-occurrence pass on `(title, company)` keys |
| Aggregator.Internships | internshala_scraper.py:257-305 | the aggregate after deduplication: no longer than the concatenated adapter outputs, every listing taken from them, and no key twice |
| Aggregator.GetInternships | internshala_scraper.py:257-305 | `get_internships` is deduplication of the ordered concatenation |
| Aggregator.DeduplicationProperties | internshala_scraper.py:295-305 | the output is no longer than the input and its keys are pairwise distinct. Every input key survives. The output is exactly the first occurrences in input order, and a second pass changes nothing |
| Aggregator.EndToEndExample | internshala_scraper.py:257-305 | adapters giving `[A,B]`, an exception, `[B',C]` (with `B'` keyed like `B`) and `[]` yield `[A,B,C]` |
| Aggregator.HarvestSources | internshala_scraper.py:257-305 | every aggregated listing carries one of the four adapter tags and the run's timestamp |
| Aggregator.Harvest | internshala_scraper.py:257-305 | the four adapters as wired: the fixture adapters always contribute, so the aggregate is never empty |
| Aggregator.MetadataOf | internshala_scraper.py:312-318 | the total is the number of listings; sources, locations and companies are exactly the sets of those fields |
| Aggregator.JobsWithMetadata | internshala_scraper.py:307-320 | the listings are the aggregate, the total is its (positive) length, and the sources are among the four adapter tags |
| Cache.MockJobs | app.py:40-137 | exactly twelve placeholder listings, each tagged `Mock Data` and carrying the read's timestamp |
| Cache.ReadCache | app.py:139-165 | one read: it runs the aggregation exactly when the state is stale, leaves a fresh state unchanged, and never serves an empty list |
| Cache.RefreshIffStale | app.py:142 | a read refreshes exactly when nothing is cached or `now - ts > 1800`; otherwise the state is unchanged and the cached list is served |
| Cache.FreshWithinTtl | app.py:142 | up to and including `ts + 1800`, a read serves the cached list without refreshing, whatever the aggregation would give |
| Cache.RefreshStoresResult | app.py:143-157 | a refresh with a non-empty result stores exactly that list with `ts = now` and serves it |
| Cache.EmptyRefreshStoresMock | app.py:147-157 | a refresh with an empty result stores and serves the twelve placeholder listings, tagged `Mock Data`, replacing any earlier cache |
| Cache.FailedRefreshKeepsState | app.py:159-165 | a refresh that raises leaves the state unchanged; it serves the old list, or the placeholder list (not stored) when nothing was cached |
| Cache.ReadKeepsWellFormed | app.py:139-165 | reads never store an empty list and never serve one |
| Cache.ClearedIsStale | app.py:338 | the reset state is stale at every time, so the read after a reset always refreshes |
| Cache.TtlTimeline | app.py:139-165 | a read at `t0` refreshes; reads at `t0 + 1799` and `t0 + 1800` serve the same list without refreshing; a read at `t0 + 1801` refreshes |
| Cache.HarvestedRefreshStoresHarvest | app.py:143-157 | fed by the wired pipeline, a refresh stores and serves the aggregate itself, never the placeholder list |
| Cache.JobCache.constructor | app.py:36-37 | the cache starts as `{None, 0}` |
| Cache.JobCache.GetJobsCached | app.py:139-165 | `get_jobs_cached` serves, stores and refreshes exactly as `ReadCache` says and keeps the cache well formed |
| Cache.JobCache.Clear | app.py:336-338 | the cache is reset to `{None, 0}` |
| Cache.JobCache.RefreshData | app.py:332-341 | a manual refresh resets the cache and reads it, so the aggregation always runs, whatever the cache's age |
| Query.FilterJobs | app.py:236-247 | the filter loop returns `Filtered` |
| Query.Matches | app.py:238-246 | with every parameter empty a listing always matches; a location filter longer than the listing's location never does |
| Query.Filtered | app.py:236-247 | the filtered list is no longer than the served list, and each of its listings is served and matches |
| Query.FilteredMembers | app.py:236-247 | a listing is kept exactly when it is served and matches all four criteria; the result is no longer than the input |
| Query.FilteredAppend | app.py:237-247 | filtering works listing by listing, so it preserves the served order |
| Query.FilteredNoFilters | app.py:238-247 | with every parameter empty, all listings are shown |
| Query.FilteredIdempotent | app.py:236-247 | filtering twice is filtering once |
| Query.SearchIgnoresCase | app.py:231-240 | the search parameter's case never matters |
| Query.SearchExample | app.py:231-240 | the search "python" finds a listing titled "Python Intern" |
| Query.SearchMissExample | app.py:231-240 | the search "java" does not find it |
| Query.LocationExample | app.py:241-242 | the location "Mumbai" finds a listing located in "Remote, Mumbai" |
| Query.LocationMissExample | app.py:241-242 | the location "Delhi" does not find it |
| Query.TotalPages | app.py:252 | the page count is the least `t` with `n <= 10 t` |
| Query.PageOf | app.py:253 | page `p >= 1` holds at most 10 listings: element `k` of the page is element `(p-1)*10 + k` of the filtered list, and the page is as long as the list allows |
| Query.PageBeyondTotal | app.py:249-253 | a page after the last is empty |
| Query.PageWithinTotal | app.py:249-253 | every page up to the last is non-empty, and every page before the last is full |
| Query.PagesCoverAll | app.py:249-253 | pages 1 to the total, concatenated, are exactly the filtered list |
| Query.PaginationExample | app.py:249-253 | 23 listings make 3 pages; page 3 has the last 3 and page 4 is empty |
| Query.AddPieces | app.py:212-213 | the inner loop adds exactly the given stripped pieces of one location to the sorted set, which stays strictly sorted |
| Query.ExtractAllLocations | app.py:209-214 | the nested loops produce `sorted(set(pieces))` of all locations |
| Query.LocationPiecesMembers | app.py:209-214 | a value is a location facet exactly when it is a stripped piece of some listing's location |
| Query.PieceClean | app.py:212-213 | a stripped piece contains no comma and has no whitespace at either end |
| Query.LocationFacetsClean | app.py:209-214 | the same holds for every location facet |
| Query.ExtractDurations | app.py:216-217 | strictly sorted, and exactly the durations of the listings |
| Query.ExtractStipends | app.py:219-220 | strictly sorted, and exactly the stipend ranges of the listings |
| Query.CsvLines | app.py:286-293 | the header, then one row per served listing, in order |
| Query.CsvRow | app.py:288-293 | a row is the four columns, three separators and a line break: as long as the four fields plus four, ending in `\n` |
| Query.CsvRowFields | app.py:288-293 | when the link has no comma, a row splits on commas into exactly the four columns: title, company and location scrubbed, each as long as the original, then the link |
| Query.CsvScrubExample | app.py:289 | "Foo, Bar" is exported as "Foo  Bar" |
| Query.CsvHeaderFields | app.py:287 | the header splits into `Title`, `Company`, `Location`, `Link` |
| Query.Subscribe | app.py:301-316 | the stripped address is refused as missing exactly when empty, and as invalid exactly when it lacks `@` or `.`; otherwise the message goes to the stripped address with the alert body |
| Query.AlertBodyLines | app.py:316 | when no criterion holds a line break, the body reads back as the heading plus one line per criterion |
| Text.Trim | app.py:213 | `strip()`: the result is a slice of the input with only whitespace around it, and it has no whitespace at either end |
| Text.Lower | app.py:172 | `lower()`: same length; each uppercase ASCII letter becomes its lowercase letter (code point + 32) and every other character is unchanged |
| Text.Contains | app.py:239-242 | `p in s`: the empty string is in every string, and a string longer than `s` is never in it |
| Text.ContainsAt | app.py:239 | `p in s` holds exactly when `p` occurs at some index of `s` |
| Text.JoinSplit | app.py:212 | `split(',')` loses nothing: joining the fields gives back the string |
| Text.SplitJoin | app.py:212 | fields without the separator survive a join followed by a split |
| Text.ReplaceChar | app.py:289-291 | `replace(',', ' ')`: same length, no comma left, commas become spaces and nothing else changes |
| Text.SortedSet | app.py:216-220 | `sorted(set(xs))`: strictly increasing, and exactly the elements of `xs` |
| Text.SortedUnique | app.py:214 | a set has exactly one strictly sorted listing |
| Text.Split | app.py:212 | `split(',')`: at least one field, none holding the separator |
| Trending.WordsAreRuns | app.py:261 | `split()`: every word is non-empty and holds no whitespace |
| Trending.WordsOfWord | app.py:261 | a non-empty string without whitespace splits into itself alone |
| Trending.WordsSplit | app.py:261 | a whitespace character separates the words before it from those after it, so the words of any string are its whitespace-free runs in order, each as often as it occurs |
| Trending.WordsJoin | app.py:261 | words joined by single spaces split back into the same words |
| Trending.RegexWords | app.py:172 | every match is a non-empty run of ASCII letters |
| Trending.RegexWordsOfRun | app.py:172 | a run of word characters is matched, once, exactly when it is all letters |
| Trending.RegexWordsSplit | app.py:172 | a non-word character separates the matches before it from those after it, so matches keep their order and multiplicity |
| Trending.RegexWordsMatch | app.py:172 | the scan yields a word exactly when `\b[a-zA-Z]+\b` matches it at some index: a run of letters with no word character on either side |
| Trending.KeepMeaningful | app.py:173 | a word is kept exactly when it is longer than two characters and not a stopword |
| Trending.KeepMeaningfulAppend | app.py:173 | the comprehension keeps the order: the meaningful words of a concatenation are those of each part |
| Trending.KeepMeaningfulCount | app.py:173 | every occurrence of a meaningful word is kept and no occurrence of any other |
| Trending.TokenizeTitle | app.py:170-173 | every token is a meaningful pattern match of the lowercased title |
| Trending.TokenizeTitleSpec | app.py:170-173 | a title's tokens are exactly the meaningful pattern matches in the lowercased title, each a lowercase ASCII word of at least three letters |
| Trending.SortByCountMultiset | app.py:189 | sorting by count is a permutation |
| Trending.SortByCountRanked | app.py:189 | counts never increase, and equal counts keep input order |
| Trending.SortByCountDistinct | app.py:189 | sorting keeps a list free of duplicates |
| Trending.DistinctProperties | app.py:188 | the counter's keys are pairwise different and are exactly the counted words |
| Trending.RankingProperties | app.py:188-189 | the ranking lists every counted word exactly once, most frequent first |
| Trending.MostCommon | app.py:189 | at most `n` entries, each carrying its word's exact count |
| Trending.MostCommonEntries | app.py:189 | `min(n, distinct words)` entries, each a word of the input counted at least once |
| Trending.MostCommonOrder | app.py:189 | no word twice; counts never increase; ties keep the order of first appearance |
| Trending.MostCommonTop | app.py:189 | a word is left out only when the list is full; it is then counted no more than the last entry, and when counted as often, the last entry appeared first |
| Trending.TitleWordsAreTags | app.py:261 | every counted title word is non-empty, free of whitespace and of uppercase letters |
| Trending.TrendingTags | app.py:260-262 | at most five tags |
| Trending.TrendingTagsAreTitleWords | app.py:260-262 | up to five tags, as many as there are distinct title words when fewer, each a lowercased title word |
| Trending.TrendingTagsOrder | app.py:260-262 | the tags are distinct and most frequent first |
| Trending.TrendingTagsTop | app.py:260-262 | a title word that is not a tag is counted no more than the fifth tag, and when counted as often, the fifth tag appeared first |
| Trending.ChartTokensAreTokens | app.py:181 | every chart token is a lowercase ASCII word, longer than two letters and not a stopword |
| Trending.TrendingChart | app.py:176-190 | a drawn chart has one to five bars |
| Trending.TrendingChartSpec | app.py:176-190 | a chart is drawn exactly when some title has a token. Its bars are `most_common(5)` of the tokens: one to five different tokens, each with its exact count, tallest first |
| Trending.TrendingChartTop | app.py:186-190 | a token missing from the chart is counted no more than the fifth bar, and when counted as often, the fifth bar's token appeared first |

## Left out

- **HTTP plumbing.** Flask routing, templates, redirects, `flash` notices and the streaming `Response` are not modelled; only the values they display are.
- **Index-page wiring.** The route's composition of the served list with the filter, page, facets and tags is not a member of its own.
- **Sample-data notice.** The notice shown when the served list equals `MOCK_JOBS` (app.py:265-266) is not modelled.
- **Mail and configuration.** Mail delivery, its success or failure notice, and configuration loading (app.py:25-33, app.py:318-328) are foreign I/O.
- **Chart drawing.** Matplotlib drawing and saving is not modelled. Neither is the 60-second window after a refresh in which the page redraws the chart (app.py:228). Only the bars are.
- **Network and HTML.** `requests`, `raise_for_status`, `response.json()` and the BeautifulSoup selector engine are oracle inputs. Element text is taken as already stripped by `get_text(strip=True)`.
- **Fetcher.Fetch: pauses.** The random 1–3 second pause and the float backoff `1.5 ** i` are not modelled; only the exponent `i` of each backoff is.
- **Fetcher.FetchOutcome: retries.** It requires `retries >= 1`. With zero retries Python raises `None`, a `TypeError`.
- **Query.PageOf: page numbers.** It requires `page >= 1`. Python's negative-index slicing for zero or negative pages is not modelled, nor is the `ValueError` of a non-numeric page.
- **Timestamps.** `datetime.now()` is an opaque string, the same for every record of one run. Python reads the clock afresh for each record.
- **Clock.** `time.time()` is the integer parameter `now`; Python's float seconds are not modelled.
- **Cache.ReadCache: placeholder tags.** When aggregation raises with nothing cached, it serves the placeholder list already tagged `Mock Data`. Python returns a shallow copy of `MOCK_JOBS`, whose records carry the tag only if an earlier empty refresh has already written it into the shared records (app.py:150-152). That aliasing is not modelled.
- **Cache.JobCache: concurrency.** The cache is a single object without concurrency. Concurrent requests are not modelled.
- **Text.Lower: ASCII only.** Non-ASCII letters are left unchanged.
- **Trending.RegexWords: ASCII word characters.** `\w` is taken as ASCII letters, digits and `_`. Python's `re` also counts non-ASCII letters and digits as word characters.
- **Scraper.GithubJobs: JSON `null`.** A field present with the value `null` is treated like a missing field. Python would store `None`.
- **Aggregator.MetadataOf: list order.** Sources, locations and companies are sets. Python's `list(set(...))` has an unspecified order.
- **Logging.** `print` and logging are not modelled.
