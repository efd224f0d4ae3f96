# Stock-news ingestion and chat state, modelled in Dafny

This project models the small pieces of sequential logic under a stock-news
LINE bot. The rest of the bot is Scrapy, Redis, Postgres and LLM plumbing.

- **Discovery and dispatch (`scrapy_proj`).** Two producer spiders (Etoday
  and Anue) search for a stock id. They push one JSON payload per article to
  the head of the Redis list `"links"`, and every push re-arms the list's
  time to live. The content spider pops a payload, decodes it, and picks a
  parse strategy by its `website` tag. It then builds a `ContentItem` and
  reads the Anue date text back with `strptime`.
- **Idempotent persistence.** Both Postgres pipelines write a table whose
  `url` column is UNIQUE, with `INSERT ... ON CONFLICT (url) DO NOTHING`,
  committing or rolling back each statement.
  - The first pipeline inserts every content item as it arrives.
  - The second buffers items five at a time. For each batch it strips the
    titles, rewrites each content through an LLM from a normalised prompt,
    and inserts each item.
- **The Yahoo spiders.** The search spider pushes raw links. Its
  `date_recognize` reads relative dates such as `"3 天前"`. The content
  spider re-formats `YYYY-MM-DDTHH:MM:SS.ffffffZ` as `YYYY-MM-DD HH:MM:SS`.
- **Chat state.** `MessageResponse` holds a per-user table of pending
  images. It also holds two one-shot fields: `user_info`, which prefixes the
  next saved message once, and `s3_url`, which goes with the next saved chat
  row.

Modules follow the program:

| module | file | role |
|---|---|---|
| `Wrappers` | wrappers.dfy | `Option` |
| `PyText` | text.dfy | the Python `str` operations used: `strip`, `split`, `join`, `replace`, `split(" ")[0]`, `int()` |
| `CivilTime` | civil_time.dfy | proleptic Gregorian dates, ordinals, Unix timestamps in UTC (`datetime.fromtimestamp(ts, tz=timezone.utc)`) |
| `StrptimeRegex` | strptime.dfy | `_strptime`'s regular expression for the two formats used, with its backtracking |
| `TimeFormat` | time_format.dfy | `strftime` of the three date texts and the `strptime` parsers built on the matcher |
| `Json` | json.dfy | `json.dumps` of a dict of strings and `json.loads` |
| `Frontier` | frontier.dfy | the Redis list `"links"` with its TTL, and the producers' push loops |
| `NewsSearch` | news_search.dfy | `scrapy_proj/yahoo_news/spiders/news_search.py` |
| `ArticleTable` | article_table.dfy | the `articles` table as a url-keyed map |
| `ArticlePipeline` | article_pipeline.dfy | `yahoo_news/pipelines.py` |
| `BatchPipeline` | batch_pipeline.dfy | `yahoo_news/yahoo_news/pipelines.py` |
| `YahooSearch` | yahoo_search.dfy | `yahoo_news/yahoo_news/spiders/news_search.py` |
| `Messaging` | messaging.dfy | `message_response.py` |

The main results:

- **Anue round trip.** A payload the Anue producer pushes decodes to a
  request for the article link, with the stock id and the date text. The
  content spider's `strptime` then recovers the UTC civil time of
  `publishAt`, and that time converts back to the same timestamp
  (`NewsSearch.AnueRoundTrip`).
- **Inserts.** A run of `process_item` calls leaves the table as the
  committed rows inserted in order. Rows that were already stored are kept,
  and the first row given for a new url wins.
- **The buffer.** It always holds fewer than five items. Every item received
  lies in exactly one batch, in arrival order.
- **Cleaning.** The normalisation is single-spaced, free of line feeds and of
  U+200C, and idempotent. The cleaning writes the i-th LLM result into the
  i-th item.
- **Relative dates.** `date_recognize` follows its three branches. The
  `OverflowError` of `datetime - timedelta` is a distinct outcome.
- **Users' pending images.** Each user's entry follows the set/clear rules.
  The other users' entries stay unchanged.

One consequence is worth knowing. The Yahoo content spider yields records
with no `stock_id`, so `db_insert` in the batch pipeline raises KeyError for
each of them. A batch of such records therefore stores nothing
(`YahooSearch.ContentBatchStoresNothing`).

## Model

| member | source | states |
|---|---|---|
| NewsSearch.DefaultStock | scrapy_proj/yahoo_news/spiders/news_search.py:17-56 | in both producers (lines 19 and 56) a missing or empty stock id becomes "2330" and a non-empty one is kept |
| NewsSearch.StartRequests | scrapy_proj/yahoo_news/spiders/news_search.py:26-70 | `start_requests` of a producer: the search requests for pages 1 to its last page, whose properties `StartRequestsSpec` states |
| NewsSearch.StartRequestsSpec | scrapy_proj/yahoo_news/spiders/news_search.py:26-70 | Etoday (lines 26-33) yields exactly pages 1 and 2 and Anue (lines 63-70) exactly page 1, in order, each carrying the stock id and its page |
| NewsSearch.PageUrlInjective | scrapy_proj/yahoo_news/spiders/news_search.py:28 | the page number can be read back from the URL: two pages share a URL only when they are the same page |
| NewsSearch.EtodayEntry | scrapy_proj/yahoo_news/spiders/news_search.py:40-41 | an anchor pushes exactly when its href is present and non-empty |
| NewsSearch.EtodayPayload | scrapy_proj/yahoo_news/spiders/news_search.py:43-47 | `json.dumps` of the dict with keys `link`, `stock_id`, `website` ("Etoday") in that order; `EtodayLookups` reads it back |
| NewsSearch.EtodayPushesSpec | scrapy_proj/yahoo_news/spiders/news_search.py:39-47 | every pushed payload is `{link, stock_id, website: "Etoday"}` for some non-empty href, and every non-empty href is pushed |
| NewsSearch.EtodayParse | scrapy_proj/yahoo_news/spiders/news_search.py:35-48 | the list becomes the payloads in reverse document order ahead of the old entries; after any push the TTL is 30 days, otherwise it is unchanged |
| NewsSearch.AnueEntry | scrapy_proj/yahoo_news/spiders/news_search.py:75-88 | an item yields a payload exactly when its `publishAt` is a timestamp `datetime` can represent |
| NewsSearch.AnuePayload | scrapy_proj/yahoo_news/spiders/news_search.py:82-88 | `json.dumps` of the dict with keys `link`, `stock_id`, `website` ("Anue"), `title`, `datetime` in that order; `AnueLookups` reads it back |
| NewsSearch.AnuePushesSpec | scrapy_proj/yahoo_news/spiders/news_search.py:74-89 | the k-th push is the k-th item's payload: link `https://news.cnyes.com/news/id/` + id, title, and the UTC text of `publishAt`; the loop stops at the first item whose timestamp is out of range |
| NewsSearch.AnueParse | scrapy_proj/yahoo_news/spiders/news_search.py:71-89 | the list and TTL after the loop; the callback raises exactly when some item's timestamp is out of range |
| NewsSearch.MakeRequestFromData | scrapy_proj/yahoo_news/spiders/news_search.py:132-153 | a request comes only from text that decodes to an object whose `link` is a string and is the request's URL, whose `stock_id` is its stock id and whose `website` is "Etoday" or "Anue"; an Anue request carries the object's `datetime`, an Etoday one no date; so a missing key or non-JSON text gives `None` |
| NewsSearch.EtodayRequestOfMembers | scrapy_proj/yahoo_news/spiders/news_search.py:135-143 | a decoded object with string link, a stock id and website "Etoday" gives a request for the link with that meta |
| NewsSearch.AnueRequestOfMembers | scrapy_proj/yahoo_news/spiders/news_search.py:135-146 | an Anue object with a `datetime` gives a request that also carries the date |
| NewsSearch.EtodayLookups | scrapy_proj/yahoo_news/spiders/news_search.py:43-47 | the Etoday payload's members read back as link, stock id and website |
| NewsSearch.AnueLookups | scrapy_proj/yahoo_news/spiders/news_search.py:82-88 | the Anue payload's members read back as link, stock id, website and date text |
| NewsSearch.EtodayRoundTrip | scrapy_proj/yahoo_news/spiders/news_search.py:132-143 | every Etoday payload decodes to the request for its link with its stock id |
| NewsSearch.AnueRequestOfPayload | scrapy_proj/yahoo_news/spiders/news_search.py:132-146 | every Anue payload decodes to the request for its link with its stock id and date text |
| NewsSearch.AnueRoundTrip | scrapy_proj/yahoo_news/spiders/news_search.py:170-177 | from an Anue payload the content spider yields one item; its date is the UTC civil time of `publishAt`, and that time converts back to `publishAt` |
| NewsSearch.RawLinkDropped | scrapy_proj/yahoo_news/spiders/news_search.py:147-153 | a raw URL (not JSON) gives `None` |
| NewsSearch.ContentParse | scrapy_proj/yahoo_news/spiders/news_search.py:155-177 | an Etoday request yields exactly one item when the page has a pubdate that `fromisoformat` accepts, dated by it, and raises otherwise; an Anue request yields exactly one item when its date is a string `strptime` accepts, dated by what it reads, and raises otherwise; the item carries the request's stock id and the page's url, title and content; any other website tag yields nothing |
| Frontier.LinkList.constructor | scrapy_proj/yahoo_news/spiders/news_search.py:93 | an empty list with no TTL |
| Frontier.LinkList.LPush | scrapy_proj/yahoo_news/spiders/news_search.py:43 | the value goes to the head and the TTL is kept |
| Frontier.LinkList.Expire | scrapy_proj/yahoo_news/spiders/news_search.py:48 | an existing list gets the new TTL whatever remained; an empty (absent) key is untouched |
| Frontier.LinkList.PushAndExpire | scrapy_proj/yahoo_news/spiders/news_search.py:43-48 | after a push the TTL is 30 days |
| Frontier.LinkList.PushKept | scrapy_proj/yahoo_news/spiders/news_search.py:39-48 | a loop over elements pushing the kept ones yields their reverse ahead of the old list |
| Frontier.LinkList.PushLeading | scrapy_proj/yahoo_news/spiders/news_search.py:74-89 | a loop that raises at the first element it cannot encode pushes exactly the ones before it |
| Frontier.LPushAllReverses | scrapy_proj/yahoo_news/spiders/news_search.py:43 | pushing values one by one at the head leaves them in reverse order ahead of the old list |
| Frontier.KeptSpec | scrapy_proj/yahoo_news/spiders/news_search.py:39-47 | the kept values are exactly those the per-element step produces |
| Frontier.LeadingSpec | scrapy_proj/yahoo_news/spiders/news_search.py:74-89 | the k-th pushed value is the k-th element's, and the element after the last pushed fails |
| Json.DecodeOfDump | scrapy_proj/yahoo_news/spiders/news_search.py:135 | `json.loads(json.dumps(d))` of a dict of strings is the object with the same members in order |
| Json.Decode | scrapy_proj/yahoo_news/spiders/news_search.py:135 | `json.loads`: a JSON value with white space around it and nothing after it, `None` for a JSONDecodeError; `DecodeOfDump` and `DecodeOfBareWord` state its behaviour |
| Json.DumpStrDict | scrapy_proj/yahoo_news/spiders/news_search.py:43-47 | `json.dumps` of a dict of strings with the default separators and `ensure_ascii` escapes; `DecodeOfDump` is its inverse |
| Json.Lookup | scrapy_proj/yahoo_news/spiders/news_search.py:136-138 | `link_data[key]` is found exactly when some member has the key, and it is that member's value |
| Json.LookupUnique | scrapy_proj/yahoo_news/spiders/news_search.py:136-138 | a key held by one member reads as that member's value |
| Json.DecodeOfBareWord | scrapy_proj/yahoo_news/spiders/news_search.py:147-148 | text starting with no JSON value's first character is a decode error |
| CivilTime.FromTimestamp | scrapy_proj/yahoo_news/spiders/news_search.py:77 | the civil date-time of a Unix timestamp, when `datetime` can hold it, is valid |
| CivilTime.FromTimestampSpec | scrapy_proj/yahoo_news/spiders/news_search.py:77 | a timestamp converts exactly when it lies in years 1..9999, to the day and time of day it denotes |
| CivilTime.FromTimestampOfToTimestamp | scrapy_proj/yahoo_news/spiders/news_search.py:77 | converting a valid date-time to seconds and back gives the same date-time |
| CivilTime.FromOrdinalOfToOrdinal | yahoo_news/yahoo_news/spiders/news_search.py:32 | date to day number and back is the identity, as `timedelta` arithmetic relies on |
| CivilTime.ToOrdinalInjective | yahoo_news/yahoo_news/spiders/news_search.py:35 | distinct dates have distinct day numbers |
| TimeFormat.FormatUtc | scrapy_proj/yahoo_news/spiders/news_search.py:78 | `'%Y-%m-%d %H:%M:%S %Z'` of a UTC time is 23 characters: the fields, then " UTC" |
| TimeFormat.UtcText | scrapy_proj/yahoo_news/spiders/news_search.py:77-78 | the date text exists exactly when the timestamp is in range |
| TimeFormat.ParseUtc | scrapy_proj/yahoo_news/spiders/news_search.py:175 | a result of `strptime(s, '%Y-%m-%d %H:%M:%S %Z')` is a valid date-time and the pattern matched, ignoring case as `re.IGNORECASE` does for ASCII pattern characters (`FoldCase`) |
| TimeFormat.ParseUtcOfFormatUtc | scrapy_proj/yahoo_news/spiders/news_search.py:175 | `strptime` recovers every date-time the producer formats |
| TimeFormat.ParseUtcOfUtcText | scrapy_proj/yahoo_news/spiders/news_search.py:77-78 | `strptime` of the producer's text is the UTC time of the timestamp, which converts back to it |
| StrptimeRegex.Strptime | scrapy_proj/yahoo_news/spiders/news_search.py:175 | a match records one span per directive of the format; characters are compared after `FoldCase`, so an ASCII letter of the pattern also matches its upper case and the non-ASCII characters `re` equates with it |
| StrptimeRegex.FoldCaseOfLetter | scrapy_proj/yahoo_news/spiders/news_search.py:175 | a lower-case ASCII letter of the pattern matches exactly itself, its upper case, U+0130/U+0131 for `i`, U+017F for `s` and U+212A for `k` |
| StrptimeRegex.FoldCaseOfOther | scrapy_proj/yahoo_news/spiders/news_search.py:175 | an ASCII pattern character that is not a letter (a digit, `-`, `:`, space) matches only itself |
| StrptimeRegex.UtcMatch | scrapy_proj/yahoo_news/spiders/news_search.py:175 | a text shaped like the producer's date matches with the six field spans and the zone span |
| StrptimeRegex.IsoMatch | yahoo_news/yahoo_news/spiders/news_search.py:49 | `YYYY-MM-DDTHH:MM:SS.fZ` with 1 to 6 fraction digits matches `'%Y-%m-%dT%H:%M:%S.%fZ'` |
| TimeFormat.ParseIsoZ | yahoo_news/yahoo_news/spiders/news_search.py:49 | a parse gives a valid date-time and microseconds below 1000000 |
| TimeFormat.ParseIsoZOfIsoText | yahoo_news/yahoo_news/spiders/news_search.py:49 | the ISO text of any date-time and fraction parses back to them |
| TimeFormat.FormatSeconds | yahoo_news/yahoo_news/spiders/news_search.py:53 | `'%Y-%m-%d %H:%M:%S'` writes the six fields in 19 characters |
| ArticleTable.InsertOrSkip | yahoo_news/pipelines.py:25-29 | the url is stored afterwards; a stored url keeps its row; a new one gets the item's row; every other row is kept |
| ArticleTable.InsertOrSkipSize | yahoo_news/pipelines.py:28 | one statement adds exactly one row for a new url and none for a stored one |
| ArticleTable.InsertOrSkipIdempotent | yahoo_news/pipelines.py:28 | replaying a statement changes nothing |
| ArticleTable.InsertAll | yahoo_news/pipelines.py:25-36 | after a run of commits the stored urls are the old ones plus those inserted |
| ArticleTable.UrlsSpec | yahoo_news/pipelines.py:63 | a url is stored by a run exactly when some committed row carries it |
| ArticleTable.InsertAllKeeps | yahoo_news/pipelines.py:28 | rows stored before a run are unchanged by it |
| ArticleTable.InsertAllFirstWins | yahoo_news/pipelines.py:28 | a new url holds the first row given for it |
| ArticlePipeline.PostgresPipeline.constructor | yahoo_news/pipelines.py:12-17 | a pipeline in front of the table's existing rows, not yet connected |
| ArticlePipeline.PostgresPipeline.OpenSpider | yahoo_news/pipelines.py:43-68 | the content spider connects and the table keeps its rows; other spiders change nothing |
| ArticlePipeline.PostgresPipeline.ProcessItem | yahoo_news/pipelines.py:19-41 | the item is returned; other spiders leave the table; a commit is insert-or-skip; a rollback leaves the table as before the item |
| ArticlePipeline.PostgresPipeline.CloseSpider | yahoo_news/pipelines.py:70-75 | the content spider disconnects; other spiders change nothing |
| ArticlePipeline.Committed | yahoo_news/pipelines.py:25-36 | the rows committed by a run carry their own url as key, at most one per call; every row is an unrefused item of the run, and every unrefused item gives a row |
| ArticlePipeline.CommittedNext | yahoo_news/pipelines.py:36-40 | one more call inserts its item, or leaves the table under a rollback |
| ArticlePipeline.ProcessNext | yahoo_news/pipelines.py:19-41 | the i-th call of a run returns its item and extends the committed table by it |
| ArticlePipeline.ProcessAll | yahoo_news/pipelines.py:19-41 | a run of calls returns every item unchanged and leaves the committed rows inserted in order |
| BatchPipeline.NormalizeShape | yahoo_news/yahoo_news/pipelines.py:35-36 | the normalised text is single-spaced: no white space at either end, each interior run one space; it has no line feed and no U+200C, and keeps the words of the text |
| BatchPipeline.NormalizeIdempotent | yahoo_news/yahoo_news/pipelines.py:35-36 | normalising twice is normalising once |
| BatchPipeline.Normalize | yahoo_news/yahoo_news/pipelines.py:35-36 | the text without line feeds and U+200C, stripped, split on white space and joined by single spaces; `NormalizeShape` and `NormalizeIdempotent` state its properties |
| BatchPipeline.Prompt | yahoo_news/yahoo_news/pipelines.py:82 | the f-string `title: '<title>'. content: <content>` |
| BatchPipeline.StripTitle | yahoo_news/yahoo_news/pipelines.py:79-80 | the title, if present, is stripped; the keys and every other field are kept |
| BatchPipeline.CompletePrefix | yahoo_news/yahoo_news/pipelines.py:77-81 | the items before the first KeyError all have title and content, and the item where it stops lacks one |
| BatchPipeline.StrippedUpTo | yahoo_news/yahoo_news/pipelines.py:79-80 | the first loop's intermediate state keeps the batch's length |
| BatchPipeline.StrippedStep | yahoo_news/yahoo_news/pipelines.py:80 | stripping the next title extends the stripped prefix by one |
| BatchPipeline.Prepared | yahoo_news/yahoo_news/pipelines.py:77-87 | after the first loop the titles up to and including the item that raised are stripped, and later items are untouched |
| BatchPipeline.PromptsUpTo | yahoo_news/yahoo_news/pipelines.py:82-85 | one prompt per complete item so far, the `j`-th built from the `j`-th item's stripped title and content |
| BatchPipeline.Prompts | yahoo_news/yahoo_news/pipelines.py:82-85 | one prompt per item of the complete prefix |
| BatchPipeline.PromptsAt | yahoo_news/yahoo_news/pipelines.py:82 | the j-th prompt is `title: '<stripped title>'. content: <content>` of the j-th item |
| BatchPipeline.PrepareCleaning | yahoo_news/yahoo_news/pipelines.py:77-87 | for the content spider: the prompts in order, the KeyError exactly when some item lacks a field, and the items as `Prepared`; for others nothing changes |
| BatchPipeline.WriteBack | yahoo_news/yahoo_news/pipelines.py:94-98 | the i-th cleaned content lands in the i-th item, the rest of the item is kept |
| BatchPipeline.CleanOne | yahoo_news/yahoo_news/pipelines.py:34-52 | an item the LLM answers for has its title stripped and its content the LLM's answer to the normalised prompt; the other fields are kept |
| BatchPipeline.Cleaned | yahoo_news/yahoo_news/pipelines.py:77-98 | a batch whose LLM calls all return is cleaned item by item |
| BatchPipeline.CleanedOf | yahoo_news/yahoo_news/pipelines.py:90-98 | writing the gathered answers back index by index gives the cleaned batch, every call having returned |
| BatchPipeline.CleanBatch | yahoo_news/yahoo_news/pipelines.py:52-98 | `gather` raises exactly when some LLM call of the batch raises, and then nothing is written back; otherwise the items become the cleaned batch |
| BatchPipeline.Outcome | yahoo_news/yahoo_news/pipelines.py:55-72 | KeyError exactly for an item lacking a column; rollback for a refused complete one; commit otherwise |
| BatchPipeline.Outcomes | yahoo_news/yahoo_news/pipelines.py:103-108 | one result per insert |
| BatchPipeline.OutcomesAt | yahoo_news/yahoo_news/pipelines.py:108 | the j-th gathered result is the j-th item's outcome |
| BatchPipeline.RowOf | yahoo_news/yahoo_news/pipelines.py:58-66 | the row carries the item's url and stock id |
| BatchPipeline.CommittedRows | yahoo_news/yahoo_news/pipelines.py:55-72 | at most one committed row per insert |
| BatchPipeline.NothingCommitted | yahoo_news/yahoo_news/pipelines.py:62-66 | items that all lack a column commit nothing |
| BatchPipeline.CommittedRowsNext | yahoo_news/yahoo_news/pipelines.py:68-72 | one more insert commits its row or leaves the table |
| BatchPipeline.BatchItems | yahoo_news/yahoo_news/pipelines.py:74-98 | the items after `process_batch`: titles stripped up to the item that raised, or all titles stripped and contents kept when an LLM call raises, or every item cleaned, or untouched for another spider; no field is added or removed |
| BatchPipeline.BatchRaisesSpec | yahoo_news/yahoo_news/pipelines.py:52-108 | `process_batch` raises exactly when, for the content spider, some item lacks a title or a content or some LLM call raises, or when some item lacks a column of the insert, whatever the database answers |
| BatchPipeline.Flatten | yahoo_news/yahoo_news/pipelines.py:117-121 | no batches hold no items |
| BatchPipeline.FlattenSnoc | yahoo_news/yahoo_news/pipelines.py:120 | handing over one more batch appends its items |
| BatchPipeline.FlattenFull | yahoo_news/yahoo_news/pipelines.py:119-121 | full batches hold five items each |
| BatchPipeline.PostgresPipeline.constructor | yahoo_news/yahoo_news/pipelines.py:24-32 | an empty buffer, no batches, the table's existing rows |
| BatchPipeline.PostgresPipeline.OpenSpider | yahoo_news/yahoo_news/pipelines.py:125-146 | connects for every spider and keeps the table's rows |
| BatchPipeline.PostgresPipeline.ProcessItem | yahoo_news/yahoo_news/pipelines.py:116-123 | the item is returned and appended; at five the buffer is handed over as a batch and reset; the buffer stays below five and the batches then the buffer are the items received |
| BatchPipeline.PostgresPipeline.DbInsert | yahoo_news/yahoo_news/pipelines.py:55-72 | the result is the item's outcome; a commit is insert-or-skip, a rollback or KeyError leaves the table |
| BatchPipeline.PostgresPipeline.InsertNext | yahoo_news/yahoo_news/pipelines.py:103-105 | the i-th insert gives the i-th outcome and extends the committed table |
| BatchPipeline.PostgresPipeline.InsertBatch | yahoo_news/yahoo_news/pipelines.py:100-108 | every item is inserted in order: the results are the outcomes and the table is the committed rows inserted in order |
| BatchPipeline.PostgresPipeline.ProcessBatch | yahoo_news/yahoo_news/pipelines.py:74-108 | a KeyError in the first loop, or an LLM call that raises, ends the batch before any insert, with the titles stripped up to and including the item that raised (all of them when the LLM raises) and no content written back; otherwise content items are cleaned and every item is inserted; the items end as `BatchItems` says |
| BatchPipeline.PostgresPipeline.CloseSpider | yahoo_news/yahoo_news/pipelines.py:148-155 | a non-empty buffer becomes the last batch and is processed, the buffer then holding the items as the batch left them and the table its commits; every item received is in exactly one batch, in order, all but the last full; the connection closes exactly when nothing raises, that is when the buffer is empty, or `asyncio.run` may start and the batch, LLM calls included, does not raise |
| YahooSearch.RawEntry | yahoo_news/yahoo_news/spiders/news_search.py:22-23 | a non-empty href is pushed as it is; a missing or empty one is not |
| YahooSearch.RawPushesSpec | yahoo_news/yahoo_news/spiders/news_search.py:20-24 | every pushed link is a non-empty href, and every non-empty href is pushed |
| YahooSearch.Parse | yahoo_news/yahoo_news/spiders/news_search.py:17-25 | the raw links go to the head in reverse document order; the TTL is 30 days after any push |
| YahooSearch.ShiftDays | yahoo_news/yahoo_news/spiders/news_search.py:32 | `t + timedelta(days=k)` exists exactly when the day stays in years 1..9999, and has the shifted day number and the same time of day |
| YahooSearch.ShiftDaysBack | yahoo_news/yahoo_news/spiders/news_search.py:35 | shifting back by the same days returns the original date-time |
| YahooSearch.DateRecognize | yahoo_news/yahoo_news/spiders/news_search.py:28-38 | `date_recognize`: a recognised date keeps the time of day of `now` and comes from a text holding 月 or 天; its three branches are stated by `DateRecognizeRaises` and `DateRecognizeSpec` |
| YahooSearch.DateRecognizeRaises | yahoo_news/yahoo_news/spiders/news_search.py:30 | a leading field that is not an integer raises |
| YahooSearch.DateRecognizeSpec | yahoo_news/yahoo_news/spiders/news_search.py:28-38 | "月" with n <= 2 is 30n days before; otherwise "天" is n days before; otherwise `None`, including "月" with n > 2 |
| YahooSearch.FirstFieldOfSpaced | yahoo_news/yahoo_news/spiders/news_search.py:30 | `split(" ")[0]` of a field followed by a space is that field |
| YahooSearch.DaysAgoText | yahoo_news/yahoo_news/spiders/news_search.py:30-34 | "n 天前" has leading integer n, a "天" and no "月" |
| YahooSearch.ShiftDaysOnto | yahoo_news/yahoo_news/spiders/news_search.py:35 | a date n days before today, at today's clock, goes forward n days to today |
| YahooSearch.DaysAgoRecognized | yahoo_news/yahoo_news/spiders/news_search.py:34-36 | "n 天前" is recognised as the date n days before today |
| YahooSearch.ContentFields | yahoo_news/yahoo_news/spiders/news_search.py:50-55 | the record has exactly the keys title, content, date and url, with the given values |
| YahooSearch.ContentRecord | yahoo_news/yahoo_news/spiders/news_search.py:44-55 | a record is yielded exactly when the time attribute parses, and its date is the parsed time re-formatted |
| YahooSearch.FormatSecondsInjective | yahoo_news/yahoo_news/spiders/news_search.py:53 | the re-formatted date loses nothing but the fraction |
| YahooSearch.ContentDate | yahoo_news/yahoo_news/spiders/news_search.py:48-53 | an ISO time with any fraction becomes the record date of the same fields |
| YahooSearch.ContentBatchStoresNothing | yahoo_news/yahoo_news/spiders/news_search.py:50-55 | the spider's records are complete for cleaning, but whatever the LLM answers, each of them as the batch leaves it makes `db_insert` raise KeyError, so nothing is committed; `process_batch` raises on a non-empty batch of them, so `close_spider` then keeps the connection open |
| Messaging.TagMessage | message_response.py:155-157 | a non-empty `user_info` goes before the message, joined by a space, a vertical bar and a space, and is then cleared; otherwise both are kept |
| Messaging.TagOnce | message_response.py:155-157 | the information prefixes one message only |
| Messaging.TagMessageParts | message_response.py:156 | the saved message reads as the information, the separator, then the message |
| Messaging.HistoryJson | message_response.py:287 | the history is stored exactly when it is non-empty |
| Messaging.HistoryJsonRoundTrip | message_response.py:287 | the stored history reads back with `json.loads` as the history |
| Messaging.MessageResponse.constructor | message_response.py:29-41 | no images, no `user_info`, no `s3_url`, no saved rows |
| Messaging.MessageResponse.GetTempImage | message_response.py:220-222 | the user's stored path, or `None` when there is none |
| Messaging.MessageResponse.StoreTempImage | message_response.py:224-227 | the user's path is replaced and other users' kept; `s3_url` is the latest URL |
| Messaging.MessageResponse.ClearTempImage | message_response.py:229-232 | the user has no path afterwards and others keep theirs; a user without one changes nothing |
| Messaging.MessageResponse.ProcessImageWithInfo | message_response.py:234-267 | `user_info` is set before the request; the reply is passed through |
| Messaging.MessageResponse.SaveChatHistory | message_response.py:273-319 | after a commit a row holds the message, the rephrasing, the pending URL and the history as JSON, and `s3_url` is dropped; a failure changes nothing |
| Messaging.MessageResponse.PerplexityResponse | message_response.py:136-165 | on success the tagged message is saved and the reply and further questions returned; when the chain raises, ("Error", "Error") and nothing changes |
| PyText.StripSpec | yahoo_news/yahoo_news/pipelines.py:79 | `strip()` removes white space runs at both ends only |
| PyText.StripIdempotent | yahoo_news/yahoo_news/pipelines.py:35 | stripping twice is stripping once |
| PyText.Strip | yahoo_news/yahoo_news/pipelines.py:35 | `str.strip()` with Python's white-space set; `StripSpec` states it |
| PyText.Words | yahoo_news/yahoo_news/pipelines.py:36 | `str.split()`: the maximal runs of non-white-space characters, in order |
| PyText.Join | yahoo_news/yahoo_news/pipelines.py:36 | `' '.join(words)` |
| PyText.WordsOfJoin | yahoo_news/yahoo_news/pipelines.py:36 | splitting a space-joined list of words gives the words back |
| PyText.FirstField | yahoo_news/yahoo_news/spiders/news_search.py:30 | `split(" ")[0]` has no space and is the whole text or its part before the first space |
| PyText.ParseIntOfIntToString | yahoo_news/yahoo_news/spiders/news_search.py:30 | `int()` reads back any integer written in decimal |
| PyText.ParseInt | yahoo_news/yahoo_news/spiders/news_search.py:30 | `int(s)` in base 10: optional surrounding white space, one optional sign, digits with single underscores between them; `None` for a ValueError |

## Left out

- Network, HTML and Redis/Postgres clients. Fetching and the PyQuery selectors are inputs: the hrefs, the API's items, and the page texts and attributes. Connections, cursors, `ping`/`llen`/`lrange` and the real TTL clock are left out; the TTL is a field set by each push.
- The database verdict. Whether Postgres rejects a statement is the parameter `refused` (for instance a non-integer `stock_id`), and whether `save_chat_history` commits is the parameter `saved`.
- The LLM chains. `clean_data_async`'s model call is the function parameter `clean`, applied to the normalised prompt, with `None` for a call that raises; `rephrase_user_input`, the conversation chain and `further_question` are parameters of `PerplexityResponse`.
- Concurrency. `asyncio.create_task`, `asyncio.gather`, `run_in_executor` and `ThreadPoolExecutor` are modelled as sequential steps in item order: `ProcessItem` records the batch it hands over and `ProcessBatch` is a separate call; that `create_task` needs a running event loop is not modelled for `ProcessItem`; for `close_spider` whether a loop is already running, which makes `asyncio.run` raise RuntimeError, is the parameter `loopRunning`. An exception leaving `close_spider` is reported as `raised`; what Scrapy then does with it is not modelled.
- BatchPipeline.PostgresPipeline.InsertBatch: a KeyError from one insert makes `gather` raise after the other inserts have run; the model returns it as the `KeyMissing` result instead of raising, and the logging loop (lines 110-114) is left out.
- BatchPipeline.PostgresPipeline.ProcessBatch: the items are an array of dict values, so the aliasing of the dicts between the caller's list and the batch copy is not modelled; the insert loop reads the items after the write-back.
- ArticlePipeline.ProcessAll: the Scrapy engine's sequence of `process_item` calls is modelled as this loop.
- ISO-8601 parsing by `datetime.fromisoformat` (Etoday pubdate) is the abstract partial function `fromIso`.
- The `%Z` directive accepts the names of the parameter `zones` (the host's `tzname` set with "utc" and "gmt"); the host time zone itself is not modelled.
- `settings.py` is not part of this model: `SECOND_IN_ONE_MONTH` is taken as 30 days, 2592000 seconds.
- `datetime.now()` is the parameter `today` of `DateRecognize`, without microseconds; `timedelta`'s own bound on `days` is never reached by a shift that stays in range; `date_recognize` has no caller in the source.
- The timestamp `datetime.now()` written to `chat_history`, and `ConversationBufferWindowMemory`.
- `process_image_with_info`'s file reading, base64 encoding and HTTP request: the reply is the parameter `answer`.
- Messaging.TagMessage: `user_info` is modelled as an optional text only, so other truthy or falsy Python values are not.
- Json.Decode: CPython's `json.loads` raises RecursionError on arrays and objects nested deeper than its recursion limit, and ValueError on an integer literal of more than `sys.get_int_max_str_digits()` digits (4300 by default); the model decodes both, where `make_request_from_data` returns `None`. The producers write neither.
- `json.loads` refuses lone surrogate escapes, which Python accepts, because a Dafny `char` is a Unicode scalar value; `data.decode('utf-8')` is left out and payloads are text.
- PyText.ParseInt: `int()` is modelled for ASCII digits with optional sign, surrounding white space and single underscores between digits; non-ASCII digits and the limit on the number of digits are left out.
- StrptimeRegex.FoldCase: `re.IGNORECASE` lowers every Unicode letter, but the model folds only the ASCII letters and the four non-ASCII characters `re` equates with one; a zone name in `zones` holding a non-ASCII letter is therefore matched case-sensitively at that letter.
- StrptimeRegex.Alternatives: every `\d` of `_strptime`'s patterns is modelled as the ASCII digits `0`-`9`, while Python's `\d` also matches other Unicode decimal digits, which `int()` would then read.
- The `%Z` alternatives `zones` are patterns of at most four characters, so a host whose `time.tzname` holds a longer name (such as `+0545`) is not covered.
- Years below 1000 are written with four digits by `strftime`, which some C libraries do not pad.
- Scrapy's own URL check in `scrapy.Request` (which raises for a link without a scheme) is not modelled.
- KeyError paths for Anue items missing `newsId`, `title` or `publishAt`, and a `publishAt` that `int()` refuses: the items are given already read.
- Orchestration (Celery, Twisted, `CrawlerRunner`, `crawl`), the Flask/LINE front end, Google Maps, Whisper and `utils/extract_data.py` are outside the modelled core.
