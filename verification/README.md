# News monitoring: a Dafny model

This project models the core of a small news-monitoring system. The system has two services, and both share one document-store controller.

- **Ingestion service.** It runs about once an hour. It compiles a keyword list into search terms and pages through a news search provider for each term. It stores the articles it has not stored before, then records how many it added.
- **Transformer service.** It runs about once a day. It folds the stored articles into nested counters: per publication year, month and date; per source and author; and per search term and period. It stores the resulting report.

The model is organised as follows.

- `results.dfy` (module `Results`): `Option`, `Result` and the exceptions the code raises.
- `text.dfy` (module `Text`): the Python string operations the code relies on: `str.lower` (ASCII letters only), `str.strip` and `str.split()` with no arguments.
- `terms.dfy` (module `Terms`): the term compiler (`_make_search_terms`) and the query string builder (`_make_search_str`).
- `crawler.dfy` (module `Crawler`): the paginated fetch `get_news`.
  - The search provider is an oracle `Api` from query parameters to one of three responses: a page, a non-200 status, or a transport failure.
  - The query parameters are one record shared across terms, as in the code.
- `clock.dfy` (module `Clock`): timestamps as integer seconds, `timedelta.days` and `timedelta.seconds`, and the sentinel date 2000-12-31.
- `dates.dfy` (module `Dates`): `datetime.strptime(text, "%Y-%m-%d")`, with its regular-expression matching (including backtracking), and the `%Y`, `%Y-%m` and `%Y-%m-%d` keys.
- `store.dfy` (module `Store`): the controller.
  - Collection-name validation.
  - `insert_data` and `read_data` over a sequence of stamped documents.
  - `retrieve_last_monitoring_dt` and `is_document_already_inserted`.
- `sums.dfy` (module `Sums`): totals of counter maps.
- `aggregation.dfy` (module `Aggregation`): `_transform_data`, its reference definition (the facts each article contributes) and the exact-count theorems.
- `monitoring.dfy` (module `Monitoring`): one run of each service over the three collections (news, production, monitoring).

Several inputs of a run are parameters:

- the clock reading at its start;
- the clock reading at each of its writes;
- whether each write succeeds;
- the order in which the set of compiled terms is iterated.

Some behaviours of the code are easy to misread; the model follows the code:

- **The duplicate key has three fields:** source name, title and publication time. The search term is not part of it.
- **Only a non-200 first page is isolated to its term.** That page reads as zero results. A non-200 later page, or a transport failure on any page, ends the whole stream with an exception.
- **Service names are only partly normalised.** They are validated after lower-casing and stripping, but records are matched against the name exactly as given.
- **The ingestion gate reads only the seconds part of the elapsed time** (`timedelta.seconds`). The days part is ignored.
- **The query string builder does not lower-case.** It only strips multi-word terms before quoting them.

## Model

| member | source | states |
|---|---|---|
| Text.SplitCountsWords | acquisition/News.py:23 | `len(term.split()) > 1` holds exactly when the term contains two words separated by whitespace |
| Text.StripPadded | acquisition/News.py:38-40 | stripping whitespace from both ends gives back any core that starts and ends with non-whitespace |
| Terms.FormatTerm | acquisition/News.py:37-40 | a multi-word term becomes its lower-cased, stripped form in double quotes; any other term becomes its lower-cased, stripped form |
| Terms.FormatTermIsLowerCase | acquisition/News.py:38-40 | a compiled term contains no ASCII capital letter |
| Terms.CompileTermsSnoc | acquisition/News.py:35-40 | adding a keyword adds exactly its compiled form to the set of compiled terms |
| Terms.ListSet | acquisition/News.py:42 | `list(set)` lists every member of the set exactly once and nothing else |
| Terms.MakeSearchTerms | acquisition/News.py:34-42 | the result has no duplicates, and a string is in it exactly when it is the compiled form of some input keyword |
| Terms.DropsAppendedSeparator | acquisition/News.py:30 | removing a trailing `" OR "` undoes appending one |
| Terms.MakeSearchStr | acquisition/News.py:20-31 | the query is the stripped `" OR "`-join of the pieces (multi-word terms stripped and quoted, others as given); it is empty for no terms and never ends with `" OR "` |
| Crawler.TotalPages | acquisition/News.py:81-82 | the page count N is `ceil(total / 100)`: 100(N-1) < total <= 100N |
| Crawler.Tag | acquisition/News.py:102-109 | every article of a page is yielded in order, carrying the term as `search_term` |
| Crawler.FetchPagesRequests | acquisition/News.py:93-96 | pages after the first are requested in order with `page` set to 2, 3, ...; they are all requested unless one fails, and the stream stops at the first failure |
| Crawler.FetchPagesParams | acquisition/News.py:93-96 | requesting later pages changes only `page` in the shared parameters; when all succeed it is left at the last page |
| Crawler.FetchPagesArticles | acquisition/News.py:96-109 | the articles of the later pages are the provider's articles for those requests, in request order, tagged with the term |
| Crawler.FetchTermRequests | acquisition/News.py:74-96 | a term's first request carries the term and whatever `page` the shared parameters hold; later requests ask for pages 2, 3, ... |
| Crawler.FetchTermCost | acquisition/News.py:76-96 | a term costs max(1, ceil(total/100)) requests when no request raises; otherwise the last request made is the failed one |
| Crawler.FetchTermErrorStatus | acquisition/News.py:76-79 | a non-200 first response is caught: the term yields nothing and the stream goes on |
| Crawler.FetchTermNoResults | acquisition/News.py:81-93 | a first page reporting no results yields nothing, makes no further request and does not stop the stream |
| Crawler.FetchTermUnreachable | acquisition/News.py:44-45 | a transport failure on the first request is not caught: the stream ends with nothing from that term |
| Crawler.FetchTermArticles | acquisition/News.py:93-109 | a term's articles are the articles of its pages in request order, tagged with the term, and none when the first response reports no results |
| Crawler.FetchTermParams | acquisition/News.py:74-95 | a completed term leaves its own `q` in the shared parameters, and its last page number when it had two or more pages |
| Crawler.FetchTermsTagged | acquisition/News.py:61-74 | every article carries one of the terms; every request keeps the starting window, language, sort order and key |
| Crawler.FetchTermsOrdered | acquisition/News.py:70-109 | with distinct terms, articles of a later term never come before articles of an earlier term |
| Crawler.StalePage | acquisition/News.py:74-95 | when a term completes with N >= 2 pages, the next term's first request still asks for page N |
| Crawler.FetchTermsQueries | acquisition/News.py:70-74 | every request asks for one of the terms being iterated |
| Crawler.GetNewsStream | acquisition/News.py:56-109 | every article's term is a compiled term; every request uses the `publishedAt` sort, the given window, language and key, and asks for a compiled term; the first request is for the first term in iteration order |
| Clock.DeltaDays | monitoring/Transformer.py:78 | `timedelta.days` is the floor of the difference in days, also for negative differences |
| Clock.DeltaSeconds | monitoring/Service.py:23 | `timedelta.seconds` lies in [0, 86400) and differs from the difference by whole days |
| Clock.DeltaNormalisationUnique | monitoring/Service.py:23 | any split of a difference into whole days plus a remainder in [0, 86400) is the one `timedelta` uses |
| Clock.SentinelIsLastDayOf2000 | controller/Database.py:67-68 | the sentinel timestamp is midnight of 2000-12-31 |
| Dates.DatePart | monitoring/Transformer.py:37 | `split("T")[0]` is the longest prefix without a `T` |
| Dates.ParseDate | monitoring/Transformer.py:37 | an accepted text has 8 to 10 characters and gives a real calendar date; a rejected text raises with that text |
| Dates.ParseDateKey | monitoring/Transformer.py:37-38 | parsing the `%Y-%m-%d` key of a date gives the date back |
| Dates.DateKeyInjective | monitoring/Transformer.py:38 | distinct dates have distinct date keys |
| Dates.KeysArePrefixes | monitoring/Transformer.py:38 | the month key is the first seven characters of the date key, and for years from 1000 the year key is its first four |
| Dates.PaddedTextIsDateKey | monitoring/Transformer.py:37-38 | a 10-character zero-padded text that parses is exactly the date key of its date |
| Dates.ParseDateAccepts | monitoring/Transformer.py:37 | `strptime` accepts unpadded months and days, a space-padded day, and 29 February of a leap year |
| Dates.ParseDateRejects | monitoring/Transformer.py:37 | `strptime` rejects 29 February of a common year, month 13, trailing characters and year 0 |
| Store.OpenCollection | controller/Database.py:18-29 | a name is accepted exactly when its lower-cased, stripped form is one of the three collections, which then is the active collection; otherwise it raises with the name given |
| Store.OpenCollectionPadded | controller/Database.py:19-28 | any case or surrounding whitespace around a collection name opens that collection |
| Store.OpenCollectionShape | controller/Database.py:19-28 | an accepted name is a valid collection name in some case, with only whitespace around it |
| Store.InsertData | controller/Database.py:40-54 | an accepted insert appends the document stamped with the clock and returns True; a rejected one leaves the collection as it was and returns False |
| Store.ReadData | controller/Database.py:56-57 | reading yields the stored documents in insertion order |
| Store.ReadAfterInsert | controller/Database.py:40-57 | a read after an accepted insert yields the earlier documents followed by the new one |
| Store.Latest | controller/Database.py:66 | the descending `find_one` finds nothing exactly when no record has the service, and otherwise the largest `entry_dt` among its records |
| Store.RetrieveLastMonitoringDt | controller/Database.py:59-71 | a name whose lower-cased, stripped form is not a service raises with the name given; otherwise the result is the latest `entry_dt` of records with exactly that name, or the sentinel when there is none |
| Store.ServiceNamesValid | controller/Database.py:60-64 | the names the two services pass are accepted |
| Store.RawServiceNameQueried | controller/Database.py:61-66 | `"Monitoring"` passes validation but matches no stored `"monitoring"` record, so the sentinel comes back |
| Store.CountDocuments | controller/Database.py:80 | the count is zero exactly when no stored article has the key |
| Store.IsDocumentAlreadyInserted | controller/Database.py:73-84 | true exactly when some stored article agrees on source name, title and publication time |
| Store.InsertedIsPresent | controller/Database.py:40-84 | after an accepted insert, any article with the same key counts as already inserted |
| Store.InsertPresence | controller/Database.py:40-84 | after an insert a key is present exactly when it was before, or the insert was accepted and has that key |
| Store.InsertFreshKeepsNoDuplicates | controller/Database.py:40-84 | inserting an article whose key is absent keeps every key unique |
| Sums.BumpTotal | monitoring/Transformer.py:39-59 | creating a counter at 0 when missing and adding 1 raises the total by exactly one |
| Aggregation.Facts | monitoring/Transformer.py:28-38 | the facts exist exactly when every date parses, and then there is one per article: its term, its year, month and date keys, and its source and author; otherwise the error is that of the first bad date |
| Aggregation.TransformFromFacts | monitoring/Transformer.py:28-74 | the loop succeeds exactly when every date parses, and then records the articles' facts in order |
| Aggregation.TransformTotals | monitoring/Transformer.py:39-72 | the counts of each period add up to the number of articles, as do the source/author counts; each term's counts add up to that term's articles |
| Aggregation.TransformDescribes | monitoring/Transformer.py:28-74 | each counter holds exactly the keys the articles produce, each with the number of articles producing it |
| Aggregation.TransformTerms | monitoring/Transformer.py:29-35 | the keyword counters have an entry exactly for the search terms of the stored articles |
| Aggregation.TransformPositive | monitoring/Transformer.py:39-72 | every count present in the report is at least one |
| Aggregation.TransformUnknown | monitoring/Transformer.py:61-72 | an article without a source name or author is counted under "Unknown" |
| Aggregation.TransformFails | monitoring/Transformer.py:37 | the aggregation raises exactly when some stored date fails to parse, with the first such date's text |
| Monitoring.Ingest | monitoring/Service.py:37-57 | the loop only appends to the news collection, and the count is the number of documents it appended |
| Monitoring.IngestPresence | monitoring/Service.py:38-51 | after the loop a key is present exactly when it was before, or some fetched article with that key was written successfully |
| Monitoring.IngestAdds | monitoring/Service.py:38-51 | every appended document is a fetched article not present before, stamped with the clock of its own successful write |
| Monitoring.IngestNoDuplicates | monitoring/Service.py:38-51 | if the news collection had unique keys, it still has them after the loop |
| Monitoring.IngestAllPresent | monitoring/Service.py:39-43 | when every fetched article is already present, nothing is written and the count is zero |
| Monitoring.IngestAgain | monitoring/Service.py:38-51 | when every write succeeded, running the loop again on the same articles adds nothing |
| Monitoring.IngestSameKeyTwice | monitoring/Service.py:38-51 | two fetched articles with the same new key give one stored document and a count of one |
| Monitoring.LastRunRetrieves | controller/Database.py:59-71 | both services get, from `retrieve_last_monitoring_dt`, their latest record's time, or the sentinel |
| Monitoring.Collect | monitoring/Service.py:37-59 | stores the fetched articles; raises with the monitoring collection unchanged when the fetch raised; otherwise appends one record with the terms and the number added; production is untouched |
| Monitoring.ServiceRun | monitoring/Service.py:21-59 | waits exactly when the seconds part of the elapsed time is under 3600, for the rest of the hour and without writing; otherwise only appends news and at most one monitoring record |
| Monitoring.DayAndTenMinutesGates | monitoring/Service.py:23-29 | one day and ten minutes after the last run, the gate waits 3000 seconds, because only the seconds part is read |
| Monitoring.FirstRunNearMidnightWaits | monitoring/Service.py:22-29 | with no earlier record, a run in the first hour of any day waits for the rest of that hour |
| Monitoring.ServiceRunRecords | monitoring/Service.py:37-59 | after the gate: the news are the ingested ones; the run raises exactly when the fetch did; otherwise a record with the terms and the count is appended exactly when its write succeeds |
| Monitoring.TransformerRun | monitoring/Transformer.py:76-94 | waits exactly when less than a whole day has passed (for 86400 minus the days); past the gate it raises exactly when the aggregation fails, without writing and with the text of the first stored date that does not parse; otherwise it completes and writes the report and a record independently, each when its write succeeds |
| Monitoring.TransformerWaitsAtLeastADay | monitoring/Transformer.py:79-84 | a waiting run always waits at least 86400 seconds |
| Monitoring.ReportDependsOnNewsOnly | monitoring/Transformer.py:91-92 | the stored report depends only on the news collection |

## Left out

- The HTTP client, the MongoDB driver, `.env` loading and environment variables are not modelled. The provider is the `Api` oracle; insert success and `utcnow()` at each write are the `Writes` parameters; the API key is a parameter.
- Logging, progress bars and `sleep` are not modelled: a waiting run is modelled by the length of its wait.
- The `while True` loops of both entry points are not modelled: each run is one step over the database state.
- The request window (`from`/`to`, built with `strftime` from `datetime.now()` and `since_hours`) is not modelled: its strings are parameters.
- `datetime.now()` and `datetime.utcnow()` are not modelled: they are clock parameters. Time is whole seconds, and microseconds and the store's millisecond precision are dropped.
- Unicode case mapping and Unicode digits in `strptime` are not modelled: lower-casing and digits are ASCII only. Whitespace follows `str.isspace`, including the Unicode spaces.
- Crawler.TotalPages: does not model float rounding in `ceil(total / 100)`, because it is exact integer division rounding up.
- The iteration order of `list(set(...))` is not modelled: it is the `order` parameter, constrained to list each compiled term exactly once.
- The order of `find()` is not modelled: it is taken to be insertion order.
- Dates.KeysArePrefixes: `%Y` zero-padding for years below 1000 is platform-dependent, so the year-key claim is stated only for years from 1000.
- Dates.MonthKey and Dates.DateKey: they assume `%Y` pads the year to four digits (as glibc does not below year 1000), so for such years ParseDateKey, PaddedTextIsDateKey and the month and date keys of TransformDescribes describe the four-digit form.
- Articles whose `publishedAt` or `title` is `None`, or which lack a key, are not modelled: both are strings here. A missing field would raise in the source.
- Monitoring.ServiceRun: takes the keyword list as a parameter `terms`; the service itself passes the fixed list "genomics", "dna", "genetic diseases", which the model does not single out.
- Concurrent runs are not modelled, so the non-atomic check-then-insert is not modelled either.
- Keyword-entry creation before the date parse is not modelled separately: a failed parse discards the whole dictionary, so only the error is observable.
- api/Webhook.py and controller/News.py are not part of this model.
