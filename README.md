# Books-to-Scrape crawler: a Dafny model

This project models the reusable core of a small teaching web scraper for
`books.toscrape.com`:

- **the resilient fetcher** `requisicao_segura` (`md_pl3_scraping/utils.py`).
  It merges the process-wide `DEFAULT_HEADERS` with the caller's overrides.
  It then makes up to `tentativas` GET attempts. A 4xx other than 429 ends the
  call with nothing. A 429, a 5xx or a network error sleeps `1.5 * i` seconds
  and retries. Anything else is returned with its encoding forced to UTF-8.
- **the record extractor** `extrair_livros` (same file). It builds one record
  per product block: the title, the cleaned price, availability, the rating
  from `RATING_MAP`, and the relative URL.
- **the multi-page crawl** of `md_pl3_scraping/exercicio3_paginacao.py`. It
  fetches `page-1.html`, `page-2.html`, … with three attempts each and extracts
  their books. It stops at the first page that gives no response or no book,
  and keeps the books of earlier pages in order. The summary's count of
  available books (line 84) is modelled too.

Modules, one file each:

- `Wrappers` (`wrappers.dfy`): `Option`.
- `Text` (`text.dfy`): the Python string operations the scraper uses, namely
  `strip`, single-character `replace`, `lower`, the substring test `in`, and
  decimal rendering.
- `Fetch` (`fetch.dfy`): the fetcher.
- `Extract` (`extract.dfy`): the extractor.
- `Crawl` (`crawl.dfy`): the crawl loop.

The environment becomes parameters:

- The HTTP transport is the sequence of `Outcome`s (`Reply(status, body)` or
  `NetworkError`) that the attempts would meet.
- The web server is a function from URL to such a sequence.
- The HTML parser is a function from response text to the product `Block`s
  it would select. A block holds what the parser's queries return: the
  `h3 > a` link, the price and stock texts, and the star-rating class list.
- Sleeping is recorded: `SafeRequest` returns the list of delays it asked for
  and the list of GETs it issued, next to its result.

Each imperative piece of the source is a method with loop invariants:

- `SafeRequest` is the attempt loop.
- `ExtractBooks` is the per-block loop.
- `ScanRating` is the class scan.
- `CrawlCatalogue` is the `while True` crawl.

Each is proved against a reference function (`FetchTrace`, `Books`,
`RatingOf`, `PageBooks` with `Accumulated`). The properties the source
promises are lemmas about those functions.

Points where the code's behaviour is easy to misread; the model follows the code:

- A sleep follows every transient attempt, including the last; the call then
  returns nothing.
- A `title` attribute that is present but empty also falls back to the link
  text, because the code uses `or`.
- A link without `href` gives no relative URL, since `a.get("href")` is
  `None`. The empty-string default is used only when there is no link at all;
  a link with an empty `href` also gives `""`.
- A status of 600 or above is returned as a response, because
  `raise_for_status` raises only for 400..599.

## Model

| member | source | states |
|---|---|---|
| Text.LeadingSpaces | md_pl3_scraping/utils.py:113 | the whitespace prefix that `strip` removes: all whitespace, with no whitespace right after it |
| Text.TrailingSpaces | md_pl3_scraping/utils.py:113 | the whitespace suffix that `strip` removes: all whitespace, with no whitespace right before it |
| Text.Strip | md_pl3_scraping/utils.py:113 | the stripped text is a slice of the input with only whitespace cut from either end, and it neither starts nor ends with whitespace |
| Text.StripTrimmed | md_pl3_scraping/utils.py:113 | text already without whitespace at its ends is unchanged by `strip` |
| Text.StripIdempotent | md_pl3_scraping/utils.py:113 | stripping twice is stripping once |
| Text.RemoveChar | md_pl3_scraping/utils.py:111-112 | `replace(c, "")` leaves no `c`, no longer text, and exactly the other characters that occur in the input |
| Text.RemoveCharCounts | md_pl3_scraping/utils.py:111-112 | every other character is kept as many times as it occurs, and every `c` is dropped |
| Text.RemoveCharConcat | md_pl3_scraping/utils.py:111-112 | removal works piece by piece over a concatenation, so the kept characters stay in their order |
| Text.RemoveAbsentChar | md_pl3_scraping/utils.py:111-112 | removing a character that does not occur changes nothing |
| Text.RemoveLeadingChar | md_pl3_scraping/utils.py:111-112 | a leading occurrence of the removed character disappears |
| Text.Lower | md_pl3_scraping/utils.py:118 | `lower()` keeps the length, replaces every ASCII capital by its small letter, and leaves every other character unchanged |
| Text.Occurs | md_pl3_scraping/utils.py:119 | `p in s` holds exactly when `p` occurs at some index of `s` |
| Text.Decimal | md_pl3_scraping/exercicio3_paginacao.py:30 | the page number rendered by `format` is a non-empty run of digits with no leading zero (a leading `0` only for `0` itself, as the single digit) |
| Text.DecimalRoundTrip | md_pl3_scraping/exercicio3_paginacao.py:30 | reading the rendered digits back gives the page number |
| Fetch.Merge | md_pl3_scraping/utils.py:63-65 | the merged headers have the keys of both maps, an override wins, and every other default is kept |
| Fetch.RequestHeaders | md_pl3_scraping/utils.py:63-65 | the headers sent are the defaults merged with the overrides (none when absent or empty), so every default key is present |
| Fetch.MergeExample | md_pl3_scraping/utils.py:63-65 | overriding `User-Agent` replaces it and keeps `Accept-Language` |
| Fetch.Classify | md_pl3_scraping/utils.py:74-87 | an attempt gives up exactly on a 4xx other than 429, retries exactly on a network error, a 429 or a 5xx, and is returned exactly otherwise |
| Fetch.Budget | md_pl3_scraping/utils.py:69 | `range(1, tentativas + 1)` runs `tentativas` attempts, none when it is negative |
| Fetch.LeadingTransient | md_pl3_scraping/utils.py:69-89 | the attempts before position k are all transient, and the one at k, if any, is not |
| Fetch.LeadingTransientIs | md_pl3_scraping/utils.py:69-89 | that run has length k exactly when the first k outcomes are transient and the next is not |
| Fetch.SafeRequest | md_pl3_scraping/utils.py:43-91 | the result, the GETs issued and the sleeps asked for are those of the reference trace `FetchTrace` |
| Fetch.RequestsSnoc | md_pl3_scraping/utils.py:69-71 | one more attempt adds one GET, numbered next |
| Fetch.BackoffSnoc | md_pl3_scraping/utils.py:89 | one more transient attempt adds a sleep of 1.5 times its number |
| Fetch.StopsAt | md_pl3_scraping/utils.py:69-80 | when attempt i is the first that is not transient, the call makes exactly i GETs and i - 1 sleeps, and returns attempt i's answer if it is accepted, else nothing |
| Fetch.RequestsCarryMergedHeaders | md_pl3_scraping/utils.py:63-71 | every GET carries the URL, the merged headers and the timeout, numbered 1, 2, … |
| Fetch.ClientErrorIsDefinitive | md_pl3_scraping/utils.py:75-76 | a 4xx other than 429 on attempt i returns nothing after exactly i GETs, with only the i - 1 earlier sleeps |
| Fetch.FirstClientErrorStopsAtOnce | md_pl3_scraping/utils.py:69-76 | such a status on the first attempt: one GET, no sleep, nothing returned |
| Fetch.AcceptedIsReturned | md_pl3_scraping/utils.py:79-80 | an accepted status on attempt i is returned with its body and UTF-8 encoding, after exactly i GETs and i - 1 sleeps |
| Fetch.AllTransientExhausts | md_pl3_scraping/utils.py:82-91 | all attempts transient: exactly `tentativas` GETs, sleeps of 1.5, 3.0, 4.5, … after each, nothing returned |
| Fetch.NoBudgetNoRequest | md_pl3_scraping/utils.py:69-91 | with `tentativas <= 0` nothing is requested, slept or returned |
| Fetch.TraceShape | md_pl3_scraping/utils.py:67-91 | for every call: at most `tentativas` GETs; as many sleeps as GETs or one fewer; every attempt before the last was transient; nothing is returned when the last attempt slept; a returned response is the last attempt's accepted answer |
| Extract.Title | md_pl3_scraping/utils.py:104 | the title is the link's non-empty `title` attribute, else its text, and empty without a link |
| Extract.RelativeUrl | md_pl3_scraping/utils.py:105 | the relative URL is the link's `href` (none when the attribute is missing), and empty without a link |
| Extract.Unmarked | md_pl3_scraping/utils.py:110-112 | the price text with every `Â` and `£` removed holds exactly the other characters of the raw text |
| Extract.CleanPrice | md_pl3_scraping/utils.py:109-114 | the cleaned price is a slice of the `Â`/`£`-free text with only whitespace cut from its two ends; it holds no `Â` or `£`, has no whitespace at either end, and holds only characters of the raw text |
| Extract.CleanPoundPrice | md_pl3_scraping/utils.py:107-114 | `£` followed by an amount, with or without a leading mis-decoded `Â`, cleans to that amount |
| Extract.DefaultPriceCleans | md_pl3_scraping/utils.py:108-114 | the default `£0.00` cleans to `0.00` |
| Extract.PriceOf | md_pl3_scraping/utils.py:107-114 | the price is the cleaned price text, or `0.00` without a price node, and is free of `Â`, `£` and surrounding whitespace |
| Extract.PriceOfCleansText | md_pl3_scraping/utils.py:107-114 | the price is the cleaning of the price text, or of `£0.00` when the node is absent |
| Extract.PriceExamples | md_pl3_scraping/utils.py:108-114 | `£51.77` and `Â£51.77` both clean to `51.77` |
| Extract.InStock | md_pl3_scraping/utils.py:117-119 | available exactly when there is a stock node and `in stock` occurs in its lower-cased text |
| Extract.AvailabilityExamples | md_pl3_scraping/utils.py:117-119 | `In stock (22 available)` is available; `Out of stock` and a missing node are not |
| Extract.FirstRating | md_pl3_scraping/utils.py:121-127 | a rating exists exactly when some class is in `RATING_MAP`; it lies in 1..5 and is the value of the first such class |
| Extract.RatingOf | md_pl3_scraping/utils.py:121-127 | a block's rating lies in 1..5 and needs a rating node; it is absent exactly when there is no node or no class of the node is in `RATING_MAP` |
| Extract.ScanRating | md_pl3_scraping/utils.py:121-127 | the scan that breaks at the first known class gives the block's rating, none without a rating node |
| Extract.RatingExamples | md_pl3_scraping/utils.py:121-127 | the classes `star-rating Three` rate 3; an unknown word and a missing node rate nothing |
| Extract.BookOf | md_pl3_scraping/utils.py:129-137 | a record's rating lies in 1..5, and a record is available only when its block has a stock node |
| Extract.BookFields | md_pl3_scraping/utils.py:102-137 | each field follows its rule: title from the non-empty `title` else the link text, href, price, availability, and a rating in 1..5 present exactly when some class is known |
| Extract.ExtractBooks | md_pl3_scraping/utils.py:98-139 | one record per block, in block order, each the block's record |
| Extract.BooksSnoc | md_pl3_scraping/utils.py:129-137 | appending one block's record extends the records of the blocks before it |
| Crawl.PageUrl | md_pl3_scraping/exercicio3_paginacao.py:16-30 | the URL is the part of `url_base` before `{}`, then the page number in decimal, then `.html` |
| Crawl.PageUrlInjective | md_pl3_scraping/exercicio3_paginacao.py:30 | distinct page numbers give distinct URLs |
| Crawl.FetchPage | md_pl3_scraping/exercicio3_paginacao.py:30-40 | fetching one page with three attempts and extracting its books gives that page's outcome `PageBooks` |
| Crawl.CountAvailable | md_pl3_scraping/exercicio3_paginacao.py:84 | the count is at most the number of books; it is 0 exactly when none is available and the total exactly when all are |
| Crawl.CountAvailableAppend | md_pl3_scraping/exercicio3_paginacao.py:84 | the count over two lists of books is the sum of the counts |
| Crawl.CrawlCatalogue | md_pl3_scraping/exercicio3_paginacao.py:29-84 | the crawl stops at the first page that gives no response or no book; it requests pages 1 … that page in order; it keeps the books of every earlier page in page order; and it reports the available count only when some book was kept; its stopping page is the catalogue's first stop, which `StopPageIsFirst` makes unique |
| Crawl.PagesUpToCounts | md_pl3_scraping/exercicio3_paginacao.py:29-57 | the pages requested are n in number, page k + 1 at position k |
| Crawl.AccumulateStep | md_pl3_scraping/exercicio3_paginacao.py:56 | a page that gives books extends the kept books by exactly those books |
| Crawl.AccumulatedPrefix | md_pl3_scraping/exercicio3_paginacao.py:56 | the books kept after fewer pages are a prefix of those kept after more |
| Crawl.AccumulatedPlacesPage | md_pl3_scraping/exercicio3_paginacao.py:56 | the books of page q sit in the kept books right after those of pages 1 .. q - 1 |
| Crawl.AvailablePerPage | md_pl3_scraping/exercicio3_paginacao.py:84 | the available count of the kept books adds up page by page |
| Crawl.StopIsFirstStop | md_pl3_scraping/exercicio3_paginacao.py:29-44 | a stopping page with no stopping page before it is the catalogue's first stop |
| Crawl.StopPageIsFirst | md_pl3_scraping/exercicio3_paginacao.py:29-44 | the page the crawl stops at is unique: the first stopping page |
| Crawl.TwoPageCatalogue | md_pl3_scraping/exercicio3_paginacao.py:29-57 | with page 1 answering two blocks and page 2 none, the crawl stops at page 2, having requested pages 1 and 2 only, with exactly the two records of page 1 |

## Left out

- The HTTP session and transport (`requests.Session`, the `session` parameter): each attempt's outcome is an input instead.
- Timeouts and connection errors are not told apart: both are `NetworkError`, and both are retried alike.
- `Fetch.SafeRequest`: an attempt's outcome is a reply or a network error only. Other exceptions that `sess.get` can raise are not modelled, such as `TooManyRedirects`, `ChunkedEncodingError`, `ContentDecodingError` and `InvalidURL` (utils.py:71). The `except` clauses at utils.py:82-87 do not catch them, so in the source they escape `requisicao_segura` and end the crawl.
- `time.sleep`: this is a blocking wait on the clock, so the delays are recorded instead.
- BeautifulSoup parsing and CSS selection (`select`, `select_one`, `get_text`): this is foreign code. Its results for a block are the fields of `Block`, and the parse of a page is a parameter.
- `float(preco_limpo)`: floating-point parsing is not modelled. The price is the cleaned text handed to `float`, so a malformed price that would raise `ValueError` is not flagged.
- `Text.Lower`: lower-cases ASCII letters only, whereas `str.lower()` follows Unicode. This matters only for non-ASCII stock text.
- `Fetch.SafeRequest`: takes `timeout` and `tentativas` explicitly. The defaults of `requisicao_segura` (`timeout=10`, `tentativas=3`, utils.py:46-47) are not modelled, because the crawl passes both (exercicio3_paginacao.py:34).
- `Fetch.SafeRequest`: requires at least `tentativas` outcomes, one for every attempt the loop could make.
- `Crawl.CrawlCatalogue`: requires that some page stops the crawl. A catalogue without one would be crawled forever, and non-termination is not modelled.
- The web server is assumed to answer a URL the same way every time it is asked.
- `random.uniform(1, 3)` and the politeness delay between pages (exercicio3_paginacao.py:59-61): randomness and the clock, with no effect on the result.
- The console output and its redirection to the output file: this is I/O only.
- `ensure_dados_dir` creates a directory, which is I/O only.
- The CSV and JSON export (exercicio3_paginacao.py:68-77) writes files through pandas. This is foreign code and file I/O.
- The most expensive book and the rating distribution of the summary are computed by pandas and only printed.
- `exercicio1_http.py`, `exercicio2_seletores.py` and `exercicio4_selenium.py` lie outside the core modelled here.
