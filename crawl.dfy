/**
 * The crawl loop of `exercicio3_paginacao.py`: fetch catalogue page 1, 2, 3,
 * ... with three attempts each, extract its books, and stop at the first page
 * that cannot be fetched or that yields no book; then the count of available
 * books for the summary.
 *
 * The web server is a function from URL to the outcomes its attempts would
 * get, and the HTML parser a function from response text to product blocks.
 */
module Crawl {
  import opened Wrappers
  import opened Text
  import Fetch
  import opened Extract

  /** The two halves of `url_base` around its `{}` placeholder. */
  const UrlPrefix: string := "http://books.toscrape.com/catalogue/page-"
  const UrlSuffix: string := ".html"

  /** `url_base.format(pagina)`. */
  function PageUrl(page: nat): (u: string)
    ensures |u| == |UrlPrefix| + |Decimal(page)| + |UrlSuffix|
    ensures u[..|UrlPrefix|] == UrlPrefix
    ensures u[|UrlPrefix|..|UrlPrefix| + |Decimal(page)|] == Decimal(page)
    ensures u[|UrlPrefix| + |Decimal(page)|..] == UrlSuffix
  {
    UrlPrefix + Decimal(page) + UrlSuffix
  }

  /** Every page has its own URL, so the loop never asks for the same URL twice. */
  lemma PageUrlInjective(p: nat, q: nat)
    requires PageUrl(p) == PageUrl(q)
    ensures p == q
  {
    var u := PageUrl(p);
    var dp, dq := Decimal(p), Decimal(q);
    assert |dp| == |dq|;
    assert dp == u[|UrlPrefix|..|UrlPrefix| + |dp|];
    assert dq == u[|UrlPrefix|..|UrlPrefix| + |dq|];
    DecimalRoundTrip(p);
    DecimalRoundTrip(q);
  }

  /** The loop fetches every page with `timeout=15, tentativas=3` and no header overrides. */
  const Timeout: int := 15
  const Attempts: int := 3

  /** Every URL has an outcome ready for each attempt the loop may make. */
  ghost predicate ServerAnswers(server: string -> seq<Fetch.Outcome>) {
    forall u :: Attempts <= |server(u)|
  }

  /** What one page gives the loop: no response, or the books extracted from the response text. */
  function PageBooks(server: string -> seq<Fetch.Outcome>, parse: string -> seq<Block>, page: nat): Option<seq<Book>>
    requires ServerAnswers(server)
  {
    var url := PageUrl(page);
    match Fetch.FetchResult(Attempts, server(url))
    case None => None
    case Some(r) => Some(Books(parse(r.text)))
  }

  /** What every page gives the loop, page by page. */
  type Catalogue = nat -> Option<seq<Book>>

  function CatalogueOf(server: string -> seq<Fetch.Outcome>, parse: string -> seq<Block>): (c: Catalogue)
    requires ServerAnswers(server)
    ensures forall p :: c(p) == PageBooks(server, parse, p)
  {
    (p: nat) => PageBooks(server, parse, p)
  }

  /** The loop stops at a page that gives no response or no book. */
  predicate Stops(p: Option<seq<Book>>) {
    p.None? || p.value == []
  }

  /** `last` is the first page that stops the loop. */
  ghost predicate FirstStop(c: Catalogue, last: nat) {
    1 <= last && Stops(c(last)) && forall q :: 1 <= q < last ==> !Stops(c(q))
  }

  /** The pages 1 .. n, in order. */
  function PagesUpTo(n: nat): seq<nat> {
    if n == 0 then [] else PagesUpTo(n - 1) + [n]
  }

  /** The pages 1 .. n are n pages, page k + 1 at position k. */
  lemma {:induction false} PagesUpToCounts(n: nat)
    ensures |PagesUpTo(n)| == n
    ensures forall k :: 0 <= k < n ==> PagesUpTo(n)[k] == k + 1
  {
    if n > 0 {
      PagesUpToCounts(n - 1);
    }
  }

  /** The books of pages 1 .. n - 1, in page order. */
  function Accumulated(c: Catalogue, n: nat): seq<Book> {
    if n <= 1 then [] else Accumulated(c, n - 1) + c(n - 1).GetOr([])
  }

  /** The number of available books (`df["disponibilidade"].sum()`). */
  function CountAvailable(books: seq<Book>): (r: nat)
    ensures r <= |books|
    ensures r == 0 <==> forall k :: 0 <= k < |books| ==> !books[k].available
    ensures r == |books| <==> forall k :: 0 <= k < |books| ==> books[k].available
  {
    if books == [] then 0
    else
      var rest := CountAvailable(books[1..]);
      assert forall k :: 1 <= k < |books| ==> books[k] == books[1..][k - 1];
      (if books[0].available then 1 else 0) + rest
  }

  /**
   * The `while True` loop and the available count of the summary. It returns
   * the accumulated books, the pages requested in order, the page it stopped
   * at, and the available count, which the summary reports only when some
   * book was extracted.
   *
   * The loop ends only if some page stops it; a catalogue without one would
   * be crawled forever.
   */
  method CrawlCatalogue(server: string -> seq<Fetch.Outcome>, parse: string -> seq<Block>)
    returns (todosLivros: seq<Book>, requested: seq<nat>, lastPage: nat, available: Option<nat>)
    requires ServerAnswers(server)
    requires exists p: nat :: 1 <= p && Stops(PageBooks(server, parse, p))
    ensures 1 <= lastPage && Stops(PageBooks(server, parse, lastPage))
    ensures forall q :: 1 <= q < lastPage ==> !Stops(PageBooks(server, parse, q))
    ensures FirstStop(CatalogueOf(server, parse), lastPage)
    ensures requested == PagesUpTo(lastPage)
    ensures todosLivros == Accumulated(CatalogueOf(server, parse), lastPage)
    ensures available == if todosLivros == [] then None else Some(CountAvailable(todosLivros))
  {
    ghost var bound: nat :| 1 <= bound && Stops(PageBooks(server, parse, bound));
    todosLivros, requested := [], [];
    var pagina: nat := 1;
    while true
      invariant 1 <= pagina <= bound
      invariant requested == PagesUpTo(pagina - 1)
      invariant forall q :: 1 <= q < pagina ==> !Stops(PageBooks(server, parse, q))
      invariant todosLivros == Accumulated(CatalogueOf(server, parse), pagina)
      decreases bound - pagina
    {
      requested := requested + [pagina];
      var livros := FetchPage(server, parse, pagina);
      if livros.None? || livros.value == [] {
        lastPage := pagina;
        break;
      }
      assert pagina != bound;
      AccumulateStep(server, parse, pagina, livros.value);
      todosLivros := todosLivros + livros.value;
      ghost var done := pagina;
      pagina := pagina + 1;
      forall q | 1 <= q < pagina ensures !Stops(PageBooks(server, parse, q)) {
        if q < done { } else { assert q == done; }
      }
    }
    StopIsFirstStop(server, parse, lastPage);
    available := if todosLivros == [] then None else Some(CountAvailable(todosLivros));
  }

  /** A page that stops the crawl with no earlier page doing so is the first stop of the catalogue. */
  lemma StopIsFirstStop(server: string -> seq<Fetch.Outcome>, parse: string -> seq<Block>, last: nat)
    requires ServerAnswers(server)
    requires 1 <= last && Stops(PageBooks(server, parse, last))
    requires forall q :: 1 <= q < last ==> !Stops(PageBooks(server, parse, q))
    ensures FirstStop(CatalogueOf(server, parse), last)
  {
  }

  /**
   * One pass of the loop body up to the emptiness test: request the page with
   * `requisicao_segura(url, timeout=15, tentativas=3)` and, when a response
   * comes back, extract its books.
   */
  method FetchPage(server: string -> seq<Fetch.Outcome>, parse: string -> seq<Block>, pagina: nat)
    returns (livros: Option<seq<Book>>)
    requires ServerAnswers(server)
    ensures livros == PageBooks(server, parse, pagina)
  {
    var url := PageUrl(pagina);
    var resp, _, _ := Fetch.SafeRequest(url, Timeout, Attempts, None, server(url));
    if resp.None? {
      return None;
    }
    var books := ExtractBooks(parse(resp.value.text));
    return Some(books);
  }

  /** A page that gives books extends the accumulation by exactly those books. */
  lemma AccumulateStep(server: string -> seq<Fetch.Outcome>, parse: string -> seq<Block>, page: nat, books: seq<Book>)
    requires ServerAnswers(server)
    requires 1 <= page && PageBooks(server, parse, page) == Some(books)
    ensures Accumulated(CatalogueOf(server, parse), page + 1) == Accumulated(CatalogueOf(server, parse), page) + books
  {
    assert CatalogueOf(server, parse)(page) == Some(books);
  }

  // ---------------------------------------------------------------------------
  // Accumulation facts
  // ---------------------------------------------------------------------------

  /** Counting the available books of a concatenation counts each part. */
  lemma {:induction false} CountAvailableAppend(a: seq<Book>, b: seq<Book>)
    ensures CountAvailable(a + b) == CountAvailable(a) + CountAvailable(b)
  {
    if a == [] {
      assert a + b == b;
    } else {
      assert (a + b)[1..] == a[1..] + b;
      assert (a + b)[0] == a[0];
      CountAvailableAppend(a[1..], b);
    }
  }

  /** The books of earlier pages come first: the accumulation up to m is a prefix of that up to n >= m. */
  lemma {:induction false} AccumulatedPrefix(c: Catalogue, m: nat, n: nat)
    requires m <= n
    ensures Accumulated(c, m) <= Accumulated(c, n)
  {
    if m < n {
      AccumulatedPrefix(c, m, n - 1);
    }
  }

  /** Page q's books sit in the accumulation right after those of pages 1 .. q - 1. */
  lemma {:induction false} AccumulatedPlacesPage(c: Catalogue, q: nat, n: nat)
    requires 1 <= q < n
    requires !Stops(c(q))
    ensures var before := Accumulated(c, q);
      var page := c(q).value;
      |before| + |page| <= |Accumulated(c, n)|
      && Accumulated(c, n)[|before|..|before| + |page|] == page
  {
    var before, page := Accumulated(c, q), c(q).value;
    var upto := Accumulated(c, q + 1);
    assert upto == before + page;
    AccumulatedPrefix(c, q + 1, n);
    assert Accumulated(c, n)[|before|..|upto|] == upto[|before|..];
    assert upto[|before|..] == page;
  }

  /** The available count of the accumulation adds up page by page. */
  lemma {:induction false} AvailablePerPage(c: Catalogue, n: nat)
    requires 2 <= n
    ensures CountAvailable(Accumulated(c, n))
         == CountAvailable(Accumulated(c, n - 1)) + CountAvailable(c(n - 1).GetOr([]))
  {
    CountAvailableAppend(Accumulated(c, n - 1), c(n - 1).GetOr([]));
  }

  /** The stopping page is the first page that stops the loop, so the loop cannot stop anywhere else. */
  lemma StopPageIsFirst(c: Catalogue, l1: nat, l2: nat)
    requires FirstStop(c, l1) && FirstStop(c, l2)
    ensures l1 == l2
  {
  }

  /**
   * A two-page catalogue: page 1 answers 200 with two product blocks, page 2
   * answers 200 with none. The loop stops at page 2, having requested pages 1
   * and 2 only, with exactly the two records of page 1.
   */
  lemma TwoPageCatalogue(server: string -> seq<Fetch.Outcome>, parse: string -> seq<Block>, t1: string, t2: string, lastPage: nat)
    requires ServerAnswers(server)
    requires server(PageUrl(1))[0] == Fetch.Reply(200, t1) && |parse(t1)| == 2
    requires server(PageUrl(2))[0] == Fetch.Reply(200, t2) && parse(t2) == []
    requires 1 <= lastPage && Stops(PageBooks(server, parse, lastPage))
    requires forall q :: 1 <= q < lastPage ==> !Stops(PageBooks(server, parse, q))
    ensures lastPage == 2
    ensures PagesUpTo(lastPage) == [1, 2]
    ensures Accumulated(CatalogueOf(server, parse), lastPage) == Books(parse(t1))
    ensures |Accumulated(CatalogueOf(server, parse), lastPage)| == 2
  {
    Fetch.AcceptedIsReturned(PageUrl(1), Timeout, Attempts, None, server(PageUrl(1)), 1);
    Fetch.AcceptedIsReturned(PageUrl(2), Timeout, Attempts, None, server(PageUrl(2)), 1);
    assert PageBooks(server, parse, 1) == Some(Books(parse(t1)));
    assert PageBooks(server, parse, 2) == Some([]);
    assert lastPage != 1;
  }
}
