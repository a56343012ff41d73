/**
 * `extrair_livros`: one book record per product block of a listing page.
 *
 * The HTML parser is replaced by what its queries return for a block: the
 * `h3 > a` link (its `title` and `href` attributes and its stripped text), the
 * stripped text of the `p.price_color` node, the space-joined stripped text of
 * the `p.instock` node and the class list of the `p.star-rating` node, each
 * absent when the block has no such node.
 */
module Extract {
  import opened Wrappers
  import opened Text

  datatype Link = Link(title: Option<string>, text: string, href: Option<string>)

  datatype Block = Block(
    link: Option<Link>,
    price: Option<string>,
    stock: Option<string>,
    ratingClasses: Option<seq<string>>)

  /**
   * The record of one block (`titulo`, `preco`, `disponibilidade`, `rating`,
   * `url_relativa`); the price is kept as the cleaned text that the source
   * hands to `float`.
   */
  datatype Book = Book(
    title: string,
    price: string,
    available: bool,
    rating: Option<int>,
    relativeUrl: Option<string>)

  /** `RATING_MAP`: the closed vocabulary of rating words. */
  const RatingMap: map<string, int> := map["One" := 1, "Two" := 2, "Three" := 3, "Four" := 4, "Five" := 5]

  /** The price text used when a block has no price node. */
  const DefaultPrice: string := "\U{A3}0.00"

  /** `DefaultPrice` once cleaned (see DefaultPriceCleans). */
  const DefaultPriceCleaned: string := "0.00"

  /** The text searched for in the lower-cased stock text. */
  const InStockText: string := "in stock"

  /** The title: the link's non-empty `title` attribute, else its text; empty without a link. */
  function Title(link: Option<Link>): (r: string)
    ensures link.None? ==> r == ""
    ensures link.Some? && link.value.title.GetOr("") != "" ==> r == link.value.title.value
    ensures link.Some? && link.value.title.GetOr("") == "" ==> r == link.value.text
  {
    match link
    case None => ""
    case Some(a) => if a.title.Some? && a.title.value != "" then a.title.value else a.text
  }

  /** The relative URL: the link's `href` (absent when the link has none); empty without a link. */
  function RelativeUrl(link: Option<Link>): (r: Option<string>)
    ensures link.None? ==> r == Some("")
    ensures link.Some? ==> r == link.value.href
  {
    match link
    case None => Some("")
    case Some(a) => a.href
  }

  /** `.replace("Â", "").replace("£", "")`: the raw price text without its mis-decoding artefact and pound signs. */
  function Unmarked(raw: string): (t: string)
    ensures '\U{C2}' !in t && '\U{A3}' !in t
    ensures forall x :: x in t <==> x in raw && x != '\U{C2}' && x != '\U{A3}'
  {
    RemoveChar(RemoveChar(raw, '\U{C2}'), '\U{A3}')
  }

  /**
   * `.replace("Â", "").replace("£", "").strip()`: the cleaned text holds no
   * `Â` and no `£`, neither starts nor ends with whitespace, and holds no
   * character the raw text did not. It is what is left of the raw text with
   * every `Â` and `£` removed, once the whitespace at both ends is cut off.
   */
  function CleanPrice(raw: string): (r: string)
    ensures '\U{C2}' !in r && '\U{A3}' !in r
    ensures r == [] || (!IsSpace(r[0]) && !IsSpace(r[|r| - 1]))
    ensures forall x :: x in r ==> x in raw
    ensures exists a, b :: (0 <= a <= b <= |Unmarked(raw)| && r == Unmarked(raw)[a..b]
      && AllSpace(Unmarked(raw)[..a]) && AllSpace(Unmarked(raw)[b..]))
  {
    var r := Strip(Unmarked(raw));
    assert forall x :: x in r ==> x in Unmarked(raw);
    r
  }

  /** A price written with the pound sign, mis-decoded or not, cleans to the amount that follows it. */
  lemma {:induction false} CleanPoundPrice(amount: string)
    requires '\U{C2}' !in amount && '\U{A3}' !in amount
    requires amount == [] || (!IsSpace(amount[0]) && !IsSpace(amount[|amount| - 1]))
    ensures CleanPrice(['\U{A3}'] + amount) == amount
    ensures CleanPrice(['\U{C2}', '\U{A3}'] + amount) == amount
  {
    var q := ['\U{A3}'] + amount;
    assert ['\U{C2}', '\U{A3}'] + amount == ['\U{C2}'] + q;
    RemoveAbsentChar(q, '\U{C2}');
    RemoveLeadingChar(q, '\U{C2}');
    RemoveLeadingChar(amount, '\U{A3}');
    RemoveAbsentChar(amount, '\U{A3}');
    StripTrimmed(amount);
  }

  /** A block without a price node gets the cleaned default, "0.00". */
  lemma DefaultPriceCleans()
    ensures CleanPrice(DefaultPrice) == DefaultPriceCleaned
  {
    var z := DefaultPriceCleaned;
    assert DefaultPrice == ['\U{A3}'] + z;
    CleanPoundPrice(z);
  }

  /**
   * The cleaned price of a block: its price node's text cleaned, or, when
   * there is no price node, the cleaned default "£0.00", which is "0.00" by
   * DefaultPriceCleans.
   */
  function PriceOf(node: Option<string>): (r: string)
    ensures node.Some? ==> r == CleanPrice(node.value)
    ensures node.None? ==> r == DefaultPriceCleaned
    ensures '\U{C2}' !in r && '\U{A3}' !in r
    ensures r == [] || (!IsSpace(r[0]) && !IsSpace(r[|r| - 1]))
  {
    match node
    case Some(t) => CleanPrice(t)
    case None => DefaultPriceCleaned
  }

  /** PriceOf is `CleanPrice` applied to the price text or, without a price node, to the default. */
  lemma PriceOfCleansText(node: Option<string>)
    ensures PriceOf(node) == CleanPrice(node.GetOr(DefaultPrice))
  {
    DefaultPriceCleans();
  }

  /** Availability: "in stock" occurs in the lower-cased stock text; false when the node is absent. */
  function InStock(stock: Option<string>): (r: bool)
    ensures r <==> stock.Some? && exists i: nat :: OccursAt(InStockText, Lower(stock.value), i)
  {
    match stock
    case None => false
    case Some(s) => Occurs(InStockText, Lower(s))
  }

  /**
   * The rating of the first class in `RATING_MAP`. There is one exactly when
   * some class is in the vocabulary; it lies in 1..5 and it is the value of a
   * class that no earlier class in the vocabulary precedes.
   */
  function FirstRating(classes: seq<string>): (r: Option<int>)
    ensures r.Some? <==> exists k :: 0 <= k < |classes| && classes[k] in RatingMap
    ensures r.Some? ==> 1 <= r.value <= 5
    ensures r.Some? ==> exists k :: (0 <= k < |classes| && classes[k] in RatingMap
      && r.value == RatingMap[classes[k]] && forall j :: 0 <= j < k ==> classes[j] !in RatingMap)
  {
    if classes == [] then None
    else if classes[0] in RatingMap then Some(RatingMap[classes[0]])
    else
      var r := FirstRating(classes[1..]);
      assert r.Some? ==> exists k :: (0 <= k < |classes| && classes[k] in RatingMap
        && r.value == RatingMap[classes[k]] && forall j :: 0 <= j < k ==> classes[j] !in RatingMap)
      by {
        if r.Some? {
          var k :| 0 <= k < |classes| - 1 && classes[1..][k] in RatingMap
            && r.value == RatingMap[classes[1..][k]] && forall j :: 0 <= j < k ==> classes[1..][j] !in RatingMap;
          assert forall j :: 0 <= j < k + 1 ==> classes[j] !in RatingMap by {
            forall j | 0 <= j < k + 1 ensures classes[j] !in RatingMap {
              if j > 0 { assert classes[j] == classes[1..][j - 1]; }
            }
          }
        }
      }
      assert (exists k :: 0 <= k < |classes| && classes[k] in RatingMap) ==> r.Some? by {
        if exists k :: 0 <= k < |classes| && classes[k] in RatingMap {
          var k :| 0 <= k < |classes| && classes[k] in RatingMap;
          assert classes[1..][k - 1] in RatingMap;
        }
      }
      r
  }

  /** The rating of a block: none when it has no rating node. */
  function RatingOf(node: Option<seq<string>>): (r: Option<int>)
    ensures r.Some? ==> node.Some? && 1 <= r.value <= 5
    ensures r.None? <==> node.None? || forall k :: 0 <= k < |node.value| ==> node.value[k] !in RatingMap
  {
    match node
    case None => None
    case Some(classes) => FirstRating(classes)
  }

  /** The record the loop body of `extrair_livros` builds for one block. */
  function BookOf(block: Block): (b: Book)
    ensures b.rating.Some? ==> 1 <= b.rating.value <= 5
    ensures b.available ==> block.stock.Some?
  {
    Book(Title(block.link), PriceOf(block.price), InStock(block.stock), RatingOf(block.ratingClasses), RelativeUrl(block.link))
  }

  /**
   * The field rules of one record: title and URL from the link (both empty
   * without one, the title falling back to the link text when the `title`
   * attribute is missing or empty); the cleaned price, "0.00" without a price
   * node; availability exactly when "in stock" occurs in the lower-cased stock
   * text; a rating in 1..5 only when there is a rating node.
   */
  lemma BookFields(block: Block)
    ensures var b := BookOf(block);
      && (block.link.None? ==> b.title == "" && b.relativeUrl == Some(""))
      && (block.link.Some? ==> b.relativeUrl == block.link.value.href)
      && (block.link.Some? && block.link.value.title.GetOr("") != "" ==> b.title == block.link.value.title.value)
      && (block.link.Some? && block.link.value.title.GetOr("") == "" ==> b.title == block.link.value.text)
      && (block.price.Some? ==> b.price == CleanPrice(block.price.value))
      && (block.price.None? ==> b.price == DefaultPriceCleaned)
      && '\U{C2}' !in b.price && '\U{A3}' !in b.price
      && (b.available <==> block.stock.Some? && exists i: nat :: OccursAt(InStockText, Lower(block.stock.value), i))
      && (b.rating.Some? ==> block.ratingClasses.Some? && 1 <= b.rating.value <= 5)
      && (b.rating.None? <==> block.ratingClasses.None? || forall k :: 0 <= k < |block.ratingClasses.value| ==> block.ratingClasses.value[k] !in RatingMap)
  {
  }

  /** The records of a page, one per block, in document order. */
  function Books(page: seq<Block>): seq<Book> {
    seq(|page|, k requires 0 <= k < |page| => BookOf(page[k]))
  }

  /** The inner loop of `extrair_livros`: scan the rating node's classes and stop at the first one in `RATING_MAP`. */
  method ScanRating(node: Option<seq<string>>) returns (rating: Option<int>)
    ensures rating == RatingOf(node)
  {
    rating := None;
    if node.Some? {
      var classes := node.value;
      var i := 0;
      while i < |classes|
        invariant 0 <= i <= |classes|
        invariant rating.None? ==> FirstRating(classes) == FirstRating(classes[i..])
        invariant rating.Some? ==> rating == FirstRating(classes)
      {
        if classes[i] in RatingMap {
          rating := Some(RatingMap[classes[i]]);
          break;
        }
        assert classes[i..][1..] == classes[i + 1..];
        i := i + 1;
      }
    }
  }

  /** `extrair_livros(soup)` over the blocks that `soup.select("article.product_pod")` yields. */
  method ExtractBooks(page: seq<Block>) returns (books: seq<Book>)
    ensures books == Books(page)
  {
    books := [];
    for n := 0 to |page|
      invariant books == Books(page[..n])
    {
      var art := page[n];
      var titulo := Title(art.link);
      var urlRelativa := RelativeUrl(art.link);
      var preco := PriceOf(art.price);
      var disponibilidade := InStock(art.stock);

      var rating := ScanRating(art.ratingClasses);
      var livro := Book(titulo, preco, disponibilidade, rating, urlRelativa);
      assert livro == BookOf(art);
      BooksSnoc(page, n);
      books := books + [livro];
    }
    assert page[..|page|] == page;
  }

  /** The records of one more block are those of the blocks before it followed by its own. */
  lemma {:induction false} BooksSnoc(page: seq<Block>, n: nat)
    requires n < |page|
    ensures Books(page[..n + 1]) == Books(page[..n]) + [BookOf(page[n])]
  {
    var longer, shorter := Books(page[..n + 1]), Books(page[..n]) + [BookOf(page[n])];
    forall k | 0 <= k < n + 1
      ensures longer[k] == shorter[k]
    {
      if k < n {
        assert page[..n + 1][k] == page[..n][k];
      }
    }
  }

  // ---------------------------------------------------------------------------
  // Worked cases of the field rules
  // ---------------------------------------------------------------------------

  /** "£51.77" and its mis-decoded form "Â£51.77" both clean to "51.77". */
  lemma PriceExamples()
    ensures CleanPrice("\U{A3}51.77") == "51.77"
    ensures CleanPrice("\U{C2}\U{A3}51.77") == "51.77"
  {
    var z := "51.77";
    assert "\U{A3}51.77" == ['\U{A3}'] + z;
    assert "\U{C2}\U{A3}51.77" == ['\U{C2}', '\U{A3}'] + z;
    CleanPoundPrice(z);
  }

  /** A rating node with classes "star-rating" and "Three" rates 3; with an unknown word it rates nothing. */
  lemma RatingExamples()
    ensures RatingOf(Some(["star-rating", "Three"])) == Some(3)
    ensures RatingOf(Some(["star-rating", "Unknown"])) == None
    ensures RatingOf(None) == None
  {
    assert ["star-rating", "Three"][1..] == ["Three"];
    assert ["star-rating", "Unknown"][1..] == ["Unknown"];
  }

  /** "In stock (22 available)" is available; "Out of stock" and a missing node are not. */
  lemma AvailabilityExamples()
    ensures InStock(Some("In stock (22 available)"))
    ensures !InStock(Some("Out of stock"))
    ensures !InStock(None)
  {
    assert Lower("In stock (22 available)")[0..8] == InStockText;
    assert OccursAt(InStockText, Lower("In stock (22 available)"), 0);
    var low := Lower("Out of stock");
    assert low == "out of stock";
    forall i: nat ensures !OccursAt(InStockText, low, i) {
      if i + 8 <= |low| { assert low[i..i + 8][0] == low[i]; assert low[i] != 'i'; }
    }
  }
}
