/** The endpoint resolver: each of the five operations mapped to the URL it is
    sent to, all under one fixed host. The product list URL is built the way
    `URLComponents` builds it, by appending query items to the components of
    "<host>/api/products?" and rendering them as `name=value` joined by '&'.
    `QueryItemsOf` reads a URL's query back and is used to state what the
    rendered URL carries. */
module NetworkAddress {
  import opened Wrappers
  import Decimal

  const ApiHost := "https://market-training.yagom-academy.kr"

  datatype Address =
    | HealthChecker
    | ProductRegistration
    | ProductModification(productId: int)
    | ProductDetail(productId: int)
    | ProductList(pageNumber: int, itemsPerPage: int)

  datatype QueryItem = QueryItem(name: string, value: string)

  /** The parts of `URLComponents` the resolver touches: the URL before the
      '?' and the list of query items. */
  datatype Components = Components(path: string, queryItems: seq<QueryItem>)

  function RenderItem(item: QueryItem): string {
    item.name + "=" + item.value
  }

  function RenderQuery(items: seq<QueryItem>): string {
    if items == [] then ""
    else if |items| == 1 then RenderItem(items[0])
    else RenderItem(items[0]) + "&" + RenderQuery(items[1..])
  }

  /** `URLComponents.url`: the path, '?', then the rendered query. */
  function ComponentsUrl(c: Components): string {
    c.path + "?" + RenderQuery(c.queryItems)
  }

  /** `NetworkAddress.url`. */
  function Url(address: Address): string {
    match address
    case HealthChecker => ApiHost + "/healthChecker"
    case ProductRegistration => ApiHost + "/api/products"
    case ProductModification(productId) => ApiHost + "/api/products/" + Decimal.FromInt(productId)
    case ProductDetail(productId) => ApiHost + "/api/products/" + Decimal.FromInt(productId)
    case ProductList(pageNumber, itemsPerPage) =>
      // "<host>/api/products?" parses to an empty, non-nil list of query items
      var components := Components(ApiHost + "/api/products", []);
      var withPage := components.(queryItems := components.queryItems
                                  + [QueryItem("page_no", Decimal.FromInt(pageNumber))]);
      var withSize := withPage.(queryItems := withPage.queryItems
                                + [QueryItem("items_per_page", Decimal.FromInt(itemsPerPage))]);
      ComponentsUrl(withSize)
  }

  // Reading a URL back.

  /** Splits `s` at every occurrence of `sep`. */
  function SplitOn(s: string, sep: char): (r: seq<string>)
    ensures r != []
  {
    if s == [] then [[]]
    else
      var rest := SplitOn(s[1..], sep);
      if s[0] == sep then [[]] + rest else [[s[0]] + rest[0]] + rest[1..]
  }

  function ParseItem(piece: string): Option<QueryItem> {
    var parts := SplitOn(piece, '=');
    if |parts| == 2 then Some(QueryItem(parts[0], parts[1])) else None
  }

  function ParseItems(pieces: seq<string>): Option<seq<QueryItem>> {
    if pieces == [] then Some([])
    else match (ParseItem(pieces[0]), ParseItems(pieces[1..]))
      case (Some(item), Some(items)) => Some([item] + items)
      case _ => None
  }

  function ParseQuery(query: string): Option<seq<QueryItem>> {
    if query == [] then Some([]) else ParseItems(SplitOn(query, '&'))
  }

  /** The part of a URL before its query. */
  function PathOf(url: string): string {
    SplitOn(url, '?')[0]
  }

  /** The query items of a URL: none if it has no '?', the parsed query if it
      has one, and `None` if it is malformed. */
  function QueryItemsOf(url: string): Option<seq<QueryItem>> {
    var parts := SplitOn(url, '?');
    if |parts| == 1 then Some([])
    else if |parts| == 2 then ParseQuery(parts[1])
    else None
  }

  predicate NoSeparators(s: string) {
    '&' !in s && '=' !in s && '?' !in s
  }

  predicate WellFormedItems(items: seq<QueryItem>) {
    forall i :: 0 <= i < |items| ==> NoSeparators(items[i].name) && NoSeparators(items[i].value)
  }

  // Lemmas about splitting.

  lemma {:induction false} SplitOnFree(s: string, sep: char)
    requires sep !in s
    ensures SplitOn(s, sep) == [s]
  {
    if s != [] {
      SplitOnFree(s[1..], sep);
      assert [s[0]] + s[1..] == s;
    }
  }

  lemma {:induction false} SplitOnJoin(a: string, sep: char, b: string)
    requires sep !in a
    ensures SplitOn(a + [sep] + b, sep) == [a] + SplitOn(b, sep)
  {
    if a == [] {
      assert a + [sep] + b == [sep] + b;
      assert ([sep] + b)[1..] == b;
    } else {
      var s := a + [sep] + b;
      assert s[0] == a[0] && s[1..] == a[1..] + [sep] + b;
      SplitOnJoin(a[1..], sep, b);
      assert [a[0]] + a[1..] == a;
    }
  }

  lemma ParseRenderItem(item: QueryItem)
    requires NoSeparators(item.name) && NoSeparators(item.value)
    ensures ParseItem(RenderItem(item)) == Some(item)
  {
    SplitOnJoin(item.name, '=', item.value);
    SplitOnFree(item.value, '=');
  }

  lemma {:induction false} RenderQueryPieces(items: seq<QueryItem>)
    requires items != [] && WellFormedItems(items)
    ensures ParseItems(SplitOn(RenderQuery(items), '&')) == Some(items)
  {
    ParseRenderItem(items[0]);
    if |items| == 1 {
      SplitOnFree(RenderItem(items[0]), '&');
      assert SplitOn(RenderQuery(items), '&') == [RenderItem(items[0])];
      assert [RenderItem(items[0])][1..] == [];
      assert [items[0]] + [] == items;
    } else {
      SplitOnJoin(RenderItem(items[0]), '&', RenderQuery(items[1..]));
      RenderQueryPieces(items[1..]);
      assert [items[0]] + items[1..] == items;
    }
  }

  /** Rendering well-formed query items and parsing them back yields the same
      items, in the same order. */
  lemma ParseRenderQuery(items: seq<QueryItem>)
    requires WellFormedItems(items)
    ensures ParseQuery(RenderQuery(items)) == Some(items)
  {
    if items != [] {
      RenderQueryPieces(items);
    }
  }

  lemma {:induction false} RenderQueryFree(items: seq<QueryItem>)
    requires WellFormedItems(items)
    ensures '?' !in RenderQuery(items)
  {
    if |items| > 1 {
      RenderQueryFree(items[1..]);
    }
  }

  // Properties of the resolver.

  /** The health check and the registration go to fixed paths on the host. */
  lemma FixedUrls()
    ensures Url(HealthChecker) == ApiHost + "/healthChecker"
    ensures Url(ProductRegistration) == ApiHost + "/api/products"
    ensures Url(HealthChecker) != Url(ProductRegistration)
  {
  }

  /** Detail and modification of a product share one URL, the product's
      decimal id under "/api/products/", and different ids give different
      URLs. */
  lemma ProductUrl(productId: int, otherId: int)
    ensures Url(ProductDetail(productId)) == Url(ProductModification(productId))
    ensures Url(ProductDetail(productId)) == ApiHost + "/api/products/" + Decimal.FromInt(productId)
    ensures Decimal.Parse(Url(ProductDetail(productId))[|ApiHost + "/api/products/"|..]) == Some(productId)
    ensures Url(ProductDetail(productId)) == Url(ProductDetail(otherId)) <==> productId == otherId
  {
    var prefix := ApiHost + "/api/products/";
    assert Url(ProductDetail(productId))[|prefix|..] == Decimal.FromInt(productId);
    Decimal.ParseFromInt(productId);
    if Url(ProductDetail(productId)) == Url(ProductDetail(otherId)) {
      assert Url(ProductDetail(otherId))[|prefix|..] == Decimal.FromInt(otherId);
      Decimal.FromIntInjective(productId, otherId);
    }
  }

  lemma ProductsPathFree()
    ensures NoSeparators(ApiHost + "/api/products")
  {
    var path := ApiHost + "/api/products";
    forall i | 0 <= i < |path|
      ensures path[i] != '&' && path[i] != '=' && path[i] != '?'
    {
    }
  }

  /** Reading back a URL rendered from components gives the components. */
  lemma ReadComponentsUrl(c: Components)
    requires NoSeparators(c.path) && WellFormedItems(c.queryItems)
    ensures PathOf(ComponentsUrl(c)) == c.path
    ensures QueryItemsOf(ComponentsUrl(c)) == Some(c.queryItems)
  {
    RenderQueryFree(c.queryItems);
    SplitOnJoin(c.path, '?', RenderQuery(c.queryItems));
    SplitOnFree(RenderQuery(c.queryItems), '?');
    ParseRenderQuery(c.queryItems);
  }

  /** Whatever the two integers, zero and negatives included, the list URL is
      "<host>/api/products" with exactly two query items, `page_no` then
      `items_per_page`, whose values read back as the two integers. */
  lemma ProductListUrl(pageNumber: int, itemsPerPage: int)
    ensures PathOf(Url(ProductList(pageNumber, itemsPerPage))) == ApiHost + "/api/products"
    ensures QueryItemsOf(Url(ProductList(pageNumber, itemsPerPage)))
            == Some([QueryItem("page_no", Decimal.FromInt(pageNumber)),
                     QueryItem("items_per_page", Decimal.FromInt(itemsPerPage))])
    ensures Decimal.Parse(Decimal.FromInt(pageNumber)) == Some(pageNumber)
    ensures Decimal.Parse(Decimal.FromInt(itemsPerPage)) == Some(itemsPerPage)
  {
    var page := Decimal.FromInt(pageNumber);
    var size := Decimal.FromInt(itemsPerPage);
    assert NoSeparators(page) && NoSeparators(size);
    assert NoSeparators("page_no") && NoSeparators("items_per_page");
    var items := [QueryItem("page_no", page), QueryItem("items_per_page", size)];
    assert WellFormedItems(items);
    var c := Components(ApiHost + "/api/products", items);
    assert Url(ProductList(pageNumber, itemsPerPage)) == ComponentsUrl(c);
    ProductsPathFree();
    ReadComponentsUrl(c);
    Decimal.ParseFromInt(pageNumber);
    Decimal.ParseFromInt(itemsPerPage);
  }

  lemma RenderTwoItems(page: QueryItem, size: QueryItem)
    ensures RenderQuery([page, size]) == RenderItem(page) + "&" + RenderItem(size)
  {
    assert [page, size][1..] == [size];
  }

  /** The list URL written out as one string. */
  lemma ProductListUrlText(pageNumber: int, itemsPerPage: int)
    ensures Url(ProductList(pageNumber, itemsPerPage))
            == ApiHost + "/api/products" + "?" + "page_no" + "=" + Decimal.FromInt(pageNumber)
               + "&" + "items_per_page" + "=" + Decimal.FromInt(itemsPerPage)
  {
    var page := QueryItem("page_no", Decimal.FromInt(pageNumber));
    var size := QueryItem("items_per_page", Decimal.FromInt(itemsPerPage));
    RenderTwoItems(page, size);
  }
}
