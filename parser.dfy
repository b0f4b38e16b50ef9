/**
 * The pure logic of parser.js: the page URL of a listing (`createUrl` and the
 * page default of `processPage`) and what `parsePage` extracts from a loaded
 * listing page. The browser is a parameter: a page is the abstract record of
 * what the DOM queries of `parsePage` return.
 */
module Parser {
  import opened Wrappers
  import opened Text

  /** The query parameter that carries the page number. */
  const PageParam := "&page_num_offers"

  // ---------------------------------------------------------------------
  // createUrl and the page default of processPage
  // ---------------------------------------------------------------------

  /** The URL of page `page` of the listing at `url` (`createUrl`). */
  function CreateUrl(url: string, page: int): (r: string)
    ensures BeforeFirst(r, PageParam) == BeforeFirst(url, PageParam)
    ensures PageValue(r) == Some(page)
  {
    var head := BeforeFirst(url, PageParam);
    TagAfterHead(head, IntToDecimal(page));
    DecimalRoundTrip(page);
    head + (PageTag + IntToDecimal(page))
  }

  /** The parameter name followed by `=`. */
  const PageTag := PageParam + "="

  /** Reading back the parameter written after a head that has none. */
  lemma TagAfterHead(head: string, value: string)
    requires IndexOf(head, PageParam).None?
    ensures BeforeFirst(head + (PageTag + value), PageParam) == head
    ensures PageValue(head + (PageTag + value)) == ParseDecimal(value)
  {
    var rest := PageTag + value;
    assert rest[..|PageParam|] == PageParam;
    FirstParamAfterHead(head, rest);
    var r := head + rest;
    assert r[|head|..|head| + |PageTag|] == PageTag;
    assert r[|head| + |PageTag|..] == value;
  }

  /**
   * The page number a URL asks for: the decimal number right after the
   * first `&page_num_offers=`, if the first `&page_num_offers` is followed
   * by `=` and a well-formed number.
   */
  function PageValue(url: string): Option<int>
  {
    var n := |BeforeFirst(url, PageParam)|;
    if n + |PageTag| <= |url| && url[n..n + |PageTag|] == PageTag then ParseDecimal(url[n + |PageTag|..])
    else None
  }

  lemma ParamHasOneAmpersand()
    ensures PageParam[0] == '&'
    ensures forall k | 1 <= k < |PageParam| :: PageParam[k] != '&'
  {
  }

  /**
   * When `head` holds no `&page_num_offers` and `rest` starts with one, the
   * first one in `head + rest` is where `rest` starts: an occurrence that
   * straddles the two would need a second '&' inside the parameter name.
   */
  lemma {:induction false} FirstParamAfterHead(head: string, rest: string)
    requires IndexOf(head, PageParam).None?
    requires |rest| >= |PageParam| && rest[..|PageParam|] == PageParam
    ensures IndexOf(head + rest, PageParam) == Some(|head|)
    ensures BeforeFirst(head + rest, PageParam) == head
  {
    var s := head + rest;
    var m := |PageParam|;
    assert s[|head|..|head| + m] == rest[..m];
    assert OccursAt(s, PageParam, |head|);
    forall j | 0 <= j < |head| ensures !OccursAt(s, PageParam, j) {
      if j + m <= |head| {
        assert s[j..j + m] == head[j..j + m];
        assert !OccursAt(head, PageParam, j);
      } else {
        ParamHasOneAmpersand();
        var k := |head| - j;
        assert 1 <= k < m;
        assert s[|head|] == PageParam[0];
        assert j + m <= |s| ==> s[j..j + m][k] == s[|head|];
      }
    }
    assert s[..|head|] == head;
  }

  /** With no page parameter in `url`, the parameter is appended to it. */
  lemma CreateUrlAppends(url: string, page: int)
    requires IndexOf(url, PageParam).None?
    ensures CreateUrl(url, page) == url + ("&page_num_offers=" + IntToDecimal(page))
  {
    assert BeforeFirst(url, PageParam) == url;
    assert PageTag == "&page_num_offers=";
  }

  /** The page parameter is replaced, never accumulated. */
  lemma CreateUrlReplacesPage(url: string, p: int, q: int)
    ensures CreateUrl(CreateUrl(url, p), q) == CreateUrl(url, q)
  {
  }

  /** `processPage`'s default: a missing or zero page number means page 1. */
  function RequestedPage(pageNum: Option<int>): (p: int)
    ensures p != 0
    ensures pageNum.Some? && pageNum.value != 0 ==> p == pageNum.value
    ensures pageNum.None? || pageNum == Some(0) ==> p == 1
  {
    if pageNum.None? || pageNum.value == 0 then 1 else pageNum.value
  }

  // ---------------------------------------------------------------------
  // The listing page as parsePage sees it
  // ---------------------------------------------------------------------

  /** A gallery image; `original` is its `data-original` ("" when absent). */
  datatype Image = Image(original: string)

  /**
   * A `tbody.listing-item` element: its `data-bem` text ("" when absent),
   * the id that `parseInt(JSON.parse(bem).stat.id, 10)` yields, the `href`
   * of its link element (None when the element or the attribute is
   * missing) and its gallery images.
   */
  datatype ListingItem = ListingItem(bem: string, statId: int, href: Option<string>, images: seq<Image>)

  /** The `.pager` element: its `data-bem` text and the decoded `pager` member. */
  datatype PagerElement = PagerElement(bem: string, pager: string)

  datatype Document = Document(items: seq<ListingItem>, pager: Option<PagerElement>)

  datatype ScrapedCar = ScrapedCar(id: int, url: Option<string>, images: seq<string>)

  /** `false` from parsePage, or its `{cars, pager}` object. */
  datatype ParseResult = NotAListing | Listing(cars: map<int, ScrapedCar>, pager: string)

  /**
   * An image path: the '/'-separated segments of `data-original` without
   * the first two and the last (`slice(2, length - 1)`), joined again.
   */
  function TrimImagePath(original: string): string
  {
    var parts := Split(original);
    if |parts| <= 3 then "" else Join(parts[2..|parts| - 1])
  }

  /**
   * With at least four segments the trimmed path is exactly the middle
   * segments, and the original is the first two segments, the trimmed path
   * and the last segment joined with '/'.
   */
  lemma TrimKeepsMiddleSegments(original: string)
    requires |Split(original)| >= 4
    ensures Split(TrimImagePath(original)) == Split(original)[2..|Split(original)| - 1]
    ensures var parts := Split(original);
            original == Join(parts[..2]) + "/" + (TrimImagePath(original) + "/" + parts[|parts| - 1])
  {
    var parts := Split(original);
    var n := |parts|;
    var middle := parts[2..n - 1];
    assert TrimImagePath(original) == Join(middle);
    assert forall k | 0 <= k < |middle| :: NoSlash(middle[k]) by {
      forall k | 0 <= k < |middle| ensures NoSlash(middle[k]) {
        assert middle[k] == parts[k + 2];
      }
    }
    SplitJoin(middle);
    JoinMiddle(parts);
    JoinSplit(original);
  }

  lemma JoinMiddle(parts: seq<string>)
    requires |parts| >= 4
    ensures Join(parts) == Join(parts[..2]) + "/" + (Join(parts[2..|parts| - 1]) + "/" + parts[|parts| - 1])
  {
    var n := |parts|;
    var first, middle, last := parts[..2], parts[2..n - 1], parts[n - 1];
    var tail := middle + [last];
    SplitThree(parts);
    assert parts == first + tail;
    JoinAppend(first, tail);
    JoinAppend(middle, [last]);
    assert Join([last]) == last;
    calc {
      Join(parts);
      Join(first + tail);
      Join(first) + "/" + Join(tail);
      Join(first) + "/" + (Join(middle) + "/" + last);
    }
  }

  lemma SplitThree<T>(parts: seq<T>)
    requires |parts| >= 4
    ensures parts == parts[..2] + (parts[2..|parts| - 1] + [parts[|parts| - 1]])
  {
  }

  /** With three segments or fewer nothing is left of the path. */
  lemma TrimShortPath(original: string)
    requires |Split(original)| <= 3
    ensures TrimImagePath(original) == ""
  {
  }

  /** The `reduce` over the gallery: images without `data-original` are skipped. */
  function ImagePaths(images: seq<Image>): seq<string>
  {
    if images == [] then []
    else
      var last := images[|images| - 1];
      ImagePaths(images[..|images| - 1]) + (if last.original != "" then [TrimImagePath(last.original)] else [])
  }

  /** Image paths of a gallery are the paths of its parts, in order. */
  lemma {:induction false} ImagePathsAppend(a: seq<Image>, b: seq<Image>)
    ensures ImagePaths(a + b) == ImagePaths(a) + ImagePaths(b)
    decreases |b|
  {
    if b == [] {
      assert a + b == a;
    } else {
      var b', last := b[..|b| - 1], b[|b| - 1];
      ImagePathsAppend(a, b');
      assert (a + b)[..|a + b| - 1] == a + b';
      assert (a + b)[|a + b| - 1] == last;
      var tail := if last.original != "" then [TrimImagePath(last.original)] else [];
      calc {
        ImagePaths(a + b);
        ImagePaths(a + b') + tail;
        ImagePaths(a) + ImagePaths(b') + tail;
        ImagePaths(a) + (ImagePaths(b') + tail);
        ImagePaths(a) + ImagePaths(b);
      }
    }
  }

  /** One image contributes its trimmed path, or nothing without `data-original`. */
  lemma ImagePathsOfOne(image: Image)
    ensures ImagePaths([image]) == if image.original != "" then [TrimImagePath(image.original)] else []
  {
    assert [image][..0] == [];
  }

  /** The reduce of parsePage over one item's images. */
  method CollectImagePaths(images: seq<Image>) returns (paths: seq<string>)
    ensures paths == ImagePaths(images)
  {
    paths := [];
    var i := 0;
    while i < |images|
      invariant 0 <= i <= |images|
      invariant paths == ImagePaths(images[..i])
    {
      if images[i].original != "" {
        paths := paths + [TrimImagePath(images[i].original)];
      }
      assert images[..i + 1][..i] == images[..i];
      i := i + 1;
    }
    assert images[..i] == images;
  }

  /** Only items with a `data-bem` are listings. */
  predicate Kept(item: ListingItem) { item.bem != "" }

  function Record(item: ListingItem): ScrapedCar
  {
    ScrapedCar(item.statId, item.href, ImagePaths(item.images))
  }

  /** `output.cars` after the loop: each kept item stored under its id, in order. */
  function CollectCars(items: seq<ListingItem>): map<int, ScrapedCar>
  {
    if items == [] then map[]
    else
      var cars := CollectCars(items[..|items| - 1]);
      var last := items[|items| - 1];
      if Kept(last) then cars[last.statId := Record(last)] else cars
  }

  function KeptIds(items: seq<ListingItem>): set<int>
  {
    set i | 0 <= i < |items| && Kept(items[i]) :: items[i].statId
  }

  /** The cars map holds exactly the ids of the kept items. */
  lemma {:induction false} CollectCarsKeys(items: seq<ListingItem>)
    ensures CollectCars(items).Keys == KeptIds(items)
  {
    if items != [] {
      var init := items[..|items| - 1];
      CollectCarsKeys(init);
      var last := |items| - 1;
      assert forall i | 0 <= i < |init| :: init[i] == items[i];
      if Kept(items[last]) {
        assert KeptIds(items) == KeptIds(init) + {items[last].statId};
      } else {
        assert KeptIds(items) == KeptIds(init);
      }
    }
  }

  /** A later kept item with the same id overwrites an earlier one. */
  lemma {:induction false} LastWriteWins(items: seq<ListingItem>, i: nat)
    requires i < |items| && Kept(items[i])
    requires forall j | i < j < |items| :: !Kept(items[j]) || items[j].statId != items[i].statId
    ensures items[i].statId in CollectCars(items)
    ensures CollectCars(items)[items[i].statId] == Record(items[i])
  {
    var init := items[..|items| - 1];
    if i < |items| - 1 {
      assert init[i] == items[i];
      LastWriteWins(init, i);
    }
  }

  /** A document is a listing page only when it has a `.pager` with `data-bem`. */
  predicate HasPager(doc: Document)
  {
    doc.pager.Some? && doc.pager.value.bem != ""
  }

  /**
   * The callback of parsePage: fill the cars map item by item, then give
   * `false` (dropping the cars) when there is no usable pager.
   */
  method ParsePage(doc: Document) returns (r: ParseResult)
    ensures r.NotAListing? <==> !HasPager(doc)
    ensures r.Listing? ==> r.cars == CollectCars(doc.items) && r.pager == doc.pager.value.pager
  {
    var cars: map<int, ScrapedCar> := map[];
    var i := 0;
    while i < |doc.items|
      invariant 0 <= i <= |doc.items|
      invariant cars == CollectCars(doc.items[..i])
    {
      var item := doc.items[i];
      if item.bem != "" {
        var images := CollectImagePaths(item.images);
        cars := cars[item.statId := ScrapedCar(item.statId, item.href, images)];
      }
      assert doc.items[..i + 1][..i] == doc.items[..i];
      i := i + 1;
    }
    assert doc.items[..i] == doc.items;
    if doc.pager.Some? && doc.pager.value.bem != "" {
      r := Listing(cars, doc.pager.value.pager);
    } else {
      r := NotAListing;
    }
  }

  /**
   * processPage: open the URL of the requested page (page 1 when none or 0
   * is given) in the browser, then parse what it shows.
   */
  method ProcessPage(url: string, pageNum: Option<int>, browser: string -> Document)
    returns (requested: string, r: ParseResult)
    ensures requested == CreateUrl(url, RequestedPage(pageNum))
    ensures BeforeFirst(requested, PageParam) == BeforeFirst(url, PageParam)
    ensures PageValue(requested) == Some(RequestedPage(pageNum))
    ensures r.NotAListing? <==> !HasPager(browser(requested))
    ensures r.Listing? ==> r.cars == CollectCars(browser(requested).items)
                           && r.pager == browser(requested).pager.value.pager
  {
    var page := pageNum;
    if page.None? || page.value == 0 {
      page := Some(1);
    }
    requested := CreateUrl(url, page.value);
    r := ParsePage(browser(requested));
  }
}
