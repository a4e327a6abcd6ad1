/** The swipe extension's content script (`techbook-swipe-extension/content.js`):
    book ids read from links and page addresses, the price picked from a
    detail page, the books gathered from a market page, and the swipe and
    rating updates of the stored history.

    The page, `fetch`, `chrome.storage`, timers and the card animation are
    left out: what the page shows comes in as parameters, and the two
    stored objects (`swipeHistory`, `likedBooksData`) are values the
    operations return. */
module SwipeContent {
  import opened Base
  import opened JsObject
  import PageText

  // ---------------------------------------------------------------------
  // Book ids: `/\/product\/([^\/\?]+)/`

  const ProductPath: string := "/product/"

  /** The characters that end an id. */
  predicate IdStop(c: char) {
    c == '/' || c == '?'
  }

  /** The longest prefix of `t` without `/` or `?`. */
  function IdRun(t: string): (r: string)
    ensures |r| <= |t| && r == t[..|r|]
    ensures forall i :: 0 <= i < |r| ==> !IdStop(r[i])
    ensures |r| < |t| ==> IdStop(t[|r|])
  {
    if t != [] && !IdStop(t[0]) then [t[0]] + IdRun(t[1..]) else []
  }

  /** The regular expression matches at `i`: `/product/` followed by at
      least one id character. */
  predicate ProductAt(s: string, i: int) {
    && OccursAt(s, ProductPath, i)
    && i + |ProductPath| < |s|
    && !IdStop(s[i + |ProductPath|])
  }

  /** The leftmost match at or after `from`. */
  function FirstProduct(s: string, from: nat): (r: Option<nat>)
    ensures r.Some? ==> from <= r.value && ProductAt(s, r.value)
    ensures r.Some? ==> forall k :: from <= k < r.value ==> !ProductAt(s, k)
    ensures r.None? ==> forall k :: from <= k ==> !ProductAt(s, k)
    decreases |s| - from
  {
    if from >= |s| then None
    else if ProductAt(s, from) then Some(from)
    else FirstProduct(s, from + 1)
  }

  /** `extractBookIdFromUrl`: the id captured by the leftmost match, `null`
      when there is none. */
  function ExtractBookIdFromUrl(url: string): (r: Option<string>)
    ensures r.None? <==> forall k :: 0 <= k ==> !ProductAt(url, k)
    ensures forall i :: ProductAt(url, i) && (forall k :: 0 <= k < i ==> !ProductAt(url, k)) ==>
              r == Some(IdRun(url[i + |ProductPath|..]))
    ensures r.Some? ==> r.value != [] && forall i :: 0 <= i < |r.value| ==> !IdStop(r.value[i])
  {
    match FirstProduct(url, 0)
    case None => None
    case Some(i) =>
      var id := IdRun(url[i + |ProductPath|..]);
      assert id != [] by { assert !IdStop(url[i + |ProductPath|..][0]); }
      forall j | ProductAt(url, j) && (forall k :: 0 <= k < j ==> !ProductAt(url, k))
        ensures j == i
      {
      }
      Some(id)
  }

  /** `extractBookId`: the same capture, but the whole `href` when there is
      no match. */
  function ExtractBookId(href: string): (r: string)
    ensures ExtractBookIdFromUrl(href).Some? ==> r == ExtractBookIdFromUrl(href).value
    ensures ExtractBookIdFromUrl(href).None? ==> r == href
    ensures r == href || (r != [] && forall i :: 0 <= i < |r| ==> !IdStop(r[i]))
  {
    match ExtractBookIdFromUrl(href)
    case Some(id) => id
    case None => href
  }

  /** The address a relative link leads to. */
  function Absolute(origin: string, href: string): string {
    if StartsWith(href, "http") then href else origin + href
  }

  /** A match in `p + q` that starts inside `q` is a match in `q`. */
  lemma ProductAtShift(p: string, q: string, k: nat)
    ensures ProductAt(p + q, |p| + k) <==> ProductAt(q, k)
  {
    var s := p + q;
    if |p| + k + |ProductPath| <= |s| {
      assert s[|p| + k..|p| + k + |ProductPath|] == q[k..k + |ProductPath|];
    }
    if |p| + k + |ProductPath| < |s| {
      assert s[|p| + k + |ProductPath|] == q[k + |ProductPath|];
    }
  }

  /** An origin with no `/p` in it and no `/` at its end starts no match. */
  predicate PlainOrigin(origin: string) {
    && origin != []
    && origin[|origin| - 1] != '/'
    && forall j :: 0 <= j < |origin| - 1 ==> !(origin[j] == '/' && origin[j + 1] == 'p')
  }

  lemma NoMatchInOrigin(origin: string, href: string, j: nat)
    requires PlainOrigin(origin) && j < |origin|
    ensures !ProductAt(origin + href, j)
  {
    var s := origin + href;
    if j + |ProductPath| <= |s| {
      assert s[j] == origin[j];
      if j + 1 < |origin| {
        assert s[j + 1] == origin[j + 1];
      }
      assert s[j] != '/' || s[j + 1] != 'p';
      assert s[j..j + |ProductPath|][0] == s[j];
      assert s[j..j + |ProductPath|][1] == s[j + 1];
    }
  }

  lemma NoMatchAt(origin: string, href: string, k: nat)
    requires PlainOrigin(origin) && FirstProduct(href, 0).None?
    ensures !ProductAt(origin + href, k)
  {
    if k < |origin| {
      NoMatchInOrigin(origin, href, k);
    } else {
      ProductAtShift(origin, href, k - |origin|);
      assert !ProductAt(href, k - |origin|);
    }
  }

  /** No match in `href` means none in `origin + href`. */
  lemma NoMatchAfterOrigin(origin: string, href: string)
    requires PlainOrigin(origin) && FirstProduct(href, 0).None?
    ensures ExtractBookIdFromUrl(origin + href).None?
  {
    var r := FirstProduct(origin + href, 0);
    if r.Some? {
      NoMatchAt(origin, href, r.value);
      assert false;
    }
  }

  /** The leftmost match of `href` is the leftmost of `origin + href`. */
  lemma MatchAfterOrigin(origin: string, href: string, m: nat)
    requires PlainOrigin(origin) && FirstProduct(href, 0) == Some(m)
    ensures ExtractBookIdFromUrl(origin + href) == Some(IdRun(href[m + |ProductPath|..]))
  {
    var s := origin + href;
    forall k | 0 <= k < |origin| + m
      ensures !ProductAt(s, k)
    {
      if k < |origin| {
        NoMatchInOrigin(origin, href, k);
      } else {
        ProductAtShift(origin, href, k - |origin|);
      }
    }
    ProductAtShift(origin, href, m);
    assert s[|origin| + m + |ProductPath|..] == href[m + |ProductPath|..];
  }

  /** The book a relative link names keeps its id once the link is made
      absolute, so the id recorded from a market page link is the id the
      book's own page reads from its address. */
  lemma AbsoluteLinkKeepsId(origin: string, href: string)
    requires PlainOrigin(origin) && StartsWith(href, "/")
    ensures ExtractBookIdFromUrl(Absolute(origin, href)) == ExtractBookIdFromUrl(href)
  {
    assert !StartsWith(href, "http") by { assert href[0] != 'h'; }
    assert Absolute(origin, href) == origin + href;
    match FirstProduct(href, 0)
    case None =>
      NoMatchAfterOrigin(origin, href);
    case Some(m) =>
      MatchAfterOrigin(origin, href, m);
  }

  /** The page origin of the market, `https://techbookfest.org`. */
  const SiteOrigin: string := "https://techbookfest.org"

  lemma SiteOriginIsPlain()
    ensures PlainOrigin(SiteOrigin)
  {
    forall j | 0 <= j < |SiteOrigin| - 1
      ensures !(SiteOrigin[j] == '/' && SiteOrigin[j + 1] == 'p')
    {
      if j == 6 || j == 7 {
        assert SiteOrigin[j + 1] != 'p';
      } else {
        assert SiteOrigin[j] != '/';
      }
    }
  }

  /** On the market site, a book liked from a link is recognised on its
      own page. */
  lemma SiteLinkKeepsId(href: string)
    requires StartsWith(href, "/")
    ensures ExtractBookIdFromUrl(Absolute(SiteOrigin, href)) == ExtractBookIdFromUrl(href)
  {
    SiteOriginIsPlain();
    AbsoluteLinkKeepsId(SiteOrigin, href);
  }
  // ---------------------------------------------------------------------
  // Prices

  /** The characters of `/[\d,]+/`. */
  predicate IsPriceChar(c: char) {
    IsDigit(c) || c == ','
  }

  /** The longest prefix of `t` made of digits and commas. */
  function PriceRun(t: string): (r: string)
    ensures |r| <= |t| && r == t[..|r|]
    ensures forall i :: 0 <= i < |r| ==> IsPriceChar(r[i])
    ensures |r| < |t| ==> !IsPriceChar(t[|r|])
  {
    if t != [] && IsPriceChar(t[0]) then [t[0]] + PriceRun(t[1..]) else []
  }

  /** The first digit or comma at or after `from`. */
  function FirstPriceChar(s: string, from: nat): (r: Option<nat>)
    ensures r.Some? ==> from <= r.value < |s| && IsPriceChar(s[r.value])
    ensures r.Some? ==> forall k :: from <= k < r.value ==> !IsPriceChar(s[k])
    ensures r.None? ==> forall k :: from <= k < |s| ==> !IsPriceChar(s[k])
    decreases |s| - from
  {
    if from >= |s| then None
    else if IsPriceChar(s[from]) then Some(from)
    else FirstPriceChar(s, from + 1)
  }

  /** `.replace(/,/g, '')`. */
  function RemoveCommas(s: string): (r: string)
    ensures |r| <= |s|
    ensures forall i :: 0 <= i < |r| ==> r[i] != ','
    ensures (forall i :: 0 <= i < |s| ==> IsPriceChar(s[i])) ==> AllDigits(r)
    ensures ',' !in s ==> r == s
  {
    if s == [] then []
    else
      var rest := RemoveCommas(s[1..]);
      assert s == [s[0]] + s[1..];
      if s[0] == ',' then rest else [s[0]] + rest
  }

  /** `parseInt` of a non-empty run of decimal digits is its value. */
  lemma ParseIntOfDigits(s: string)
    requires s != [] && AllDigits(s)
    ensures ParseInt(s) == Some(DecimalValue(s))
  {
    assert IsDigit(s[0]);
    assert TrimStart(s) == s;
    assert !StartsWith(s, "0x") && !StartsWith(s, "0X") by {
      if |s| >= 2 { assert IsDigit(s[1]); }
    }
    DigitRunAll(s);
    DecimalRunValue(s);
  }

  /** The digits of the first digit-and-comma run of `text`, commas
      dropped. */
  function PriceDigits(text: string, i: nat): (r: string)
    requires i < |text|
    ensures AllDigits(r)
  {
    RemoveCommas(PriceRun(text[i..]))
  }

  /** `extractPriceNumber`: the number in the first run of digits and
      commas, read without its commas; `NaN` (`None`) when that run holds
      commas only; 999999 when there is no run. */
  function ExtractPriceNumber(text: string): (r: Option<int>)
    ensures (forall k :: 0 <= k < |text| ==> !IsPriceChar(text[k])) ==> r == Some(999999)
    ensures forall i :: 0 <= i < |text| && IsPriceChar(text[i]) && (forall k :: 0 <= k < i ==> !IsPriceChar(text[k])) ==>
              r == (if PriceDigits(text, i) == [] then None else Some(DecimalValue(PriceDigits(text, i))))
    ensures r.Some? ==> r.value >= 0
  {
    match FirstPriceChar(text, 0)
    case None => Some(999999)
    case Some(i) =>
      var digits := PriceDigits(text, i);
      forall j | 0 <= j < |text| && IsPriceChar(text[j]) && (forall k :: 0 <= k < j ==> !IsPriceChar(text[k]))
        ensures j == i
      {
      }
      if digits == [] then
        assert ParseInt(digits) == None;
        ParseInt(digits)
      else
        ParseIntOfDigits(digits);
        ParseInt(digits)
  }

  /** A price printed as plain digits, with no digit or comma before it and
      none right after it, is read back as its value. */
  lemma PriceOfPrintedNumber(before: string, n: nat, after: string)
    requires forall k :: 0 <= k < |before| ==> !IsPriceChar(before[k])
    requires after == [] || !IsPriceChar(after[0])
    ensures ExtractPriceNumber(before + NatToString(n) + after) == Some(n)
  {
    var digits := NatToString(n);
    var text := before + digits + after;
    var i := |before|;
    assert text[i] == digits[0] && IsDigit(digits[0]);
    forall k | 0 <= k < i
      ensures !IsPriceChar(text[k])
    {
      assert text[k] == before[k];
    }
    assert text[i..] == digits + after;
    PriceRunOf(digits, after);
    assert ',' !in digits by {
      forall k | 0 <= k < |digits|
        ensures digits[k] != ','
      {
        assert IsDigit(digits[k]);
      }
    }
    NatToStringRoundTrip(n);
  }

  lemma {:induction false} PriceRunOf(digits: string, after: string)
    requires AllDigits(digits)
    requires after == [] || !IsPriceChar(after[0])
    ensures PriceRun(digits + after) == digits
  {
    if digits != [] {
      assert (digits + after)[1..] == digits[1..] + after;
      PriceRunOf(digits[1..], after);
      assert [digits[0]] + digits[1..] == digits;
    }
  }
  // ---------------------------------------------------------------------
  // extractPrice

  /** The texts of `list`, then those of `more` not already listed, in
      order (`if (!prices.includes(text)) prices.push(text)`). */
  function AddNew(list: seq<string>, more: seq<string>): (r: seq<string>)
    ensures |list| <= |r| && r[..|list|] == list
    ensures forall i :: 0 <= i < |more| ==> more[i] in r
    ensures forall k :: 0 <= k < |r| ==> r[k] in list || r[k] in more
  {
    if more == [] then list
    else
      var front := more[..|more| - 1];
      var p := AddNew(list, front);
      var x := more[|more| - 1];
      assert more == front + [x];
      if x in p then p else p + [x]
  }

  /** The price texts found on a page: every button price, then the other
      price texts not seen yet. Which texts look like prices (the
      `isPriceText` patterns) is decided by the page reader. */
  function PriceCandidates(buttonTexts: seq<string>, otherTexts: seq<string>): (r: seq<string>)
    ensures r == [] <==> buttonTexts == [] && otherTexts == []
  {
    AddNew(buttonTexts, otherTexts)
  }

  predicate AllRead(texts: seq<string>) {
    forall i :: 0 <= i < |texts| ==> ExtractPriceNumber(texts[i]).Some?
  }

  function PriceOf(text: string): int
    requires ExtractPriceNumber(text).Some?
  {
    ExtractPriceNumber(text).value
  }

  /** The numbers of all candidates. */
  function Prices(texts: seq<string>): (r: seq<int>)
    requires AllRead(texts)
    ensures |r| == |texts|
    ensures forall i :: 0 <= i < |texts| ==> r[i] == PriceOf(texts[i])
  {
    if texts == [] then [] else [PriceOf(texts[0])] + Prices(texts[1..])
  }

  /** The position of the first of the smallest numbers. */
  function CheapestIndex(ns: seq<int>): (i: nat)
    requires ns != []
    ensures i < |ns|
    ensures forall k :: 0 <= k < |ns| ==> ns[i] <= ns[k]
    ensures forall k :: 0 <= k < i ==> ns[k] > ns[i]
  {
    if |ns| == 1 then 0
    else
      var front := ns[..|ns| - 1];
      var j := CheapestIndex(front);
      assert forall k :: 0 <= k < |front| ==> ns[k] == front[k];
      if ns[|ns| - 1] < ns[j] then |ns| - 1 else j
  }

  /** The first of the cheapest candidates: the head of the candidates
      after the stable sort by price. */
  function Cheapest(c: seq<string>): (t: string)
    requires c != [] && AllRead(c)
    ensures t in c
    ensures forall k :: 0 <= k < |c| ==> PriceOf(t) <= PriceOf(c[k])
    ensures forall k :: 0 <= k < PageText.Pos(c, t) ==> PriceOf(c[k]) > PriceOf(t)
  {
    var ns := Prices(c);
    var i := CheapestIndex(ns);
    FirstOfCheapest(c, ns, i);
    c[i]
  }

  /** The first cheapest candidate is the first occurrence of its text. */
  lemma FirstOfCheapest(c: seq<string>, ns: seq<int>, i: nat)
    requires AllRead(c) && |ns| == |c|
    requires forall k :: 0 <= k < |c| ==> ns[k] == PriceOf(c[k])
    requires i < |ns| && forall k :: 0 <= k < i ==> ns[k] > ns[i]
    ensures PageText.Pos(c, c[i]) == i
  {
    forall k | 0 <= k < i
      ensures c[k] != c[i]
    {
      assert ns[k] > ns[i];
    }
    PageText.PosUnique(c, c[i], i);
  }

  /** What `extractPrice` returns. When a candidate reads as `NaN` the
      comparator `priceA - priceB` is not consistent and the order
      `Array.prototype.sort` produces is implementation-defined. */
  datatype PriceResult = Price(text: string) | NoPrice | Unspecified

  /** `extractPrice`: the first of the cheapest candidates (the sort is
      stable), or the first price found by the fallback selectors. */
  function ExtractPrice(buttonTexts: seq<string>, otherTexts: seq<string>, fallback: Option<string>): (r: PriceResult)
    ensures var c := PriceCandidates(buttonTexts, otherTexts);
            c == [] ==> r == (if fallback.Some? then Price(fallback.value) else NoPrice)
    ensures var c := PriceCandidates(buttonTexts, otherTexts);
            c != [] && !AllRead(c) ==> r == Unspecified
    ensures var c := PriceCandidates(buttonTexts, otherTexts);
            c != [] && AllRead(c) ==>
              && r.Price? && r.text in c
              && (forall k :: 0 <= k < |c| ==> PriceOf(r.text) <= PriceOf(c[k]))
              && (forall k :: 0 <= k < PageText.Pos(c, r.text) ==> PriceOf(c[k]) > PriceOf(r.text))
  {
    var c := PriceCandidates(buttonTexts, otherTexts);
    if c == [] then
      (if fallback.Some? then Price(fallback.value) else NoPrice)
    else if !AllRead(c) then Unspecified
    else Price(Cheapest(c))
  }

  // ---------------------------------------------------------------------
  // Stored history and liked books

  datatype Rating = Like | Dislike

  /** `swipeHistory`: book id to rating. */
  type History = Obj<Rating>

  /** A value read back from storage: a string, `undefined`, or anything
      else with its truthiness. */
  datatype JsValue = Str(s: string) | Undefined | Other(truthy: bool)

  /** The fields of a `likedBooksData` entry that the export reads. */
  datatype StoredBook = StoredBook(title: JsValue, description: JsValue, price: JsValue, imageUrl: JsValue, url: JsValue)

  /** Both stored objects. */
  datatype Store = Store(history: History, liked: Obj<StoredBook>)

  /** Every liked book has stored data. */
  ghost predicate LikedHaveData(st: Store) {
    forall k :: Get(st.history, k) == Some(Like) ==> Get(st.liked, k).Some?
  }

  // ---------------------------------------------------------------------
  // collectBooks

  /** What a market page card shows next to a product link: the title
      and image found for it and a list price (each `''` when not found). */
  datatype Card = Card(title: string, imageUrl: string, listPrice: string)

  /** A product link with its `href` and card. */
  datatype Link = Link(href: string, card: Card)

  /** A collected book: its id, its absolute URL and its card. */
  datatype Book = Book(id: string, href: string, card: Card)

  /** The book each link describes, in document order. */
  function LinkBooks(links: seq<Link>, origin: string): (r: seq<Book>)
    ensures |r| == |links|
    ensures forall i :: 0 <= i < |links| ==>
              r[i] == Book(ExtractBookId(links[i].href), Absolute(origin, links[i].href), links[i].card)
  {
    if links == [] then []
    else [Book(ExtractBookId(links[0].href), Absolute(origin, links[0].href), links[0].card)] + LinkBooks(links[1..], origin)
  }

  function BookIds(books: seq<Book>): (r: seq<string>)
    ensures |r| == |books|
    ensures forall i :: 0 <= i < |books| ==> r[i] == books[i].id
  {
    if books == [] then [] else [books[0].id] + BookIds(books[1..])
  }

  predicate Disliked(history: History, id: string) {
    Get(history, id) == Some(Dislike)
  }

  /** The ids the history marks as disliked. */
  function DislikedIds(history: History): (r: set<string>)
    ensures forall id :: id in r <==> Disliked(history, id)
  {
    if history == [] then {}
    else
      var rest := DislikedIds(history[1..]);
      if history[0].val == Dislike then rest + {history[0].key} else rest - {history[0].key}
  }

  /** The loop of `collectBooks` over the candidate books, skipping the
      ids in `skip` and ids already taken. */
  function Collect(cands: seq<Book>, skip: set<string>): (r: seq<Book>)
    ensures forall k :: 0 <= k < |r| ==> r[k].id !in skip
    ensures forall i :: 0 <= i < |cands| && cands[i].id !in skip ==> cands[i].id in BookIds(r)
    ensures forall k :: 0 <= k < |r| ==> r[k] in cands
  {
    if cands == [] then []
    else
      var n := |cands|;
      var p := Collect(cands[..n - 1], skip);
      var b := cands[n - 1];
      var r := if b.id in skip || b.id in BookIds(p) then p else p + [b];
      assert cands == cands[..n - 1] + [b];
      CollectSnoc(cands[..n - 1], b, skip, p, r);
      r
  }

  /** One more candidate: taken unless skipped or already taken, and the
      three facts of `Collect` carry over. */
  lemma CollectSnoc(front: seq<Book>, b: Book, skip: set<string>, p: seq<Book>, r: seq<Book>)
    requires forall k :: 0 <= k < |p| ==> p[k].id !in skip
    requires forall i :: 0 <= i < |front| && front[i].id !in skip ==> front[i].id in BookIds(p)
    requires forall k :: 0 <= k < |p| ==> p[k] in front
    requires r == if b.id in skip || b.id in BookIds(p) then p else p + [b]
    ensures forall k :: 0 <= k < |r| ==> r[k].id !in skip
    ensures forall i :: 0 <= i < |front + [b]| && (front + [b])[i].id !in skip ==> (front + [b])[i].id in BookIds(r)
    ensures forall k :: 0 <= k < |r| ==> r[k] in front + [b]
  {
    var cands := front + [b];
    if r != p {
      assert BookIds(r) == BookIds(p) + [b.id];
    }
    forall i | 0 <= i < |cands| && cands[i].id !in skip
      ensures cands[i].id in BookIds(r)
    {
      if i < |front| {
        assert cands[i] == front[i];
        assert front[i].id in BookIds(p);
      }
    }
  }

  /** No id is collected twice. */
  lemma {:induction false} CollectDistinct(cands: seq<Book>, skip: set<string>)
    ensures Distinct(BookIds(Collect(cands, skip)))
  {
    if cands != [] {
      var n := |cands|;
      var p := Collect(cands[..n - 1], skip);
      var b := cands[n - 1];
      CollectDistinct(cands[..n - 1], skip);
      CollectLast(cands, skip);
      TakeKeepsDistinct(p, b, skip, Collect(cands, skip));
    }
  }

  /** Taking a candidate whose id is new keeps the ids distinct. */
  lemma TakeKeepsDistinct(p: seq<Book>, b: Book, skip: set<string>, r: seq<Book>)
    requires Distinct(BookIds(p))
    requires r == if b.id in skip || b.id in BookIds(p) then p else p + [b]
    ensures Distinct(BookIds(r))
  {
    if r != p {
      BookIdsSnoc(p, b);
      DistinctSnoc(BookIds(p), b.id);
    }
  }

  /** The last candidate is taken unless skipped or already taken. */
  lemma CollectLast(cands: seq<Book>, skip: set<string>)
    requires cands != []
    ensures var p := Collect(cands[..|cands| - 1], skip);
            var b := cands[|cands| - 1];
            Collect(cands, skip) == if b.id in skip || b.id in BookIds(p) then p else p + [b]
  {
  }

  lemma BookIdsSnoc(books: seq<Book>, b: Book)
    ensures BookIds(books + [b]) == BookIds(books) + [b.id]
  {
  }

  /** Every book of `r` is the candidate at the first position of its id. */
  predicate FromFirst(cands: seq<Book>, r: seq<Book>) {
    forall k :: 0 <= k < |r| ==> r[k].id in BookIds(cands) && r[k] == cands[PageText.Pos(BookIds(cands), r[k].id)]
  }

  /** A later candidate does not change which candidate comes first for
      an id already present. */
  lemma FromFirstGrows(cands: seq<Book>, b: Book, r: seq<Book>)
    requires FromFirst(cands, r)
    ensures FromFirst(cands + [b], r)
  {
    var ids := BookIds(cands + [b]);
    assert ids == BookIds(cands) + [b.id];
    forall k | 0 <= k < |r|
      ensures r[k].id in ids && r[k] == (cands + [b])[PageText.Pos(ids, r[k].id)]
    {
      var j := PageText.Pos(BookIds(cands), r[k].id);
      assert ids[j] == r[k].id;
      PageText.PosUnique(ids, r[k].id, j);
    }
  }

  /** A candidate with a new id is the first with it. */
  lemma FromFirstAdd(cands: seq<Book>, b: Book, r: seq<Book>)
    requires FromFirst(cands, r)
    requires b.id !in BookIds(cands)
    ensures FromFirst(cands + [b], r + [b])
  {
    FromFirstGrows(cands, b, r);
    var ids := BookIds(cands + [b]);
    assert ids == BookIds(cands) + [b.id];
    PageText.PosUnique(ids, b.id, |cands|);
    var r' := r + [b];
    forall k | 0 <= k < |r'|
      ensures r'[k].id in ids && r'[k] == (cands + [b])[PageText.Pos(ids, r'[k].id)]
    {
      if k < |r| {
        assert r'[k] == r[k];
      }
    }
  }

  /** Each collected book is the candidate at the first position of its
      id. */
  lemma {:induction false} CollectTakesFirst(cands: seq<Book>, skip: set<string>)
    ensures FromFirst(cands, Collect(cands, skip))
  {
    if cands != [] {
      var n := |cands|;
      var front := cands[..n - 1];
      var b := cands[n - 1];
      assert cands == front + [b];
      var p := Collect(front, skip);
      CollectTakesFirst(front, skip);
      if b.id in skip || b.id in BookIds(p) {
        assert Collect(cands, skip) == p;
        FromFirstGrows(front, b, p);
      } else {
        assert Collect(cands, skip) == p + [b];
        forall j | 0 <= j < n - 1
          ensures BookIds(front)[j] != b.id
        {
          assert BookIds(front)[j] == front[j].id;
        }
        FromFirstAdd(front, b, p);
      }
    }
  }

  /** `collectBooks` before the shuffle: one book per id that is not
      disliked, taken from the first link with that id. */
  function CollectBooks(links: seq<Link>, history: History, origin: string): (r: seq<Book>)
    ensures Distinct(BookIds(r))
    ensures forall k :: 0 <= k < |r| ==> !Disliked(history, r[k].id)
    ensures forall k :: 0 <= k < |r| ==> r[k] in LinkBooks(links, origin)
  {
    var cands := LinkBooks(links, origin);
    CollectDistinct(cands, DislikedIds(history));
    Collect(cands, DislikedIds(history))
  }

  /** Every link whose id is not disliked contributes its id, and the
      book kept for an id is built from the first link carrying it. */
  lemma CollectBooksCoversLinks(links: seq<Link>, history: History, origin: string)
    ensures var r := CollectBooks(links, history, origin);
            var cands := LinkBooks(links, origin);
            forall i :: 0 <= i < |cands| && !Disliked(history, cands[i].id) ==> cands[i].id in BookIds(r)
    ensures FromFirst(LinkBooks(links, origin), CollectBooks(links, history, origin))
  {
    CollectTakesFirst(LinkBooks(links, origin), DislikedIds(history));
  }

  // ---------------------------------------------------------------------
  // swipe and updateBookRating

  /** What the detail page added to a book before it is swiped
      (`book.detailedData`); a field it did not find is `None`. */
  datatype Detail = Detail(description: Option<string>, price: Option<string>)

  /** `a || b` where `a` may be missing: the empty string is falsy. */
  function OrElse(a: Option<string>, b: string): string {
    if a.Some? && a.value != "" then a.value else b
  }

  /** The entry `saveBookData` stores for a liked book: the detail page's
      description and price first, the card's list price next, `''` last. */
  function StoredOf(book: Book, detail: Detail): (d: StoredBook)
    ensures d.price.Str? && d.description.Str? && d.url == Str(book.href)
    ensures detail.price.Some? && detail.price.value != "" ==> d.price.s == detail.price.value
    ensures (detail.price.None? || detail.price.value == "") ==> d.price.s == book.card.listPrice
  {
    StoredBook(Str(book.card.title), Str(OrElse(detail.description, "")),
               Str(OrElse(detail.price, book.card.listPrice)), Str(book.card.imageUrl), Str(book.href))
  }

  /** `swipe(direction)` on the book shown: the history records the
      direction; a like also stores the book's data, a dislike leaves the
      stored data alone. */
  function Swipe(st: Store, book: Book, direction: Rating, detail: Detail): (r: Store)
    ensures Get(r.history, book.id) == Some(direction)
    ensures forall k :: k != book.id ==> Get(r.history, k) == Get(st.history, k)
    ensures direction == Like ==> Get(r.liked, book.id) == Some(StoredOf(book, detail))
    ensures forall k :: k != book.id ==> Get(r.liked, k) == Get(st.liked, k)
    ensures direction == Dislike ==> r.liked == st.liked
  {
    var history := Set(st.history, book.id, direction);
    if direction == Like then Store(history, Set(st.liked, book.id, StoredOf(book, detail)))
    else Store(history, st.liked)
  }

  /** `updateBookRating(bookId, rating)` from the product page, with
      `rating` `null` as `None` and the page's data (what
      `extractCurrentPageBookData` returned) as `pageData`. */
  function UpdateBookRating(st: Store, id: string, rating: Option<Rating>, pageData: Option<StoredBook>): (r: Store)
    ensures Get(r.history, id) == rating
    ensures rating.None? ==> Get(r.liked, id) == None
    ensures rating == Some(Dislike) ==> Get(r.liked, id) == None
    ensures rating == Some(Like) ==> Get(r.liked, id) == (if pageData.Some? then pageData else Get(st.liked, id))
    ensures forall k :: k != id ==> Get(r.history, k) == Get(st.history, k) && Get(r.liked, k) == Get(st.liked, k)
  {
    match rating
    case None => Store(Delete(st.history, id), Delete(st.liked, id))
    case Some(Dislike) => Store(Set(st.history, id, Dislike), Delete(st.liked, id))
    case Some(Like) =>
      Store(Set(st.history, id, Like), if pageData.Some? then Set(st.liked, id, pageData.value) else st.liked)
  }

  /** A like from the swipe card and a like from the product page store
      the same thing; a dislike records the same history, but only the
      product page drops the stored data. */
  lemma SwipeAgreesWithRating(st: Store, book: Book, direction: Rating, detail: Detail)
    ensures var s := Swipe(st, book, direction, detail);
            var u := UpdateBookRating(st, book.id, Some(direction), Some(StoredOf(book, detail)));
            s.history == u.history && (direction == Like ==> s.liked == u.liked)
    ensures direction == Dislike ==>
              Swipe(st, book, direction, detail).liked == st.liked &&
              Get(UpdateBookRating(st, book.id, Some(direction), None).liked, book.id) == None
  {
  }

  /** The liked and disliked counts move by exactly the rating given and
      the rating replaced. */
  lemma RatingCounts(st: Store, id: string, rating: Option<Rating>, pageData: Option<StoredBook>, w: Rating)
    requires DistinctKeys(st.history)
    ensures CountValue(UpdateBookRating(st, id, rating, pageData).history, w) + (if Get(st.history, id) == Some(w) then 1 else 0)
            == CountValue(st.history, w) + (if rating == Some(w) then 1 else 0)
  {
    if rating.Some? {
      CountAfterSet(st.history, id, rating.value, w);
    } else {
      CountAfterDelete(st.history, id, w);
    }
  }

  /** Rating a book twice the same way is rating it once. */
  lemma RatingIdempotent(st: Store, id: string, rating: Option<Rating>, pageData: Option<StoredBook>)
    ensures var once := UpdateBookRating(st, id, rating, pageData);
            UpdateBookRating(once, id, rating, pageData) == once
  {
    match rating
    case None =>
      DeleteTwice(st.history, id);
      DeleteTwice(st.liked, id);
    case Some(Dislike) =>
      SetTwice(st.history, id, Dislike, Dislike);
      DeleteTwice(st.liked, id);
    case Some(Like) =>
      SetTwice(st.history, id, Like, Like);
      if pageData.Some? {
        SetTwice(st.liked, id, pageData.value, pageData.value);
      }
  }

  /** Every rating keeps each liked book's data in store, except a like
      given on a page whose data could not be read for a book never
      stored before. That exception needs the page reader to throw, which
      a normal product page does not cause. */
  lemma RatingKeepsLikedData(st: Store, id: string, rating: Option<Rating>, pageData: Option<StoredBook>)
    requires LikedHaveData(st)
    ensures !(rating == Some(Like) && pageData.None? && Get(st.liked, id).None?) ==>
              LikedHaveData(UpdateBookRating(st, id, rating, pageData))
    ensures rating == Some(Like) && pageData.None? && Get(st.liked, id).None? ==>
              !LikedHaveData(UpdateBookRating(st, id, rating, pageData))
  {
  }

  /** A swipe keeps each liked book's data in store. */
  lemma SwipeKeepsLikedData(st: Store, book: Book, direction: Rating, detail: Detail)
    requires LikedHaveData(st)
    ensures LikedHaveData(Swipe(st, book, direction, detail))
  {
  }
}
