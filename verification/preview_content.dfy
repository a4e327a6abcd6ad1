/** The hover preview of the book-preview extension (`content.js`): which
    links count as book links, where the popup is placed next to a link,
    what a fetched product page yields, and the popup's hover, cache and
    hide logic as a state machine. Mouse events, the result of the
    `:hover` check, timer expiry and fetch outcomes are events; the DOM,
    `fetch` and `DOMParser` are left out. */
module PreviewContent {
  import opened Base
  import opened JsObject
  import PageText
  import SwipeContent

  // ---------------------------------------------------------------------
  // isBookLink

  /** `isBookLink`: a non-empty `href` containing the product path. */
  predicate IsBookLink(href: Option<string>) {
    href.Some? && href.value != "" && Contains(href.value, SwipeContent.ProductPath)
  }

  /** The empty check is subsumed: an `href` is a book link exactly when
      it contains the product path. */
  lemma BookLinkIffProductPath(href: string)
    ensures IsBookLink(Some(href)) <==> Contains(href, SwipeContent.ProductPath)
  {
    if Contains(href, SwipeContent.ProductPath) {
      var i :| 0 <= i <= |href| && OccursAt(href, SwipeContent.ProductPath, i);
      assert |href| >= |SwipeContent.ProductPath|;
    }
  }

  // ---------------------------------------------------------------------
  // positionPopupNearElement

  const PopupWidth: real := 320.0
  const MaxPopupHeight: real := 400.0
  const MinPopupHeight: real := 200.0
  /** The distance kept from the link. */
  const Gap: real := 8.0
  /** The distance kept from the viewport's edges. */
  const Margin: real := 16.0
  /** What the content area leaves for the popup's border. */
  const Border: real := 4.0

  function Max(a: real, b: real): real { if a >= b then a else b }
  function Min(a: real, b: real): real { if a <= b then a else b }

  /** The link's bounding rectangle, relative to the viewport. */
  datatype Rect = Rect(left: real, top: real, right: real, bottom: real)

  /** The page's scroll offsets and the window's inner size. */
  datatype Viewport = Viewport(scrollLeft: real, scrollTop: real, width: real, height: real)
  {
    function Top(): real { scrollTop }
    function Bottom(): real { scrollTop + height }
  }

  /** The popup's `left`, `top` and `max-height` styles. */
  datatype Placement = Placement(left: real, top: real, maxHeight: real)

  datatype Side = RightOf | LeftOf | Below

  /** A position before the final clamping, with the height available
      below its top. */
  datatype Draft = Draft(side: Side, left: real, top: real, available: real)

  function AbsLeft(e: Rect, v: Viewport): real { e.left + v.scrollLeft }
  function AbsTop(e: Rect, v: Viewport): real { e.top + v.scrollTop }
  function AbsRight(e: Rect, v: Viewport): real { e.right + v.scrollLeft }
  function AbsBottom(e: Rect, v: Viewport): real { e.bottom + v.scrollTop }

  /** The popup fits to the right of the link, inside the viewport. */
  predicate RoomRight(e: Rect, v: Viewport) {
    v.scrollLeft + Margin <= AbsRight(e, v) + Gap
    && AbsRight(e, v) + Gap + PopupWidth <= v.scrollLeft + v.width - Margin
  }

  /** The popup would overflow on the right. */
  predicate OverflowsRight(e: Rect, v: Viewport) {
    AbsRight(e, v) + Gap + PopupWidth > v.scrollLeft + v.width - Margin
  }

  /** The popup fits to the left of the link without leaving the viewport
      on the left. */
  predicate RoomLeft(e: Rect, v: Viewport) {
    AbsLeft(e, v) - PopupWidth - Gap >= v.scrollLeft + Margin
  }

  /** The side the popup goes to, stated as a preference: right of the
      link when it fits there, left of it when the right overflows and the
      left fits, and below it otherwise. */
  function SideOf(e: Rect, v: Viewport): (s: Side) {
    if RoomRight(e, v) then RightOf
    else if OverflowsRight(e, v) && RoomLeft(e, v) then LeftOf
    else Below
  }

  /** The first two moves: right of the link, else left of it, else below
      it, with the height available below the chosen top. */
  function Beside(e: Rect, v: Viewport): (d: Draft)
    ensures d.side == SideOf(e, v)
    ensures d.side == RightOf ==> d.left == AbsRight(e, v) + Gap && d.top == AbsTop(e, v)
    ensures d.side == LeftOf ==> d.left == AbsLeft(e, v) - PopupWidth - Gap && d.top == AbsTop(e, v)
    ensures d.side == Below ==> d.left == AbsLeft(e, v) && d.top == AbsBottom(e, v) + Gap
    ensures d.available == v.Bottom() - Max(d.top, v.Top()) - Margin
  {
    var right := AbsRight(e, v) + Gap;
    var side := if right + PopupWidth > v.scrollLeft + v.width - Margin then LeftOf else RightOf;
    var left := if side == LeftOf then AbsLeft(e, v) - PopupWidth - Gap else right;
    if left < v.scrollLeft + Margin then
      var top := AbsBottom(e, v) + Gap;
      Draft(Below, AbsLeft(e, v), top, v.Bottom() - Max(top, v.Top()) - Margin)
    else
      Draft(side, left, AbsTop(e, v), v.Bottom() - Max(AbsTop(e, v), v.Top()) - Margin)
  }

  /** With less than the minimum height below, the popup moves above the
      link, as high as a full-height popup needs but not past the top
      margin, and the height available is then what lies between that top
      and the link's top (or the viewport's bottom, when that is higher),
      less the margin. */
  function Flip(d: Draft, e: Rect, v: Viewport): (f: Draft)
    ensures f.side == d.side && f.left == d.left
    ensures d.available >= MinPopupHeight ==> f == d
    ensures d.available < MinPopupHeight ==> f.top == Max(v.Top() + Margin, AbsTop(e, v) - MaxPopupHeight - Gap)
    ensures d.available < MinPopupHeight ==> f.available == Min(AbsTop(e, v), v.Bottom()) - Max(f.top, v.Top()) - Margin
  {
    if d.available < MinPopupHeight then
      var top := Max(v.Top() + Margin, AbsTop(e, v) - MaxPopupHeight - Gap);
      Draft(d.side, d.left, top, Min(AbsTop(e, v), v.Bottom()) - Max(top, v.Top()) - Margin)
    else d
  }

  /** `positionPopupNearElement`: the flipped draft, clamped into the
      viewport, with the available height bounded by the popup's minimum
      and maximum. */
  function PositionPopup(e: Rect, v: Viewport): (p: Placement)
    ensures MinPopupHeight <= p.maxHeight <= MaxPopupHeight
    ensures p.maxHeight == Min(MaxPopupHeight, Max(MinPopupHeight, Flip(Beside(e, v), e, v).available))
    ensures Beside(e, v).available >= MinPopupHeight ==> p.maxHeight == Min(MaxPopupHeight, Beside(e, v).available)
    ensures p.left >= v.scrollLeft + Margin
    ensures v.width >= PopupWidth + 2.0 * Margin ==> p.left + PopupWidth <= v.scrollLeft + v.width - Margin
    ensures p.top >= v.Top() + Margin
    ensures v.height >= MinPopupHeight + Margin ==> p.top + MinPopupHeight <= v.Bottom()
  {
    var d := Flip(Beside(e, v), e, v);
    var left := Max(v.scrollLeft + Margin, Min(d.left, v.scrollLeft + v.width - PopupWidth - Margin));
    var top := Max(v.Top() + Margin, Min(d.top, v.Bottom() - MinPopupHeight));
    Placement(left, top, Min(MaxPopupHeight, Max(MinPopupHeight, d.available)))
  }

  /** The horizontal preference is kept through the clamping: right of
      the link with the gap, wholly left of it with the gap, or, below it,
      aligned with its left edge when that edge leaves room. */
  lemma PlacementPrefersRightThenLeft(e: Rect, v: Viewport)
    ensures SideOf(e, v) == RightOf ==> PositionPopup(e, v).left == AbsRight(e, v) + Gap
    ensures SideOf(e, v) == LeftOf ==> PositionPopup(e, v).left + PopupWidth + Gap <= AbsLeft(e, v)
    ensures SideOf(e, v) == Below && v.scrollLeft + Margin <= AbsLeft(e, v) <= v.scrollLeft + v.width - PopupWidth - Margin ==>
              PositionPopup(e, v).left == AbsLeft(e, v)
  {
    var d := Beside(e, v);
    assert Flip(d, e, v).left == d.left;
  }

  /** Vertically: beside the link the popup is top-aligned with it, below
      the link it starts one gap under it, whenever that top leaves the
      minimum height inside the viewport; otherwise, when the link's top
      is on screen and high enough, a full-height popup ends one gap above
      it. */
  lemma PlacementVertical(e: Rect, v: Viewport)
    ensures SideOf(e, v) != Below && v.Top() + Margin <= AbsTop(e, v) <= v.Bottom() - MinPopupHeight - Margin ==>
              PositionPopup(e, v).top == AbsTop(e, v)
    ensures SideOf(e, v) == Below && v.Top() + Margin <= AbsBottom(e, v) + Gap <= v.Bottom() - MinPopupHeight - Margin ==>
              PositionPopup(e, v).top == AbsBottom(e, v) + Gap
    ensures Beside(e, v).available < MinPopupHeight && v.Top() + Margin <= AbsTop(e, v) - MaxPopupHeight - Gap && AbsTop(e, v) <= v.Bottom() ==>
              PositionPopup(e, v).top + MaxPopupHeight + Gap == AbsTop(e, v)
  {
    var d := Beside(e, v);
    var f := Flip(d, e, v);
    if d.available >= MinPopupHeight {
      assert f == d;
    }
  }

  // ---------------------------------------------------------------------
  // parseBookData

  /** A string that JavaScript treats as true: present and not empty. */
  predicate Truthy(s: Option<string>) {
    s.Some? && s.value != ""
  }

  /** A hovered link: its identity (`===`), `href`, the `alt` of an image
      inside it and its text. */
  datatype Link = Link(id: nat, href: Option<string>, imageAlt: Option<string>, text: string)

  /** What the selectors of each field found on the fetched page, in
      selector order, and the texts of the tag elements. */
  datatype Page = Page(
    titles: seq<Option<PageText.Element>>,
    authors: seq<Option<PageText.Element>>,
    descriptions: seq<Option<PageText.Element>>,
    prices: seq<Option<PageText.Element>>,
    tagTexts: seq<string>)

  datatype BookData = BookData(
    title: Option<string>, author: Option<string>, description: Option<string>,
    price: Option<string>, tags: seq<string>)

  /** `extractTextFromLink`: the image's `alt`, else the link's trimmed
      text, else nothing. */
  function LinkTitle(link: Link): (r: Option<string>)
    ensures r.Some? ==> r.value != ""
    ensures r.None? <==> !Truthy(link.imageAlt) && Trim(link.text) == ""
    ensures Truthy(link.imageAlt) ==> r == link.imageAlt
  {
    if Truthy(link.imageAlt) then link.imageAlt
    else
      var t := Trim(link.text);
      if t != "" then Some(t) else None
  }

  /** `parseBookData`: each field from its selectors; the title falls back
      to the link when the page gives no title or an empty one. */
  function ParseBookData(page: Page, link: Link): (r: BookData)
    ensures Truthy(PageText.ExtractText(page.titles)) ==> r.title == PageText.ExtractText(page.titles)
    ensures !Truthy(PageText.ExtractText(page.titles)) ==> r.title == LinkTitle(link)
    ensures r.author == PageText.ExtractText(page.authors)
    ensures r.description == PageText.ExtractText(page.descriptions)
    ensures r.price == PageText.ExtractText(page.prices)
    ensures r.tags == PageText.ExtractTags(page.tagTexts)
    ensures r.title.Some? ==> r.title.value != ""
    ensures Distinct(r.tags)
    ensures forall k :: 0 <= k < |r.tags| ==> r.tags[k] != "" && r.tags[k] in PageText.Trims(page.tagTexts)
    ensures forall i :: 0 <= i < |page.tagTexts| && PageText.Trims(page.tagTexts)[i] != "" ==>
              PageText.Trims(page.tagTexts)[i] in r.tags
  {
    var title := PageText.ExtractText(page.titles);
    BookData(
      if Truthy(title) then title else LinkTitle(link),
      PageText.ExtractText(page.authors),
      PageText.ExtractText(page.descriptions),
      PageText.ExtractText(page.prices),
      PageText.ExtractTags(page.tagTexts))
  }

  // ---------------------------------------------------------------------
  // showPopup

  datatype Section = TitleSection | AuthorSection | PriceSection | DescriptionSection | TagsSection

  /** Where a section sits in the popup, top to bottom. */
  function Rank(s: Section): nat {
    match s
    case TitleSection => 0
    case AuthorSection => 1
    case PriceSection => 2
    case DescriptionSection => 3
    case TagsSection => 4
  }

  /** The field behind a section has something to show. */
  predicate Present(d: BookData, s: Section) {
    match s
    case TitleSection => Truthy(d.title)
    case AuthorSection => Truthy(d.author)
    case PriceSection => Truthy(d.price)
    case DescriptionSection => Truthy(d.description)
    case TagsSection => d.tags != []
  }

  /** The sections of `order` that have something to show, in order. */
  function Keep(order: seq<Section>, d: BookData): (r: seq<Section>)
    ensures forall x :: x in r <==> x in order && Present(d, x)
    ensures (forall i, j :: 0 <= i < j < |order| ==> Rank(order[i]) < Rank(order[j])) ==>
              forall i, j :: 0 <= i < j < |r| ==> Rank(r[i]) < Rank(r[j])
  {
    if order == [] then []
    else
      var rest := Keep(order[1..], d);
      assert forall i :: 0 <= i < |rest| ==> rest[i] in order[1..];
      if Present(d, order[0]) then [order[0]] + rest else rest
  }

  /** The sections top to bottom: the price above the description. */
  const SectionOrder: seq<Section> := [TitleSection, AuthorSection, PriceSection, DescriptionSection, TagsSection]

  /** The sections `showPopup` renders: one per field with something to
      show, in the popup's order. */
  function Sections(d: BookData): (r: seq<Section>)
    ensures TitleSection in r <==> Truthy(d.title)
    ensures AuthorSection in r <==> Truthy(d.author)
    ensures PriceSection in r <==> Truthy(d.price)
    ensures DescriptionSection in r <==> Truthy(d.description)
    ensures TagsSection in r <==> d.tags != []
    ensures forall i, j :: 0 <= i < j < |r| ==> Rank(r[i]) < Rank(r[j])
  {
    forall x: Section
      ensures x in SectionOrder
    {
      assert SectionOrder[Rank(x)] == x;
    }
    Keep(SectionOrder, d)
  }

  // ---------------------------------------------------------------------
  // The hover state machine

  /** What the popup's content shows, with the link it was rendered
      for. */
  datatype Content = Loading(link: Link) | Details(link: Link, data: BookData) | Failed(link: Link)

  /** `origin` is the page's `window.location.origin`. `hideTimer` says a
      hide is scheduled; `pendingChecks` counts the hover checks that
      `mouseout` deferred by 10 ms. `placement` holds the popup's styles
      and `contentMaxHeight` the content element's, absent while there is
      no content element or it has none. */
  datatype State = State(
    origin: string,
    hovered: Option<Link>,
    hideTimer: bool,
    pendingChecks: nat,
    cache: map<string, BookData>,
    shown: bool,
    content: Option<Content>,
    placement: Option<Placement>,
    contentMaxHeight: Option<real>)

  function Init(origin: string): (s: State)
    ensures !s.shown && s.hovered.None? && !s.hideTimer && s.cache == map[]
  {
    State(origin, None, false, 0, map[], false, None, None, None)
  }

  datatype Event =
    | OverLink(link: Link, element: Rect, view: Viewport)   // `mouseover` inside a link matching the book selector
    | OverPopup                                              // `mouseover` inside the popup
    | OutOfLink(link: Link)                                  // `mouseout` from inside a book link
    | OutOfPopup                                             // `mouseout` from inside the popup
    | HoverCheck(stillHovering: bool)                        // a deferred check runs; is a book or the popup hovered?
    | HideTimerFires
    | FetchLoaded(link: Link, url: string, data: BookData)  // the page at `url` came back; `ParseBookData` read `data` from it
    | FetchFailed(link: Link)

  /** How rendering treats the content element's height: as the source
      does, where the new content element has none, or keeping the height
      of the current placement. */
  datatype Variant = AsWritten | HeightKept

  /** A step's new state and the URL it starts fetching, if any. */
  datatype Outcome = Outcome(state: State, fetch: Option<string>)

  /** `clearHideTimeout`. */
  function ClearHide(s: State): State {
    s.(hideTimer := false)
  }

  /** `scheduleHide`: any earlier hide is replaced by a new one. */
  function ScheduleHide(s: State): State {
    ClearHide(s).(hideTimer := true)
  }

  /** `hidePopup`. */
  function HidePopup(s: State): (r: State)
    ensures !r.shown && r.hovered.None? && !r.hideTimer
    ensures r.cache == s.cache && r.content == s.content && r.origin == s.origin
    ensures r.placement == s.placement && r.contentMaxHeight == s.contentMaxHeight
  {
    ClearHide(s.(shown := false, hovered := None))
  }

  /** Replacing the popup's content: a new content element. */
  function Render(s: State, c: Content, v: Variant): (r: State)
    ensures r.content == Some(c) && r.shown == s.shown && r.hovered == s.hovered && r.cache == s.cache
    ensures r.origin == s.origin && r.placement == s.placement
    ensures v == AsWritten ==> r.contentMaxHeight.None?
    ensures v == HeightKept && s.placement.Some? ==> r.contentMaxHeight == Some(s.placement.value.maxHeight - Border)
  {
    s.(content := Some(c),
       contentMaxHeight := if v == HeightKept && s.placement.Some? then Some(s.placement.value.maxHeight - Border) else None)
  }

  /** `showPopup`. */
  function Show(s: State, c: Content, v: Variant): (r: State)
    ensures r.shown && r.content == Some(c) && r.hovered == s.hovered && r.cache == s.cache
    ensures r.origin == s.origin && r.placement == s.placement
    ensures v == HeightKept && s.placement.Some? ==> r.contentMaxHeight == Some(s.placement.value.maxHeight - Border)
  {
    Render(s, c, v).(shown := true)
  }

  /** The styles `positionPopupNearElement` sets; the content element
      gets its height only when there is one. */
  function Position(s: State, e: Rect, view: Viewport): (r: State)
    ensures r.placement == Some(PositionPopup(e, view))
    ensures s.content.Some? ==> r.contentMaxHeight == Some(PositionPopup(e, view).maxHeight - Border)
    ensures r.content == s.content && r.shown == s.shown && r.hovered == s.hovered && r.cache == s.cache
    ensures r.origin == s.origin
  {
    var p := PositionPopup(e, view);
    s.(placement := Some(p), contentMaxHeight := if s.content.Some? then Some(p.maxHeight - Border) else s.contentMaxHeight)
  }

  /** `loadBookDetails` up to its first `await`: a cached page is shown at
      once, anything else shows the loading view and is fetched. */
  function Load(s: State, link: Link, v: Variant): (o: Outcome)
    ensures !Truthy(link.href) ==> o == Outcome(s, None)
    ensures Truthy(link.href) && SwipeContent.Absolute(s.origin, link.href.value) in s.cache ==>
              o == Outcome(Show(s, Details(link, s.cache[SwipeContent.Absolute(s.origin, link.href.value)]), v), None)
    ensures Truthy(link.href) && SwipeContent.Absolute(s.origin, link.href.value) !in s.cache ==>
              o == Outcome(Show(s, Loading(link), v), Some(SwipeContent.Absolute(s.origin, link.href.value)))
  {
    if !Truthy(link.href) then Outcome(s, None)
    else
      var url := SwipeContent.Absolute(s.origin, link.href.value);
      if url in s.cache then Outcome(Show(s, Details(link, s.cache[url]), v), None)
      else Outcome(Show(s, Loading(link), v), Some(url))
  }

  /** `handleMouseEnter`. */
  function Enter(s: State, link: Link, e: Rect, view: Viewport, v: Variant): (o: Outcome)
    ensures Truthy(link.href) ==> o.state.shown && o.state.content.Some? && o.state.content.value.link == link
    ensures o.state.hovered == Some(link) && !o.state.hideTimer
    ensures o.state.placement == Some(PositionPopup(e, view))
    ensures o.state.cache == s.cache && o.state.origin == s.origin
  {
    Load(Position(ClearHide(s).(hovered := Some(link)), e, view), link, v)
  }

  /** One event. */
  function Step(s: State, ev: Event, v: Variant): (o: Outcome)
    ensures o.fetch.Some? ==> ev.OverLink? && o.state.content == Some(Loading(ev.link))
  {
    match ev
    case OverLink(link, e, view) =>
      if IsBookLink(link.href) then Enter(s, link, e, view, v) else Outcome(s, None)
    case OverPopup => Outcome(ClearHide(s), None)
    case OutOfLink(link) =>
      Outcome(if s.hovered == Some(link) then s.(pendingChecks := s.pendingChecks + 1) else s, None)
    case OutOfPopup => Outcome(s.(pendingChecks := s.pendingChecks + 1), None)
    case HoverCheck(stillHovering) =>
      if s.pendingChecks == 0 then Outcome(s, None)
      else
        var s1 := s.(pendingChecks := s.pendingChecks - 1);
        Outcome(if stillHovering then s1 else ScheduleHide(s1), None)
    case HideTimerFires => Outcome(if s.hideTimer then HidePopup(s) else s, None)
    case FetchLoaded(link, url, data) =>
      var s1 := s.(cache := s.cache[url := data]);
      Outcome(if s.hovered == Some(link) then Show(s1, Details(link, data), v) else s1, None)
    case FetchFailed(link) =>
      Outcome(if s.hovered == Some(link) then Render(s, Failed(link), v) else s, None)
  }

  // ---------------------------------------------------------------------
  // Properties of the state machine

  /** Whatever the popup shows was rendered for the link now hovered. */
  predicate ShowsHovered(s: State) {
    s.shown ==> s.content.Some? && s.hovered == Some(s.content.value.link)
  }

  lemma InitShowsHovered(origin: string)
    ensures ShowsHovered(Init(origin))
  {
  }

  /** No event, and no late fetch result in particular, leaves the popup
      showing content for a link other than the hovered one. */
  lemma StepShowsHovered(s: State, ev: Event, v: Variant)
    requires ShowsHovered(s)
    ensures ShowsHovered(Step(s, ev, v).state)
  {
    if ev.OverLink? && IsBookLink(ev.link.href) {
      assert Truthy(ev.link.href);
    }
  }

  /** A hovered book link whose page is cached is shown from the cache,
      with nothing fetched. */
  lemma CachedLinkNeedsNoFetch(s: State, link: Link, e: Rect, view: Viewport, v: Variant)
    requires IsBookLink(link.href)
    requires SwipeContent.Absolute(s.origin, link.href.value) in s.cache
    ensures Step(s, OverLink(link, e, view), v).fetch.None?
    ensures Step(s, OverLink(link, e, view), v).state.shown
    ensures Step(s, OverLink(link, e, view), v).state.content ==
              Some(Details(link, s.cache[SwipeContent.Absolute(s.origin, link.href.value)]))
  {
  }

  /** Any other hovered book link shows the loading view and has its full
      URL fetched. */
  lemma UncachedLinkFetches(s: State, link: Link, e: Rect, view: Viewport, v: Variant)
    requires IsBookLink(link.href)
    requires SwipeContent.Absolute(s.origin, link.href.value) !in s.cache
    ensures Step(s, OverLink(link, e, view), v).fetch == Some(SwipeContent.Absolute(s.origin, link.href.value))
    ensures Step(s, OverLink(link, e, view), v).state.shown
    ensures Step(s, OverLink(link, e, view), v).state.content == Some(Loading(link))
  {
  }

  /** Once a page's result is in, hovering the link again shows the
      parsed data and fetches nothing. */
  lemma FetchedPageIsReused(s: State, link: Link, data: BookData, e: Rect, view: Viewport, v: Variant)
    requires IsBookLink(link.href)
    ensures var url := SwipeContent.Absolute(s.origin, link.href.value);
            var s1 := Step(s, FetchLoaded(link, url, data), v).state;
            Step(s1, OverLink(link, e, view), v).fetch.None?
            && Step(s1, OverLink(link, e, view), v).state.content == Some(Details(link, data))
  {
    var url := SwipeContent.Absolute(s.origin, link.href.value);
    var s1 := Step(s, FetchLoaded(link, url, data), v).state;
    StepCache(s, FetchLoaded(link, url, data), v);
    assert url in s1.cache && s1.cache[url] == data;
    CachedLinkNeedsNoFetch(s1, link, e, view, v);
  }

  /** A result for a link no longer hovered is cached and changes nothing
      else; a failure for it changes nothing at all. */
  lemma LateResultOnlyCached(s: State, link: Link, url: string, data: BookData, v: Variant)
    requires s.hovered != Some(link)
    ensures Step(s, FetchLoaded(link, url, data), v).state == s.(cache := s.cache[url := data])
    ensures Step(s, FetchFailed(link), v).state == s
  {
  }

  /** A result for the hovered link is cached and shown. */
  lemma CurrentResultShown(s: State, link: Link, url: string, data: BookData, v: Variant)
    requires s.hovered == Some(link)
    ensures var r := Step(s, FetchLoaded(link, url, data), v).state;
            r.shown && r.content == Some(Details(link, data)) && r.cache == s.cache[url := data]
  {
  }

  /** A failure for the hovered link shows the error view, leaving the
      cache alone. */
  lemma CurrentFailureShown(s: State, link: Link, v: Variant)
    requires s.hovered == Some(link)
    ensures var r := Step(s, FetchFailed(link), v).state;
            r.content == Some(Failed(link)) && r.cache == s.cache && r.shown == s.shown
  {
  }

  /** The cache only grows, and an entry changes only when its own URL's
      result comes in. */
  lemma CacheOnlyGrows(s: State, ev: Event, v: Variant)
    ensures s.cache.Keys <= Step(s, ev, v).state.cache.Keys
    ensures forall url :: url in s.cache && !(ev.FetchLoaded? && ev.url == url) ==>
              Step(s, ev, v).state.cache[url] == s.cache[url]
  {
    StepCache(s, ev, v);
  }

  /** The origin never changes, and the cache changes only by the entry
      of a result that comes in. */
  lemma StepCache(s: State, ev: Event, v: Variant)
    ensures Step(s, ev, v).state.origin == s.origin
    ensures Step(s, ev, v).state.cache ==
              if ev.FetchLoaded? then s.cache[ev.url := ev.data] else s.cache
  {
    match ev
    case OverLink(link, e, view) =>
      if IsBookLink(link.href) {
        StepOverBook(s, link, e, view, v);
      }
    case OverPopup =>
    case OutOfLink(link) =>
    case OutOfPopup =>
    case HoverCheck(stillHovering) =>
    case HideTimerFires =>
    case FetchLoaded(link, url, data) =>
      StepLoaded(s, link, url, data, v);
    case FetchFailed(link) =>
  }

  /** A scheduled hide leaves nothing shown, nothing hovered and no hide
      pending; with no hide scheduled the timer event does nothing. */
  lemma HideClearsHover(s: State, v: Variant)
    ensures s.hideTimer ==> var r := Step(s, HideTimerFires, v).state;
              !r.shown && r.hovered.None? && !r.hideTimer && r.cache == s.cache
    ensures !s.hideTimer ==> Step(s, HideTimerFires, v).state == s
  {
  }

  /** Moving onto the popup cancels a scheduled hide, so the popup stays
      as it is when the timer would have fired. */
  lemma PopupHoverKeepsPopup(s: State, v: Variant)
    ensures var s1 := Step(s, OverPopup, v).state;
            Step(s1, HideTimerFires, v).state == s1
            && s1.shown == s.shown && s1.content == s.content && s1.hovered == s.hovered
  {
  }

  /** Leaving is confirmed before anything is hidden: a deferred check
      that still finds a book or the popup hovered schedules nothing, one
      that finds neither schedules the hide. */
  lemma LeaveSchedulesHide(s: State, link: Link, stillHovering: bool, v: Variant)
    requires s.hovered == Some(link)
    ensures var s1 := Step(Step(s, OutOfLink(link), v).state, HoverCheck(stillHovering), v).state;
            s1.hideTimer == (s.hideTimer || !stillHovering) && s1.shown == s.shown && s1.hovered == s.hovered
  {
  }

  // ---------------------------------------------------------------------
  // The content element's height

  /** The content element's height matches the popup's placement. */
  predicate HeightMatches(s: State) {
    s.content.Some? && s.placement.Some? ==> s.contentMaxHeight == Some(s.placement.value.maxHeight - Border)
  }

  /** As written, the height `positionPopupNearElement` gives the content
      element is lost straight away: hovering a book link re-renders the
      content, and the new element has no height. */
  lemma ContentHeightDropped(s: State, link: Link, e: Rect, view: Viewport)
    requires IsBookLink(link.href)
    ensures var r := Step(s, OverLink(link, e, view), AsWritten).state;
            r.content.Some? && r.placement == Some(PositionPopup(e, view)) && r.contentMaxHeight.None? && !HeightMatches(r)
  {
    assert Truthy(link.href);
  }

  /** Rendering with the placement's height, every state reached keeps
      the content element's height in step with the popup's. */
  lemma ContentHeightKept(s: State, ev: Event)
    requires HeightMatches(s)
    ensures HeightMatches(Step(s, ev, HeightKept).state)
  {
    if ev.OverLink? {
      HoverKeepsHeight(s, ev);
    } else if ev.FetchLoaded? {
      LoadedKeepsHeight(s, ev);
    } else {
      OtherEventsKeepHeight(s, ev);
    }
  }

  lemma HoverKeepsHeight(s: State, ev: Event)
    requires HeightMatches(s) && ev.OverLink?
    ensures HeightMatches(Step(s, ev, HeightKept).state)
  {
    if IsBookLink(ev.link.href) {
      HoverRendersPlacedHeight(s, ev.link, ev.element, ev.view);
    }
  }

  lemma LoadedKeepsHeight(s: State, ev: Event)
    requires HeightMatches(s) && ev.FetchLoaded?
    ensures HeightMatches(Step(s, ev, HeightKept).state)
  {
    StepLoaded(s, ev.link, ev.url, ev.data, HeightKept);
  }

  lemma OtherEventsKeepHeight(s: State, ev: Event)
    requires HeightMatches(s) && !ev.OverLink? && !ev.FetchLoaded?
    ensures HeightMatches(Step(s, ev, HeightKept).state)
  {
  }

  /** Rendering with the placement's height, hovering a book link gives
      the content element the height of the new placement. */
  lemma HoverRendersPlacedHeight(s: State, link: Link, e: Rect, view: Viewport)
    requires IsBookLink(link.href)
    ensures var r := Step(s, OverLink(link, e, view), HeightKept).state;
            r.placement == Some(PositionPopup(e, view))
            && r.contentMaxHeight == Some(PositionPopup(e, view).maxHeight - Border)
  {
    assert Truthy(link.href);
    StepOverBook(s, link, e, view, HeightKept);
  }

  lemma StepOverBook(s: State, link: Link, e: Rect, view: Viewport, v: Variant)
    requires IsBookLink(link.href)
    ensures Step(s, OverLink(link, e, view), v) == Enter(s, link, e, view, v)
  {
  }

  lemma StepLoaded(s: State, link: Link, url: string, data: BookData, v: Variant)
    ensures var s1 := s.(cache := s.cache[url := data]);
            Step(s, FetchLoaded(link, url, data), v).state == if s.hovered == Some(link) then Show(s1, Details(link, data), v) else s1
  {
  }
}
