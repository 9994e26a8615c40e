/** The page controller: the script-wide variables of `main.js` gathered into
    one state value, and every event handler as a pure step on it. */
module Page {

  import opened Optional
  import opened Seqs
  import opened Text
  import opened Catalog
  import opened DataId
  import opened Search
  import opened Paginator
  import Modal

  /** A child of `#product-list`: a skeleton placeholder, the "Nenhum produto
      encontrado." note, or a product card whose "Ver Mais" button carries the
      product id in its `data-id` attribute. */
  datatype Node = SkeletonCard | NoResultsNote | Card(image: string, name: string, dataId: string)

  function CardOf(p: Product): Node {
    Card(p.image, p.name, RenderInt(p.id))
  }

  function CardsOf(ps: seq<Product>): (r: seq<Node>)
    ensures |r| == |ps|
    ensures forall k :: 0 <= k < |ps| ==> r[k] == CardOf(ps[k])
  {
    seq(|ps|, k requires 0 <= k < |ps| => CardOf(ps[k]))
  }

  /** The page: `allProducts`, the search bar's text, `currentFilteredProducts`,
      `currentPage`, the product list, whether the load-more and clear buttons
      show, the modal, and where the window was sent by a download. */
  datatype State = State(
    catalog: seq<Product>,
    searchText: string,
    filtered: seq<Product>,
    page: nat,
    list: seq<Node>,
    loadMore: bool,
    clear: bool,
    modal: Modal.View,
    location: Option<string>)

  /** What can happen on the page. `Typed` is an input event; `SearchFired` is
      `performSearch` running, either when the debounce timer elapses or when
      the search button is clicked. */
  datatype Event =
    | DataLoaded(data: seq<Product>)
    | Typed(text: string)
    | SearchFired
    | ClearClicked
    | LoadMoreClicked
    | ViewMoreClicked(card: nat)
    | DownloadClicked
    | CloseClicked
    | WindowClicked(onBackdrop: bool)

  /** The page before `content.json` arrives: three skeleton cards, both
      buttons hidden, page 1. */
  function Init(modal: Modal.View): (s: State)
    ensures Inv(s)
  {
    State([], "", [], 1, [SkeletonCard, SkeletonCard, SkeletonCard], false, false, modal, None)
  }

  /** `renderBatch`: append the cards of the current page and show the
      load-more button when products remain beyond it. */
  function RenderBatch(s: State): (r: State)
    requires s.page >= 1
    ensures s.list <= r.list
    ensures r.list[|s.list|..] == CardsOf(Batch(s.filtered, s.page))
    ensures r.loadMore <==> |s.filtered| > s.page * PageSize
    ensures r == s.(list := r.list, loadMore := r.loadMore)
  {
    s.(list := s.list + CardsOf(Batch(s.filtered, s.page)),
       loadMore := HasMore(s.filtered, s.page))
  }

  /** `renderProducts(products)`: clear the list, adopt `products` and go back
      to page 1; an empty list shows the no-results note and hides load-more. */
  function RenderProducts(s: State, products: seq<Product>): (r: State)
    ensures r.page == 1 && r.filtered == products
    ensures products == [] ==> r.list == [NoResultsNote] && !r.loadMore
    ensures products != [] ==>
      && r.list == CardsOf(products[..Min(PageSize, |products|)])
      && (r.loadMore <==> |products| > PageSize)
    ensures r == s.(filtered := r.filtered, page := r.page, list := r.list, loadMore := r.loadMore)
  {
    var cleared := s.(list := [], filtered := products, page := 1);
    if |products| == 0 then cleared.(list := [NoResultsNote], loadMore := false)
    else
      assert [] + CardsOf(Batch(products, 1)) == CardsOf(products[..Min(PageSize, |products|)]);
      RenderBatch(cleared)
  }

  /** `performSearch`: lower-case the text, show the clear button when it is
      non-empty, filter the catalog and render the result from page 1. */
  function PerformSearch(s: State): (r: State)
    ensures r.clear <==> s.searchText != ""
    ensures forall p :: p in r.filtered <==> p in s.catalog && Matches(p, Lower(s.searchText))
    ensures IsSubseq(r.filtered, s.catalog)
    ensures r.page == 1
    ensures r.filtered == Filter(s.catalog, Lower(s.searchText))
    ensures r.catalog == s.catalog && r.searchText == s.searchText && r.modal == s.modal
    ensures r.location == s.location
  {
    var query := Lower(s.searchText);
    FilterIsSubseq(s.catalog, query);
    RenderProducts(s.(clear := |query| > 0), Filter(s.catalog, query))
  }

  /** The product-list click delegate: a click on the "Ver Mais" button of
      card `k` parses its `data-id`, looks the id up in the catalog and opens
      the modal with the result. A fault leaves the modal as `openModal` left it. */
  function ViewMore(s: State, k: nat): (r: State)
    ensures r == s.(modal := r.modal)
    ensures (k >= |s.list| || !s.list[k].Card?) ==> r == s
  {
    if k < |s.list| && s.list[k].Card? then
      s.(modal := Modal.Open(s.modal, Find(s.catalog, ParseInt(s.list[k].dataId))).view)
    else s
  }

  /** The load-more handler: next page, then `renderBatch`. */
  function LoadMore(s: State): (r: State)
    ensures !s.loadMore ==> r == s
    ensures s.loadMore ==> r.page == s.page + 1 && s.list <= r.list
    ensures r == s.(page := r.page, list := r.list, loadMore := r.loadMore)
  {
    if s.loadMore then RenderBatch(s.(page := s.page + 1)) else s
  }

  /** The download button's `onclick`: the modal changes and the window may navigate. */
  function Download(s: State): (r: State)
    ensures r == s.(modal := r.modal, location := r.location)
    ensures r.location != s.location ==> r.location == s.modal.button.onClick
    ensures Modal.PhaseOf(s.modal) != Modal.Ready ==> r == s
    ensures Modal.PhaseOf(s.modal) == Modal.Ready && s.modal.button.onClick.Some? ==>
      && r.location == s.modal.button.onClick
      && Modal.PhaseOf(r.modal) == Modal.Downloading
      && r.modal.button.text == Modal.BusyLabel
  {
    var c := Modal.ClickDownload(s.modal);
    s.(modal := c.view, location := if c.navigateTo.Some? then c.navigateTo else s.location)
  }

  /** One event handler run to completion. Hidden buttons, a card index with
      no card, and a hidden or disabled download button receive no click. */
  function Step(s: State, e: Event): (r: State)
    ensures !e.DataLoaded? ==> r.catalog == s.catalog
    ensures !(e.Typed? || e.ClearClicked?) ==> r.searchText == s.searchText
    ensures e.Typed? ==> r == s.(searchText := e.text)
    ensures !e.DownloadClicked? ==> r.location == s.location
    ensures e.DownloadClicked? || e.CloseClicked? || e.WindowClicked? || e.ViewMoreClicked? ==>
      r.filtered == s.filtered && r.page == s.page && r.list == s.list && r.loadMore == s.loadMore
    ensures e.CloseClicked? ==> Modal.PhaseOf(r.modal) == Modal.Closed && r.modal.button == s.modal.button
    ensures e.WindowClicked? ==>
      if e.onBackdrop then Modal.PhaseOf(r.modal) == Modal.Closed && r.modal.button == s.modal.button
      else r == s
  {
    match e
    case DataLoaded(data) => RenderProducts(s.(catalog := data), data)
    case Typed(text) => s.(searchText := text)
    case SearchFired => PerformSearch(s)
    case ClearClicked => if s.clear then PerformSearch(s.(searchText := "")) else s
    case LoadMoreClicked => LoadMore(s)
    case ViewMoreClicked(k) => ViewMore(s, k)
    case DownloadClicked => Download(s)
    case CloseClicked => s.(modal := Modal.Close(s.modal))
    case WindowClicked(onBackdrop) => s.(modal := Modal.WindowClick(s.modal, onBackdrop))
  }

  function Run(s: State, events: seq<Event>): State
    decreases |events|
  {
    if events == [] then s else Run(Step(s, events[0]), events[1..])
  }

  /** What holds on every reachable page: the filtered list keeps catalog
      order, the page counter stays within the pages that exist, the list shows
      exactly the visible window (or a placeholder when nothing is filtered),
      and load-more shows exactly when products remain beyond the window. */
  ghost predicate Inv(s: State) {
    && 1 <= s.page <= PageCount(|s.filtered|)
    && IsSubseq(s.filtered, s.catalog)
    && (s.loadMore <==> HasMore(s.filtered, s.page))
    && (if s.filtered == [] then s.list == [SkeletonCard, SkeletonCard, SkeletonCard] || s.list == [NoResultsNote]
        else s.list == CardsOf(Window(s.filtered, s.page)))
  }

  lemma CardsOfAppend(a: seq<Product>, b: seq<Product>)
    ensures CardsOf(a + b) == CardsOf(a) + CardsOf(b)
  {
  }

  lemma RenderProductsInv(s: State, products: seq<Product>)
    requires IsSubseq(products, s.catalog)
    ensures Inv(RenderProducts(s, products))
  {
    HasMoreBeforeLastPage(products, 1);
  }

  /** Load-more appends exactly the next batch, which is never empty, and the
      list is again the visible window of the new page. */
  lemma LoadMoreAppendsNextBatch(s: State)
    requires Inv(s) && s.loadMore
    ensures Step(s, LoadMoreClicked).page == s.page + 1
    ensures Batch(s.filtered, s.page + 1) != []
    ensures Step(s, LoadMoreClicked).list == s.list + CardsOf(Batch(s.filtered, s.page + 1))
    ensures Step(s, LoadMoreClicked).list == CardsOf(Window(s.filtered, s.page + 1))
    ensures Inv(Step(s, LoadMoreClicked))
  {
    var f := s.filtered;
    StepLoadMore(s);
    var r := RenderBatch(s.(page := s.page + 1));
    assert r.list == s.list + CardsOf(Batch(f, s.page + 1));
    HasMoreBeforeLastPage(f, s.page);
    HasMoreIffNextBatch(f, s.page);
    RenderedIsWindow(f, s.page);
    RenderedIsWindow(f, s.page + 1);
    CardsOfAppend(Window(f, s.page), Batch(f, s.page + 1));
  }

  lemma StepLoadMore(s: State)
    requires s.loadMore
    ensures Step(s, LoadMoreClicked) == RenderBatch(s.(page := s.page + 1))
  {
  }

  lemma StepPreservesInv(s: State, e: Event)
    requires Inv(s)
    ensures Inv(Step(s, e))
  {
    match e
    case DataLoaded(data) =>
      SubseqRefl(data);
      RenderProductsInv(s.(catalog := data), data);
    case SearchFired =>
      FilterIsSubseq(s.catalog, Lower(s.searchText));
      RenderProductsInv(s.(clear := s.searchText != ""), Filter(s.catalog, Lower(s.searchText)));
    case ClearClicked =>
      if s.clear {
        FilterIsSubseq(s.catalog, Lower(""));
        RenderProductsInv(s.(searchText := "", clear := false), Filter(s.catalog, Lower("")));
      }
    case LoadMoreClicked =>
      if s.loadMore {
        LoadMoreAppendsNextBatch(s);
      }
    case _ =>
  }

  /** Every page reached from a valid one by any sequence of events is valid. */
  lemma {:induction false} RunPreservesInv(s: State, events: seq<Event>)
    requires Inv(s)
    ensures Inv(Run(s, events))
    decreases |events|
  {
    if events != [] {
      StepPreservesInv(s, events[0]);
      RunPreservesInv(Step(s, events[0]), events[1..]);
    }
  }

  /** Card `k` on a valid page is the card of the `k`-th filtered product,
      which is a catalog product. */
  lemma CardIsFiltered(s: State, k: nat)
    requires Inv(s) && k < |s.list| && s.list[k].Card?
    ensures k < |s.filtered| && s.list[k] == CardOf(s.filtered[k])
    ensures s.filtered[k] in s.catalog
  {
    SubseqMember(s.filtered, s.catalog, s.filtered[k]);
  }

  /** Clicking a card rendered for `p` looks up `p`'s id: the id written into
      the card reads back unchanged. */
  lemma ViewMoreLooksUpCardId(s: State, k: nat, p: Product)
    requires k < |s.list| && s.list[k] == CardOf(p)
    ensures ViewMore(s, k).modal == Modal.Open(s.modal, Find(s.catalog, Some(p.id))).view
  {
    ParseRenderedInt(p.id);
  }

  /** The id of a catalog product always finds a product, even when ids repeat. */
  lemma FindCatalogId(catalog: seq<Product>, p: Product)
    requires p in catalog
    ensures Find(catalog, Some(p.id)).Some?
  {
    var i :| 0 <= i < |catalog| && catalog[i] == p;
    assert catalog[i].id == p.id;
  }

  lemma StepViewMore(s: State, k: nat)
    ensures Step(s, ViewMoreClicked(k)) == ViewMore(s, k)
  {
  }

  /** "Ver Mais" on card `k` shows the card's product: the id written into the
      card is parsed back and looked up in the catalog, which finds the first
      product with that id, and, ids being unique, that very product. */
  lemma ViewMoreOpensCard(s: State, k: nat)
    requires Inv(s) && k < |s.list| && s.list[k].Card?
    ensures k < |s.filtered|
    ensures Find(s.catalog, ParseInt(s.list[k].dataId)).Some?
    ensures Step(s, ViewMoreClicked(k)).modal == Modal.Open(s.modal, Find(s.catalog, Some(s.filtered[k].id))).view
    ensures UniqueIds(s.catalog) ==> Step(s, ViewMoreClicked(k)).modal == Modal.Open(s.modal, Some(s.filtered[k])).view
  {
    CardIsFiltered(s, k);
    StepViewMore(s, k);
    ViewMoreLooksUpCardId(s, k, s.filtered[k]);
    ParseRenderedInt(s.filtered[k].id);
    FindCatalogId(s.catalog, s.filtered[k]);
    if UniqueIds(s.catalog) {
      FindUnique(s.catalog, s.filtered[k]);
    }
  }

  /** "Ver Mais" on a card and then "Download" sends the window to the
      download link of the card's product, when ids are unique and the
      product has a description (without one, `openModal` throws first). */
  lemma ViewMoreThenDownload(s: State, k: nat)
    requires Inv(s) && UniqueIds(s.catalog) && k < |s.list| && s.list[k].Card?
    ensures k < |s.filtered|
    ensures s.filtered[k].description.Some? ==>
      && Run(s, [ViewMoreClicked(k), DownloadClicked]).location == Some(s.filtered[k].downloadLink)
      && Modal.PhaseOf(Run(s, [ViewMoreClicked(k), DownloadClicked]).modal) == Modal.Downloading
  {
    ViewMoreOpensCard(s, k);
    RunTwo(s, ViewMoreClicked(k), DownloadClicked);
    if s.filtered[k].description.Some? {
      DownloadAfterOpen(Step(s, ViewMoreClicked(k)), s.modal, s.filtered[k]);
    }
  }

  lemma RunTwo(s: State, a: Event, b: Event)
    ensures Run(s, [a, b]) == Step(Step(s, a), b)
  {
    var s1 := Step(s, a);
    assert [a, b][1..] == [b];
    assert Run(s, [a, b]) == Run(s1, [b]);
    assert [b][1..] == [];
    assert Run(s1, [b]) == Run(Step(s1, b), []);
  }

  /** A download click right after a described product was opened navigates
      to its link. */
  lemma DownloadAfterOpen(t: State, v: Modal.View, p: Product)
    requires p.description.Some? && t.modal == Modal.Open(v, Some(p)).view
    ensures Step(t, DownloadClicked).location == Some(p.downloadLink)
    ensures Modal.PhaseOf(Step(t, DownloadClicked).modal) == Modal.Downloading
  {
    assert Step(t, DownloadClicked) == Download(t);
  }

  /** Clearing the search shows the whole catalog again from page 1 and hides
      the clear button. */
  lemma ClearShowsWholeCatalog(s: State)
    requires s.clear
    ensures Step(s, ClearClicked).filtered == s.catalog
    ensures Step(s, ClearClicked).searchText == ""
    ensures !Step(s, ClearClicked).clear && Step(s, ClearClicked).page == 1
  {
    EmptySearchShowsWholeCatalog(s.(searchText := ""));
  }

  /** Searching for the empty text lists the whole catalog from page 1, with
      the clear button hidden. */
  lemma EmptySearchShowsWholeCatalog(s: State)
    requires s.searchText == ""
    ensures PerformSearch(s).filtered == s.catalog && !PerformSearch(s).clear
    ensures s.catalog != [] ==> PerformSearch(s).list == CardsOf(s.catalog[..Min(PageSize, |s.catalog|)])
    ensures PerformSearch(s).loadMore <==> |s.catalog| > PageSize
  {
    assert Lower("") == "";
    FilterEmptyQuery(s.catalog);
  }

  /** Data arrival renders the whole catalog from page 1, whatever was typed
      or searched while it was loading. */
  lemma LoadShowsWholeCatalog(s: State, data: seq<Product>)
    ensures Step(s, DataLoaded(data)).catalog == data
    ensures Step(s, DataLoaded(data)).filtered == data
    ensures Step(s, DataLoaded(data)).searchText == s.searchText
    ensures Step(s, DataLoaded(data)).page == 1
  {
  }

  function Typing(texts: seq<string>): (es: seq<Event>)
    ensures |es| == |texts|
    ensures forall k :: 0 <= k < |texts| ==> es[k] == Typed(texts[k])
  {
    seq(|texts|, k requires 0 <= k < |texts| => Typed(texts[k]))
  }

  lemma {:induction false} RunAppend(s: State, a: seq<Event>, b: seq<Event>)
    ensures Run(s, a + b) == Run(Run(s, a), b)
    decreases |a|
  {
    if a == [] {
      assert a + b == b;
    } else {
      assert (a + b)[0] == a[0] && (a + b)[1..] == a[1..] + b;
      RunAppend(Step(s, a[0]), a[1..], b);
    }
  }

  lemma {:induction false} TypingSetsLastText(s: State, texts: seq<string>)
    requires texts != []
    ensures Run(s, Typing(texts)) == s.(searchText := texts[|texts| - 1])
    decreases |texts|
  {
    var es := Typing(texts);
    assert es[0] == Typed(texts[0]);
    if |texts| > 1 {
      assert es[1..] == Typing(texts[1..]);
      TypingSetsLastText(s.(searchText := texts[0]), texts[1..]);
    } else {
      assert es[1..] == [];
    }
  }

  /** A burst of input events followed by the one debounced search: only the
      last text typed is searched for. */
  lemma LastTypedTextWins(s: State, texts: seq<string>)
    requires texts != []
    ensures Run(s, Typing(texts) + [SearchFired]) == PerformSearch(s.(searchText := texts[|texts| - 1]))
  {
    RunAppend(s, Typing(texts), [SearchFired]);
    TypingSetsLastText(s, texts);
    assert [SearchFired][1..] == [];
  }

  function Repeat(e: Event, n: nat): (es: seq<Event>)
    ensures |es| == n
  {
    if n == 0 then [] else [e] + Repeat(e, n - 1)
  }

  lemma RunRepeat(s: State, e: Event, n: nat)
    requires n > 0
    ensures Run(s, Repeat(e, n)) == Run(Step(s, e), Repeat(e, n - 1))
  {
    var es := Repeat(e, n);
    assert es[0] == e && es[1..] == Repeat(e, n - 1);
  }

  /** Clicking load-more `n` times advances the page until the last one and
      then changes nothing, keeping the page valid. */
  lemma {:induction false} LoadMoreAdvances(s: State, n: nat)
    requires Inv(s)
    ensures Inv(Run(s, Repeat(LoadMoreClicked, n)))
    ensures Run(s, Repeat(LoadMoreClicked, n)).filtered == s.filtered
    ensures Run(s, Repeat(LoadMoreClicked, n)).page == Min(s.page + n, PageCount(|s.filtered|))
    decreases n
  {
    if n > 0 {
      RunRepeat(s, LoadMoreClicked, n);
      HasMoreBeforeLastPage(s.filtered, s.page);
      var t := Step(s, LoadMoreClicked);
      if s.loadMore {
        LoadMoreAppendsNextBatch(s);
      } else {
        assert t == s;
      }
      LoadMoreAdvances(t, n - 1);
    } else {
      assert Repeat(LoadMoreClicked, 0) == [];
    }
  }

  /** After `n` load-more clicks the list is the window of page
      `min(start + n, page count)`, and the button shows exactly while pages remain. */
  lemma LoadMoreRepeatedly(s: State, n: nat)
    requires Inv(s) && s.filtered != []
    ensures Run(s, Repeat(LoadMoreClicked, n)).list
            == CardsOf(Window(s.filtered, Min(s.page + n, PageCount(|s.filtered|))))
    ensures Run(s, Repeat(LoadMoreClicked, n)).loadMore <==> s.page + n < PageCount(|s.filtered|)
  {
    LoadMoreAdvances(s, n);
    var r := Run(s, Repeat(LoadMoreClicked, n));
    HasMoreBeforeLastPage(r.filtered, r.page);
  }
}
