/** Concrete runs of the page, one per typical session. */
module Scenarios {

  import opened Optional
  import opened Seqs
  import opened Text
  import opened Catalog
  import opened Search
  import opened Paginator
  import opened Page
  import Modal

  function Item(id: int, name: string): Product {
    Product(id, name, None, name + ".png", name, "1 MB", "1.0", "Windows", "downloads/" + name)
  }

  lemma RunThree(s: State, a: Event, b: Event, c: Event)
    ensures Run(s, [a, b, c]) == Step(Step(Step(s, a), b), c)
  {
    var s1 := Step(s, a);
    var s2 := Step(s1, b);
    assert [a, b, c][1..] == [b, c];
    assert Run(s, [a, b, c]) == Run(s1, [b, c]);
    assert [b, c][1..] == [c];
    assert Run(s1, [b, c]) == Run(s2, [c]);
    assert [c][1..] == [];
    assert Run(s2, [c]) == Run(Step(s2, c), []);
  }

  /** Two products and an empty query: both cards show, load-more stays hidden. */
  lemma TwoProductsNoQuery(m: Modal.View)
    ensures var s := Run(Init(m), [DataLoaded([Item(1, "Alpha"), Item(2, "Beta")]), Typed(""), SearchFired]);
      && s.list == CardsOf([Item(1, "Alpha"), Item(2, "Beta")])
      && !s.loadMore && !s.clear
  {
    var data := [Item(1, "Alpha"), Item(2, "Beta")];
    var s1 := Step(Init(m), DataLoaded(data));
    RunThree(Init(m), DataLoaded(data), Typed(""), SearchFired);
    LoadShowsWholeCatalog(Init(m), data);
    EmptySearchShowsWholeCatalog(s1.(searchText := ""));
    assert data[..Min(PageSize, |data|)] == data;
  }

  function Items(n: nat): (ps: seq<Product>)
    ensures |ps| == n
  {
    if n == 0 then [] else Items(n - 1) + [Item(n, "Item")]
  }

  /** Eight products: six cards and the load-more button; one click later
      all eight cards and no button. */
  lemma EightProductsTwoPages(m: Modal.View)
    ensures var s := Step(Init(m), DataLoaded(Items(8)));
      && s.list == CardsOf(Items(8)[..6]) && s.loadMore
      && Step(s, LoadMoreClicked).list == CardsOf(Items(8))
      && !Step(s, LoadMoreClicked).loadMore
  {
    var s := Step(Init(m), DataLoaded(Items(8)));
    RenderProductsInv(Init(m).(catalog := Items(8)), Items(8)) by {
      SubseqRefl(Items(8));
    }
    LoadMoreAppendsNextBatch(s);
    assert Window(Items(8), 2) == Items(8);
  }

  /** A product whose name has no letter z, and no description, does not match "zzz". */
  lemma NoLetterZ(id: int, name: string)
    requires 'z' !in name && 'Z' !in name
    ensures !Matches(Item(id, name), "zzz")
  {
    assert 'z' !in Lower(name) by {
      forall i | 0 <= i < |name| ensures Lower(name)[i] != 'z' {
        assert name[i] != 'z' && name[i] != 'Z';
      }
    }
    if Contains(Lower(name), "zzz") {
      ContainsChars(Lower(name), "zzz", 'z');
    }
  }

  /** A query nothing matches: exactly one no-results note, no card, no button. */
  lemma NothingMatches(m: Modal.View)
    ensures var s := Run(Init(m), [DataLoaded([Item(1, "Alpha"), Item(2, "Beta")]), Typed("zzz"), SearchFired]);
      && s.list == [NoResultsNote] && !s.loadMore && s.clear
  {
    var data := [Item(1, "Alpha"), Item(2, "Beta")];
    var s2 := Step(Init(m), DataLoaded(data)).(searchText := "zzz");
    RunThree(Init(m), DataLoaded(data), Typed("zzz"), SearchFired);
    FilterZzz();
    assert s2.catalog == data && s2.searchText == "zzz";
  }

  lemma FilterZzz()
    ensures Filter([Item(1, "Alpha"), Item(2, "Beta")], Lower("zzz")) == []
  {
    assert Lower("zzz") == "zzz";
    NoLetterZ(1, "Alpha");
    NoLetterZ(2, "Beta");
    assert [Item(1, "Alpha"), Item(2, "Beta")][1..] == [Item(2, "Beta")];
  }

  /** Download, then reopen any product: the button is enabled again with its
      default label. */
  lemma ReopenResetsButton(v: Modal.View, p: Product, q: Product)
    requires p.description.Some? && q.description.Some?
    ensures var busy := Modal.ClickDownload(Modal.Open(v, Some(p)).view).view;
      && busy.button.disabled && busy.button.text == Modal.BusyLabel
      && Modal.Open(Modal.Close(busy), Some(q)).view.button == Modal.Button(Modal.ReadyLabel, false, false, Some(q.downloadLink))
  {
    Modal.OpenThenDownload(v, p);
  }

  /** Three input events, then the debounced search: it searches for "cam". */
  lemma DebouncedSearchUsesLastText(s: State)
    ensures Run(s, [Typed("c"), Typed("ca"), Typed("cam"), SearchFired]) == PerformSearch(s.(searchText := "cam"))
  {
    LastTypedTextWins(s, ["c", "ca", "cam"]);
    assert Typing(["c", "ca", "cam"]) + [SearchFired] == [Typed("c"), Typed("ca"), Typed("cam"), SearchFired];
  }
}
