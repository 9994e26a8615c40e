/** The search filter of `performSearch`: a case-insensitive substring match
    against the name, or against the description when it is truthy. */
module Search {

  import opened Optional
  import opened Seqs
  import opened Text
  import opened Catalog

  /** JavaScript truthiness of `product.description`: a missing field, `null`
      and the empty string are all falsy. */
  predicate Truthy(d: Option<string>) {
    d.Some? && d.value != ""
  }

  /** The callback given to `allProducts.filter`; `query` is already lower case. */
  predicate Matches(p: Product, query: string): (b: bool)
    ensures b <==> (exists i :: OccursAt(Lower(p.name), query, i))
                   || (Truthy(p.description) && exists i :: OccursAt(Lower(p.description.value), query, i))
  {
    ContainsIff(Lower(p.name), query);
    if p.description.Some? then ContainsIff(Lower(p.description.value), query); MatchBody(p, query)
    else MatchBody(p, query)
  }

  predicate MatchBody(p: Product, query: string) {
    Contains(Lower(p.name), query)
    || (Truthy(p.description) && Contains(Lower(p.description.value), query))
  }

  /** `allProducts.filter(...)`: the matching products, in catalog order. */
  function Filter(catalog: seq<Product>, query: string): (r: seq<Product>)
    ensures |r| <= |catalog|
    ensures forall p :: p in r <==> p in catalog && Matches(p, query)
    ensures forall p :: multiset(r)[p] == if Matches(p, query) then multiset(catalog)[p] else 0
  {
    if catalog == [] then []
    else
      assert catalog == [catalog[0]] + catalog[1..];
      (if Matches(catalog[0], query) then [catalog[0]] else []) + Filter(catalog[1..], query)
  }

  /** The filter keeps catalog order: its result is a subsequence of the catalog. */
  lemma {:induction false} FilterIsSubseq(catalog: seq<Product>, query: string)
    ensures IsSubseq(Filter(catalog, query), catalog)
  {
    if catalog != [] {
      FilterIsSubseq(catalog[1..], query);
      var rest := Filter(catalog[1..], query);
      if Matches(catalog[0], query) {
        assert Filter(catalog, query) == [catalog[0]] + rest;
        assert ([catalog[0]] + rest)[1..] == rest;
      } else {
        assert Filter(catalog, query) == rest;
        if rest != [] {
          assert IsSubseq(rest, catalog[1..]);
        }
      }
    }
  }

  /** The order-keeping positions the filtered products come from. */
  lemma FilterPositions(catalog: seq<Product>, query: string)
    ensures exists idx :: Embeds(Filter(catalog, query), catalog, idx)
  {
    FilterIsSubseq(catalog, query);
    var idx := Embedding(Filter(catalog, query), catalog);
    assert Embeds(Filter(catalog, query), catalog, idx);
  }

  /** An empty query keeps every product, in order. */
  lemma {:induction false} FilterEmptyQuery(catalog: seq<Product>)
    ensures Filter(catalog, "") == catalog
  {
    if catalog != [] {
      ContainsEmpty(Lower(catalog[0].name));
      FilterEmptyQuery(catalog[1..]);
    }
  }

  /** Truthiness does not matter: the match reads the same when the
      description counts as soon as it is present, even if empty. */
  lemma MatchesWhenPresent(p: Product, query: string)
    ensures Matches(p, query) <==>
      (Contains(Lower(p.name), query)
       || (p.description.Some? && Contains(Lower(p.description.value), query)))
  {
    if p.description.Some? && p.description.value == "" && Contains(Lower(p.description.value), query) {
      ContainsInEmpty(query);
      ContainsEmpty(Lower(p.name));
    }
  }
}
