/** The catalog store: the product records loaded once from `content.json`,
    and the lookup by id performed when a card's "Ver Mais" button is clicked. */
module Catalog {

  import opened Optional

  /** One record of `content.json`. `description` is the only optional field;
      `download_link` is written `downloadLink` here. */
  datatype Product = Product(
    id: int,
    name: string,
    description: Option<string>,
    image: string,
    title: string,
    size: string,
    version: string,
    compatibility: string,
    downloadLink: string)

  /** No two records share an id (assumed of the data, never checked). */
  ghost predicate UniqueIds(catalog: seq<Product>) {
    forall i, j :: 0 <= i < j < |catalog| ==> catalog[i].id != catalog[j].id
  }

  /** `allProducts.find(p => p.id === productId)`. The id comes from `parseInt`,
      so it may be `NaN` (here `None`), which is `===` to nothing. */
  function Find(catalog: seq<Product>, id: Option<int>): (r: Option<Product>)
    ensures r.None? <==> (id.None? || forall i :: 0 <= i < |catalog| ==> catalog[i].id != id.value)
    ensures r.Some? ==> exists i :: 0 <= i < |catalog| && catalog[i] == r.value && catalog[i].id == id.value
                                    && forall j :: 0 <= j < i ==> catalog[j].id != id.value
  {
    if id.None? || catalog == [] then None
    else if catalog[0].id == id.value then Some(catalog[0])
    else
      var rest := Find(catalog[1..], id);
      if rest.Some? then
        assert forall i :: 0 < i < |catalog| ==> catalog[1..][i - 1] == catalog[i];
        rest
      else rest
  }

  /** With unique ids, looking up the id of any catalog product yields that product. */
  lemma FindUnique(catalog: seq<Product>, p: Product)
    requires UniqueIds(catalog) && p in catalog
    ensures Find(catalog, Some(p.id)) == Some(p)
  {
    var k :| 0 <= k < |catalog| && catalog[k] == p;
    var r := Find(catalog, Some(p.id));
    var i :| 0 <= i < |catalog| && catalog[i] == r.value && catalog[i].id == p.id
             && forall j :: 0 <= j < i ==> catalog[j].id != p.id;
    assert i == k;
  }
}
