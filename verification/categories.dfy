/** Reading the `categories` table: the id-to-name map `build_categories`
    assembles, and the primary-key lookup `Category.query.get`. */
module Categories {
  import opened Replies
  import opened Bank

  /** `build_categories`: walk the id-ordered scan and record each category's
      name under its id. */
  method BuildCategories(cs: seq<Category>) returns (m: map<int, string>)
    requires CategoriesSorted(cs)
    ensures m.Keys == CategoryIds(cs)
    ensures forall c :: c in cs ==> m[c.id] == c.name
  {
    m := map[];
    var i := 0;
    while i < |cs|
      invariant 0 <= i <= |cs|
      invariant m.Keys == CategoryIds(cs[..i])
      invariant forall j :: 0 <= j < i ==> m[cs[j].id] == cs[j].name
    {
      assert cs[..i + 1] == cs[..i] + [cs[i]];
      m := m[cs[i].id := cs[i].name];
      i := i + 1;
    }
    assert cs[..i] == cs;
  }

  /** `Category.query.get(id)`: the category with that primary key, if any. */
  function FindCategory(cs: seq<Category>, id: int): (r: Option<Category>)
    ensures r.Some? ==> r.value in cs && r.value.id == id
    ensures r.None? <==> id !in CategoryIds(cs)
  {
    if cs == [] then None
    else if cs[0].id == id then Some(cs[0])
    else FindCategory(cs[1..], id)
  }
}
