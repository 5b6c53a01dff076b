/**
 What each catalog call does to the rows, field by field, and exactly when. Nothing here is said through the
 statements of the model: only rows, literal limits and the string functions of Go's library occur.
 */
module CatalogEffects {
  import opened CatalogListing
  import opened CatalogModel
  import opened CatalogOrder
  import opened Common
  import opened Sequences
  import opened Text

  // ----- The vocabulary -----

  predicate OwnsVenue(c: Catalog, owner: string, venue: string) {
    venue in c.owners && c.owners[venue] == owner
  }

  predicate IsInteger(n: int) { -2_147_483_648 <= n <= 2_147_483_647 }

  predicate CategoryThere(c: Catalog, venue: string, id: string) {
    exists r :: r in c.categories && r.id == id && r.venue == venue
  }

  predicate ItemThere(c: Catalog, venue: string, id: string) {
    exists r :: r in c.items && r.id == id && r.venue == venue && !r.deleted
  }

  /** The flag, or true if none is given. */
  predicate Flag(stored: bool, given: Option<bool>) {
    stored == (given == None || given == Some(true))
  }

  predicate NameFits(name: string) {
    TrimSpace(name) != "" && |TrimSpace(name)| <= 80
  }

  lemma ThereIsHas(c: Catalog, venue: string, id: string)
    ensures CategoryThere(c, venue, id) == HasCategory(c, venue, id)
    ensures ItemThere(c, venue, id) == HasItem(c, venue, id)
  {
    if i :| 0 <= i < |c.categories| && c.categories[i].id == id && c.categories[i].venue == venue {
      assert c.categories[i] in c.categories;
    }
    if i :| 0 <= i < |c.items| && c.items[i].id == id && c.items[i].venue == venue && !c.items[i].deleted {
      assert c.items[i] in c.items;
    }
  }

  // ----- Categories -----

  predicate NameUsed(c: Catalog, venue: string, name: string, own: Option<string>) {
    exists r :: r in c.categories && r.venue == venue && r.name == name && own != Some(r.id)
  }

  lemma UsedIsTaken(c: Catalog, venue: string, name: string, own: Option<string>)
    ensures NameUsed(c, venue, name, own) == NameTaken(c, venue, name, own)
  {
    if i :| 0 <= i < |c.categories| && c.categories[i].venue == venue && c.categories[i].name == name
            && own != Some(c.categories[i].id) {
      assert c.categories[i] in c.categories;
    }
  }

  ghost predicate CreateCategoryEffect(
    c: Catalog, d: Catalog, owner: string, venue: string, input: CategoryInput, newId: string, now: Time, o: Outcome)
  {
    var name := TrimSpace(input.name);
    if !OwnsVenue(c, owner, venue) then d == c && o == Failed(NotFound)
    else if !NameFits(input.name) then d == c && o == Failed(InvalidInput)
    else if !IsInteger(input.sortOrder) then d == c && o == Failed(Internal)
    else if NameUsed(c, venue, name, None) || exists r :: r in c.categories && r.id == newId then
      d == c && o == Failed(Conflict)
    else
      && o == Done && d == c.(categories := d.categories) && |d.categories| == |c.categories| + 1
      && d.categories[..|c.categories|] == c.categories
      && var row := d.categories[|c.categories|];
         && row.id == newId && row.venue == venue && row.name == name && row.sortOrder == input.sortOrder
         && Flag(row.isActive, input.isActive) && row.createdAt == now
  }

  lemma CreateCategoryDoes(c: Catalog, owner: string, venue: string, input: CategoryInput, newId: string, now: Time)
    ensures
      var (d, o) := DoCreateCategory(c, owner, venue, input, newId, now);
      CreateCategoryEffect(c, d, owner, venue, input, newId, now, o)
  {
    UsedIsTaken(c, venue, TrimSpace(input.name), None);
  }

  ghost predicate UpdateCategoryEffect(
    c: Catalog, d: Catalog, owner: string, venue: string, id: string, input: CategoryInput, o: Outcome)
  {
    var name := TrimSpace(input.name);
    if !OwnsVenue(c, owner, venue) then d == c && o == Failed(NotFound)
    else if !NameFits(input.name) then d == c && o == Failed(InvalidInput)
    else if !IsInteger(input.sortOrder) then d == c && o == Failed(Internal)
    else if !CategoryThere(c, venue, id) then d == c && o == Failed(NotFound)
    else if NameUsed(c, venue, name, Some(id)) then d == c && o == Failed(Conflict)
    else
      && o == Done && d == c.(categories := d.categories) && |d.categories| == |c.categories|
      && forall i :: 0 <= i < |c.categories| ==>
           var before, after := c.categories[i], d.categories[i];
           if before.id == id && before.venue == venue then
             && after == before.(name := name, sortOrder := input.sortOrder, isActive := after.isActive)
             && Flag(after.isActive, input.isActive)
           else after == before
  }

  lemma UpdateCategoryDoes(c: Catalog, owner: string, venue: string, id: string, input: CategoryInput)
    ensures
      var (d, o) := DoUpdateCategory(c, owner, venue, id, input);
      UpdateCategoryEffect(c, d, owner, venue, id, input, o)
  {
    UsedIsTaken(c, venue, TrimSpace(input.name), Some(id));
    ThereIsHas(c, venue, id);
  }

  /** Exactly the one row goes, and the others keep their places. */
  ghost predicate DeleteCategoryEffect(c: Catalog, d: Catalog, owner: string, venue: string, id: string, o: Outcome) {
    if !OwnsVenue(c, owner, venue) || !CategoryThere(c, venue, id) then d == c && o == Failed(NotFound)
    else if exists r :: r in c.items && r.category == id then d == c && o == Failed(InvalidInput)
    else
      && o == Done && d == c.(categories := d.categories)
      && exists k :: 0 <= k < |c.categories| && c.categories[k].id == id && c.categories[k].venue == venue
                     && d.categories == c.categories[..k] + c.categories[k + 1..]
  }

  lemma {:induction false} FilterTakesOne(rows: seq<CategoryRow>, k: nat)
    requires DistinctBy(CategoryId(), rows) && k < |rows|
    ensures Filter(rows, OtherThan(rows[k].id)) == rows[..k] + rows[k + 1..]
  {
    var keep := OtherThan(rows[k].id);
    if k == 0 {
      FilterKeepsAll(rows[1..], keep);
      assert rows[..0] + rows[1..] == rows[1..];
    } else {
      FilterTakesOne(rows[1..], k - 1);
      assert rows[1..][k - 1] == rows[k] && CategoryId()(rows[0]) != CategoryId()(rows[k]);
      assert [rows[0]] + (rows[1..][..k - 1] + rows[1..][k..]) == rows[..k] + rows[k + 1..];
    }
  }

  lemma {:induction false} FilterKeepsAll<R>(rows: seq<R>, keep: R -> bool)
    requires forall i :: 0 <= i < |rows| ==> keep(rows[i])
    ensures Filter(rows, keep) == rows
  {
    if rows != [] {
      FilterKeepsAll(rows[1..], keep);
      assert rows == [rows[0]] + rows[1..];
    }
  }

  lemma DeleteCategoryDoes(c: Catalog, owner: string, venue: string, id: string)
    requires Integrity(c)
    ensures
      var (d, o) := DoDeleteCategory(c, owner, venue, id);
      DeleteCategoryEffect(c, d, owner, venue, id, o)
  {
    ThereIsHas(c, venue, id);
    if k :| 0 <= k < |c.categories| && c.categories[k].id == id && c.categories[k].venue == venue {
      FilterTakesOne(c.categories, k);
    }
  }

  // ----- Items -----

  predicate AcceptableItem(upper: string -> string, i: ItemInput) {
    var currency := upper(TrimSpace(i.currency));
    && i.category != "" && TrimSpace(i.name) != "" && i.priceMinor >= 0
    && (currency == "" || ByteLength(currency) == 3)
  }

  predicate CurrencyFits(upper: string -> string, i: ItemInput) {
    var currency := upper(TrimSpace(i.currency));
    currency == "" || (|currency| == 3 && forall k :: 0 <= k < 3 ==> 'A' <= currency[k] <= 'Z')
  }

  /** The columns that both creation and update write. */
  predicate StoresItem(upper: string -> string, row: ItemRow, i: ItemInput) {
    var currency := upper(TrimSpace(i.currency));
    && row.category == i.category && row.name == TrimSpace(i.name)
    && (TrimSpace(i.description) == "" ==> row.description == None)
    && (TrimSpace(i.description) != "" ==> row.description == Some(TrimSpace(i.description)))
    && row.priceMinor == i.priceMinor && row.currency == (if currency == "" then "EUR" else currency)
    && Flag(row.isAvailable, i.isAvailable) && row.isPopular == i.isPopular && row.sortOrder == i.sortOrder
  }

  lemma NormalizedItem(upper: string -> string, input: ItemInput)
    ensures
      var i := NormalizeItem(upper, input);
      && (ValidItem(i) <==> AcceptableItem(upper, input)) && (CurrencyCheck(i.currency) <==> CurrencyFits(upper, input))
      && i.priceMinor == input.priceMinor && i.sortOrder == input.sortOrder && i.category == input.category
      && i.imageUrl == input.imageUrl
  {
    var i := NormalizeItem(upper, input);
    assert ByteLength("EUR") == 3 by {
      assert "EUR"[1..] == "UR" && "UR"[1..] == "R" && "R"[1..] == "";
    }
    if CurrencyFits(upper, input) {
      assert forall c :: c in i.currency ==> 'A' <= c <= 'Z';
    } else if CurrencyCheck(i.currency) {
      assert forall k :: 0 <= k < |i.currency| ==> i.currency[k] in i.currency;
    }
  }

  ghost predicate CreateItemEffect(
    upper: string -> string, c: Catalog, d: Catalog, owner: string, venue: string, input: ItemInput, newId: string,
    now: Time, o: Outcome)
  {
    if !OwnsVenue(c, owner, venue) then d == c && o == Failed(NotFound)
    else if !AcceptableItem(upper, input) then d == c && o == Failed(InvalidInput)
    else if !IsInteger(input.priceMinor) || !IsInteger(input.sortOrder) then d == c && o == Failed(Internal)
    else if !CategoryThere(c, venue, input.category) || !CurrencyFits(upper, input) then d == c && o == Failed(InvalidInput)
    else if exists r :: r in c.items && r.id == newId then d == c && o == Failed(Conflict)
    else
      && o == Done && d == c.(items := d.items) && |d.items| == |c.items| + 1 && d.items[..|c.items|] == c.items
      && var row := d.items[|c.items|];
         && row.id == newId && row.venue == venue && StoresItem(upper, row, input)
         && row.createdAt == now && !row.deleted && row.imageUrl == input.imageUrl
  }

  lemma CreateItemDoes(
    upper: string -> string, c: Catalog, owner: string, venue: string, input: ItemInput, newId: string, now: Time)
    ensures
      var (d, o) := DoCreateItem(upper, c, owner, venue, input, newId, now);
      CreateItemEffect(upper, c, d, owner, venue, input, newId, now, o)
  {
    NormalizedItem(upper, input);
    ThereIsHas(c, venue, input.category);
  }

  ghost predicate UpdateItemEffect(
    upper: string -> string, c: Catalog, d: Catalog, owner: string, venue: string, id: string, input: ItemInput,
    o: Outcome)
  {
    if !OwnsVenue(c, owner, venue) then d == c && o == Failed(NotFound)
    else if !AcceptableItem(upper, input) then d == c && o == Failed(InvalidInput)
    else if !IsInteger(input.priceMinor) || !IsInteger(input.sortOrder) then d == c && o == Failed(Internal)
    else if !ItemThere(c, venue, id) || !CategoryThere(c, venue, input.category) then d == c && o == Failed(NotFound)
    else if !CurrencyFits(upper, input) then d == c && o == Failed(InvalidInput)
    else
      && o == Done && d == c.(items := d.items) && |d.items| == |c.items|
      && forall i :: 0 <= i < |c.items| ==>
           var before, after := c.items[i], d.items[i];
           if before.id == id && before.venue == venue && !before.deleted then
             && StoresItem(upper, after, input) && SameIdentity(before, after) && !after.deleted
           else after == before
  }

  /** The columns that no update touches. */
  predicate SameIdentity(before: ItemRow, after: ItemRow) {
    && after.id == before.id && after.venue == before.venue && after.createdAt == before.createdAt
    && after.imageUrl == before.imageUrl
  }

  lemma UpdateItemDoes(
    upper: string -> string, c: Catalog, owner: string, venue: string, id: string, input: ItemInput)
    ensures
      var (d, o) := DoUpdateItem(upper, c, owner, venue, id, input);
      UpdateItemEffect(upper, c, d, owner, venue, id, input, o)
  {
    NormalizedItem(upper, input);
    ThereIsHas(c, venue, input.category);
    ThereIsHas(c, venue, id);
    forall before: ItemRow | before.id == id && before.venue == venue && !before.deleted
      ensures
        var after := WithItem(NormalizeItem(upper, input), id, venue)(before);
        StoresItem(upper, after, input) && SameIdentity(before, after) && !after.deleted
    {
    }
  }

  ghost predicate DeleteItemEffect(c: Catalog, d: Catalog, owner: string, venue: string, id: string, o: Outcome) {
    if !OwnsVenue(c, owner, venue) || !ItemThere(c, venue, id) then d == c && o == Failed(NotFound)
    else
      && o == Done && d == c.(items := d.items) && |d.items| == |c.items|
      && forall i :: 0 <= i < |c.items| ==>
           d.items[i] == if c.items[i].id == id && c.items[i].venue == venue && !c.items[i].deleted
                         then c.items[i].(deleted := true, isAvailable := false) else c.items[i]
  }

  lemma DeleteItemDoes(c: Catalog, owner: string, venue: string, id: string)
    ensures var (d, o) := DoDeleteItem(c, owner, venue, id); DeleteItemEffect(c, d, owner, venue, id, o)
  {
    ThereIsHas(c, venue, id);
  }

  /** A deleted item is off the menu, and every other one stays on it as it was. */
  lemma DeletedIsOffTheMenu(c: Catalog, owner: string, venue: string, id: string, before: seq<ItemRow>, after: seq<ItemRow>)
    requires Integrity(c) && DoDeleteItem(c, owner, venue, id).1 == Done
    requires MenuListing(c, venue, before) && MenuListing(DoDeleteItem(c, owner, venue, id).0, venue, after)
    ensures forall r :: r in after <==> r in before && r.id != id
  {
    var d := DoDeleteItem(c, owner, venue, id).0;
    DeleteItemDoes(c, owner, venue, id);
    forall r
      ensures r in after <==> r in before && r.id != id
    {
      if r in d.items {
        var k :| 0 <= k < |d.items| && d.items[k] == r;
        if d.items[k] != c.items[k] {
          assert r.deleted;
        } else {
          assert r in c.items;
        }
      }
      if r in c.items {
        var k :| 0 <= k < |c.items| && c.items[k] == r;
        assert d.items[k] in d.items;
      }
    }
  }

  lemma ListedLive(c: Catalog, venue: string, r: ItemRow)
    requires Integrity(c)
    ensures Listed(c, venue, r) <==> r in c.items && r.venue == venue && !r.deleted
  {
    if r in c.items {
      CategoryExists(c, r);
    }
  }

  lemma UpdatedRowIsThere(
    upper: string -> string, c: Catalog, d: Catalog, owner: string, venue: string, id: string, input: ItemInput)
    requires UpdateItemEffect(upper, c, d, owner, venue, id, input, Done)
    ensures exists r :: r in d.items && r.id == id && r.venue == venue && !r.deleted && StoresItem(upper, r, input)
  {
    var r0 :| r0 in c.items && r0.id == id && r0.venue == venue && !r0.deleted;
    var k :| 0 <= k < |c.items| && c.items[k] == r0;
    assert d.items[k] in d.items;
  }

  lemma OtherRowsStay(
    upper: string -> string, c: Catalog, d: Catalog, owner: string, venue: string, id: string, input: ItemInput)
    requires UpdateItemEffect(upper, c, d, owner, venue, id, input, Done)
    ensures forall r: ItemRow :: r.id != id ==> (r in d.items <==> r in c.items)
  {
    forall r: ItemRow | r.id != id
      ensures r in d.items <==> r in c.items
    {
      if r in d.items {
        var k :| 0 <= k < |d.items| && d.items[k] == r;
        assert r == c.items[k];
      }
      if r in c.items {
        var k :| 0 <= k < |c.items| && c.items[k] == r;
        assert d.items[k] == r;
      }
    }
  }

  /** An updated item is on the menu under its new fields; every other item of the menu stays on it as it was. */
  lemma UpdatedIsOnTheMenu(
    upper: string -> string, c: Catalog, owner: string, venue: string, id: string, input: ItemInput,
    before: seq<ItemRow>, after: seq<ItemRow>)
    requires Integrity(c) && DoUpdateItem(upper, c, owner, venue, id, input).1 == Done
    requires MenuListing(c, venue, before) && MenuListing(DoUpdateItem(upper, c, owner, venue, id, input).0, venue, after)
    ensures exists r :: r in after && r.id == id && StoresItem(upper, r, input)
    ensures forall r :: r in after && r.id != id <==> r in before && r.id != id
  {
    var d := DoUpdateItem(upper, c, owner, venue, id, input).0;
    UpdateItemDoes(upper, c, owner, venue, id, input);
    UpdateItemKeepsIntegrity(upper, c, owner, venue, id, input);
    MenuAfterUpdate(upper, c, d, owner, venue, id, input, before, after);
  }

  lemma MenuAfterUpdate(
    upper: string -> string, c: Catalog, d: Catalog, owner: string, venue: string, id: string, input: ItemInput,
    before: seq<ItemRow>, after: seq<ItemRow>)
    requires Integrity(c) && Integrity(d) && UpdateItemEffect(upper, c, d, owner, venue, id, input, Done)
    requires MenuListing(c, venue, before) && MenuListing(d, venue, after)
    ensures exists r :: r in after && r.id == id && StoresItem(upper, r, input)
    ensures forall r :: r in after && r.id != id <==> r in before && r.id != id
  {
    UpdatedRowIsThere(upper, c, d, owner, venue, id, input);
    OtherRowsStay(upper, c, d, owner, venue, id, input);
    var stored :| stored in d.items && stored.id == id && stored.venue == venue && !stored.deleted
                  && StoresItem(upper, stored, input);
    ListedLive(d, venue, stored);
    forall r: ItemRow | r.id != id
      ensures r in after <==> r in before
    {
      ListedLive(c, venue, r);
      ListedLive(d, venue, r);
    }
  }

  // ----- Reorders -----

  ghost predicate AcceptableOrder(ids: seq<string>) {
    && 1 <= |ids| <= 500 && (forall i :: 0 <= i < |ids| ==> TrimSpace(ids[i]) != "")
    && forall i, j :: 0 <= i < j < |ids| ==> TrimSpace(ids[i]) != TrimSpace(ids[j])
  }

  ghost predicate ReorderCategoriesEffect(
    c: Catalog, d: Catalog, owner: string, venue: string, ids: seq<string>, o: Outcome)
  {
    if !OwnsVenue(c, owner, venue) then d == c && o == Failed(NotFound)
    else if !AcceptableOrder(ids) || exists id :: id in ids && !CategoryThere(c, venue, id) then
      d == c && o == Failed(InvalidInput)
    else
      && o == Done && d == c.(categories := d.categories) && |d.categories| == |c.categories|
      && (forall i :: 0 <= i < |c.categories| ==>
            d.categories[i] == c.categories[i].(sortOrder := d.categories[i].sortOrder))
      && (forall i :: 0 <= i < |c.categories| && (c.categories[i].venue != venue || c.categories[i].id !in ids) ==>
            d.categories[i] == c.categories[i])
      && forall i, p ::
           (0 <= i < |c.categories| && 0 <= p < |ids| && c.categories[i].venue == venue && c.categories[i].id == ids[p])
           ==> d.categories[i].sortOrder == p
  }

  ghost predicate ReorderItemsEffect(
    c: Catalog, d: Catalog, owner: string, venue: string, category: string, ids: seq<string>, o: Outcome)
  {
    if !OwnsVenue(c, owner, venue) then d == c && o == Failed(NotFound)
    else if TrimSpace(category) == "" || !AcceptableOrder(ids)
            || exists id :: id in ids && !LiveThere(c.items, venue, category, id) then
      d == c && o == Failed(InvalidInput)
    else
      o == Done && ItemsRenumbered(c, d, venue, category, ids)
  }

  /** Each named live row of the category stands at the position of its id, and nothing else changes. */
  ghost predicate ItemsRenumbered(c: Catalog, d: Catalog, venue: string, category: string, ids: seq<string>) {
    && d == c.(items := d.items) && |d.items| == |c.items|
    && (forall i :: 0 <= i < |c.items| ==> d.items[i] == c.items[i].(sortOrder := d.items[i].sortOrder))
    && (forall i :: 0 <= i < |c.items| && (!InScope(c.items[i], venue, category) || c.items[i].id !in ids) ==>
          d.items[i] == c.items[i])
    && forall i, p ::
         (0 <= i < |c.items| && 0 <= p < |ids| && InScope(c.items[i], venue, category) && c.items[i].id == ids[p])
         ==> d.items[i].sortOrder == p
  }

  predicate InScope(r: ItemRow, venue: string, category: string) {
    r.venue == venue && r.category == category && r.deleted == false
  }

  predicate LiveThere(items: seq<ItemRow>, venue: string, category: string, id: string) {
    exists r :: r in items && r.id == id && InScope(r, venue, category)
  }

  lemma PositionsAreUnique(ids: seq<string>)
    requires Distinct(ids)
    ensures forall p :: 0 <= p < |ids| ==> PositionOf(ids, ids[p]) == p
  {
  }

  lemma ReorderCategoriesDoes(c: Catalog, owner: string, venue: string, ids: seq<string>)
    requires Integrity(c)
    ensures
      var (d, o) := DoReorderCategories(c, owner, venue, ids);
      ReorderCategoriesEffect(c, d, owner, venue, ids, o)
  {
    if AcceptableOrder(ids) {
      CommitExactlyWhenAllNamed(CategoryShape(venue), ids, c.categories);
      PositionsAreUnique(ids);
      forall id
        ensures Names(CategoryShape(venue), c.categories, id) == CategoryThere(c, venue, id)
      {
        ThereIsHas(c, venue, id);
      }
    }
  }

  lemma RenumberedItems(c: Catalog, d: Catalog, venue: string, category: string, ids: seq<string>)
    requires Distinct(ids) && d == c.(items := Renumbered(ItemShape(venue, category), ids, c.items))
    ensures ItemsRenumbered(c, d, venue, category, ids)
  {
    PositionsAreUnique(ids);
  }

  lemma ReorderItemsDoes(c: Catalog, owner: string, venue: string, category: string, ids: seq<string>)
    requires Integrity(c)
    ensures
      var (d, o) := DoReorderItems(c, owner, venue, category, ids);
      ReorderItemsEffect(c, d, owner, venue, category, ids, o)
  {
    if AcceptableOrder(ids) {
      CommitExactlyWhenAllNamed(ItemShape(venue, category), ids, c.items);
      RenumberedItems(c, c.(items := Renumbered(ItemShape(venue, category), ids, c.items)), venue, category, ids);
      forall id
        ensures Names(ItemShape(venue, category), c.items, id) == LiveThere(c.items, venue, category, id)
      {
        NamedIsThere(c.items, venue, category, id);
      }
    }
  }

  lemma NamedIsThere(items: seq<ItemRow>, venue: string, category: string, id: string)
    ensures Names(ItemShape(venue, category), items, id) == LiveThere(items, venue, category, id)
  {
    if r :| r in items && r.id == id && InScope(r, venue, category) {
      var i :| 0 <= i < |items| && items[i] == r;
      assert ItemShape(venue, category).inScope(items[i]);
    }
    if i :| 0 <= i < |items| && ItemShape(venue, category).inScope(items[i])
            && ItemShape(venue, category).id(items[i]) == id {
      assert items[i] in items && InScope(items[i], venue, category);
    }
  }

  // ----- The order of a listing -----

  /** Categories are listed by sort order, and equal ones by creation. */
  lemma CategoriesListedInOrder(c: Catalog, venue: string, rows: seq<CategoryRow>, i: nat, j: nat)
    requires CategoryListing(c, venue, rows) && i < j < |rows|
    ensures
      rows[i].sortOrder < rows[j].sortOrder
      || (rows[i].sortOrder == rows[j].sortOrder && rows[i].createdAt <= rows[j].createdAt)
  {
    assert !((x, y) => CategoryBefore(x, y))(rows[j], rows[i]);
  }

  /** Items are listed by the order of their categories, then by their own, and equal ones by creation. */
  lemma ItemsListedInOrder(
    c: Catalog, venue: string, rows: seq<ItemRow>, i: nat, j: nat, x: CategoryRow, y: CategoryRow)
    requires Integrity(c) && MenuListing(c, venue, rows) && i < j < |rows|
    requires x in c.categories && y in c.categories && x.id == rows[i].category && y.id == rows[j].category
    ensures
      x.sortOrder < y.sortOrder
      || (x.sortOrder == y.sortOrder
          && (rows[i].sortOrder < rows[j].sortOrder
              || (rows[i].sortOrder == rows[j].sortOrder && rows[i].createdAt <= rows[j].createdAt)))
  {
    assert !((a, b) => Before(c, a, b))(rows[j], rows[i]);
    FoundOnly(c, x);
    FoundOnly(c, y);
  }

  lemma FoundOnly(c: Catalog, k: CategoryRow)
    requires Integrity(c) && k in c.categories
    ensures FindCategory(c.categories, k.id) == Some(k)
  {
    var found := FindCategory(c.categories, k.id);
    var i :| 0 <= i < |c.categories| && c.categories[i] == k;
    var j :| 0 <= j < |c.categories| && c.categories[j] == found.value;
    assert CategoryId()(c.categories[i]) == CategoryId()(c.categories[j]);
  }
}
