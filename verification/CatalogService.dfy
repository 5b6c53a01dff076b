/** The catalog service: two tables as fields, updated in place, and listings read row by row. */
module CatalogService {
  import opened CatalogEffects
  import opened Common
  import opened CatalogListing
  import CatalogMenu
  import opened CatalogModel
  import opened CatalogOrder
  import opened Sequences
  import opened Text

  // ----- ORDER BY: some answer always exists -----

  function Inserted<R>(before: (R, R) -> bool, x: R, sorted: seq<R>): seq<R> {
    if sorted == [] || before(x, sorted[0]) then [x] + sorted
    else [sorted[0]] + Inserted(before, x, sorted[1..])
  }

  function Sorted<R>(before: (R, R) -> bool, rows: seq<R>): seq<R> {
    if rows == [] then [] else Inserted(before, rows[0], Sorted(before, rows[1..]))
  }

  ghost predicate Transitive<R(!new)>(before: (R, R) -> bool) {
    && (forall x, y, z :: before(x, y) && before(y, z) ==> before(x, z))
    && (forall x, y :: before(x, y) ==> !before(y, x))
  }

  lemma {:induction false} InsertedKeepsOrder<R(!new)>(before: (R, R) -> bool, x: R, sorted: seq<R>)
    requires Transitive(before) && NeverInverted(before, sorted)
    ensures NeverInverted(before, Inserted(before, x, sorted))
    ensures forall r :: r in Inserted(before, x, sorted) <==> r == x || r in sorted
    ensures Distinct(sorted) && x !in sorted ==> Distinct(Inserted(before, x, sorted))
  {
    if sorted == [] || before(x, sorted[0]) {
    } else {
      InsertedKeepsOrder(before, x, sorted[1..]);
      var rest := Inserted(before, x, sorted[1..]);
      assert sorted == [sorted[0]] + sorted[1..];
      forall j | 0 <= j < |rest|
        ensures !before(rest[j], sorted[0])
        ensures Distinct(sorted) && x !in sorted ==> rest[j] != sorted[0]
      {
        assert rest[j] in rest;
        if rest[j] != x {
          var k :| 0 <= k < |sorted[1..]| && sorted[1..][k] == rest[j];
          assert sorted[k + 1] == rest[j];
        }
      }
    }
  }

  lemma {:induction false} SortedIsSorted<R(!new)>(before: (R, R) -> bool, rows: seq<R>)
    requires Transitive(before) && Distinct(rows)
    ensures NeverInverted(before, Sorted(before, rows)) && Distinct(Sorted(before, rows))
    ensures forall r :: r in Sorted(before, rows) <==> r in rows
  {
    if rows != [] {
      SortedIsSorted(before, rows[1..]);
      InsertedKeepsOrder(before, rows[0], Sorted(before, rows[1..]));
      assert rows == [rows[0]] + rows[1..];
    }
  }

  function MenuRows(c: Catalog, venue: string): seq<ItemRow> {
    Sorted((x, y) => Before(c, x, y), Filter(c.items, IsListed(c, venue)))
  }

  function CategoryRows(c: Catalog, venue: string): seq<CategoryRow> {
    Sorted((x, y) => CategoryBefore(x, y), Filter(c.categories, CategoryIn(venue)))
  }

  lemma MenuRowsAreAListing(c: Catalog, venue: string)
    requires Integrity(c)
    ensures MenuListing(c, venue, MenuRows(c, venue))
  {
    FilterMembers(c.items, IsListed(c, venue));
    SortedIsSorted((x, y) => Before(c, x, y), Filter(c.items, IsListed(c, venue)));
  }

  lemma CategoryRowsAreAListing(c: Catalog, venue: string)
    requires Integrity(c)
    ensures CategoryListing(c, venue, CategoryRows(c, venue))
  {
    FilterMembers(c.categories, CategoryIn(venue));
    SortedIsSorted((x, y) => CategoryBefore(x, y), Filter(c.categories, CategoryIn(venue)));
  }

  // ----- The service -----

  datatype Category = Category(id: string, name: string, sortOrder: int, isActive: bool, itemCount: nat)

  datatype MenuItem = MenuItem(
    id: string, categoryId: string, category: string, name: string, description: string, priceMinor: int,
    currency: string, isAvailable: bool, isPopular: bool, sortOrder: int, imageUrl: string)

  function ShownCategory(c: Catalog, r: CategoryRow): Category {
    Category(r.id, r.name, r.sortOrder, r.isActive, ItemCount(c.items, r.id))
  }

  function ShownItem(c: Catalog, r: ItemRow): MenuItem {
    var category := FindCategory(c.categories, r.category);
    MenuItem(r.id, r.category, if category.None? then "" else category.value.name, r.name,
             if r.description.None? then "" else r.description.value, r.priceMinor, r.currency, r.isAvailable,
             r.isPopular, r.sortOrder, r.imageUrl)
  }

  /** The places of the category's live items in the table. */
  function LivePlaces(items: seq<ItemRow>, category: string): set<int> {
    set k | 0 <= k < |items| && items[k].category == category && items[k].deleted == false
  }

  /** `list` shows a category listing row by row, with the number of live items. */
  ghost predicate ShowsCategories(c: Catalog, venue: string, rows: seq<CategoryRow>, list: seq<Category>) {
    && CategoryListing(c, venue, rows) && |list| == |rows|
    && forall i :: 0 <= i < |rows| ==>
         && list[i].id == rows[i].id && list[i].name == rows[i].name && list[i].sortOrder == rows[i].sortOrder
         && list[i].isActive == rows[i].isActive && list[i].itemCount == |LivePlaces(c.items, rows[i].id)|
  }

  /** The shown item carries the row's columns, an empty text for a missing description, and its category's name. */
  ghost predicate ShowsItem(c: Catalog, r: ItemRow, shown: MenuItem) {
    && shown.id == r.id && shown.categoryId == r.category && shown.name == r.name
    && (r.description == None ==> shown.description == "")
    && (r.description.Some? ==> r.description == Some(shown.description))
    && shown.priceMinor == r.priceMinor && shown.currency == r.currency && shown.isAvailable == r.isAvailable
    && shown.isPopular == r.isPopular && shown.sortOrder == r.sortOrder && shown.imageUrl == r.imageUrl
    && exists k :: k in c.categories && k.id == r.category && k.name == shown.category
  }

  /** `list` shows a menu listing row by row. */
  ghost predicate ShowsItems(c: Catalog, venue: string, rows: seq<ItemRow>, list: seq<MenuItem>) {
    && MenuListing(c, venue, rows) && |list| == |rows|
    && forall i :: 0 <= i < |rows| ==> ShowsItem(c, rows[i], list[i])
  }

  lemma CountIsShown(items: seq<ItemRow>, category: string)
    ensures ItemCount(items, category) == |LivePlaces(items, category)|
  {
    FilterCounts(items, IsLiveIn(category));
    assert LivePlaces(items, category) == Places(items, IsLiveIn(category));
  }

  lemma CategoryIsShown(c: Catalog, r: CategoryRow)
    ensures
      var shown := ShownCategory(c, r);
      && shown.id == r.id && shown.name == r.name && shown.sortOrder == r.sortOrder && shown.isActive == r.isActive
      && shown.itemCount == |LivePlaces(c.items, r.id)|
  {
    CountIsShown(c.items, r.id);
  }

  lemma ItemIsShown(c: Catalog, r: ItemRow)
    requires Integrity(c) && r in c.items
    ensures ShowsItem(c, r, ShownItem(c, r))
  {
    CategoryExists(c, r);
  }

  lemma AllCategoriesShown(c: Catalog, venue: string, rows: seq<CategoryRow>, list: seq<Category>)
    requires CategoryListing(c, venue, rows) && |list| == |rows|
    requires forall i :: 0 <= i < |rows| ==> list[i] == ShownCategory(c, rows[i])
    ensures ShowsCategories(c, venue, rows, list)
  {
    forall i | 0 <= i < |rows|
      ensures list[i].itemCount == |LivePlaces(c.items, rows[i].id)|
    {
      CategoryIsShown(c, rows[i]);
    }
  }

  lemma AllItemsShown(c: Catalog, venue: string, rows: seq<ItemRow>, list: seq<MenuItem>)
    requires Integrity(c) && MenuListing(c, venue, rows) && |list| == |rows|
    requires forall i :: 0 <= i < |rows| ==> list[i] == ShownItem(c, rows[i])
    ensures ShowsItems(c, venue, rows, list)
  {
    forall i | 0 <= i < |rows|
      ensures ShowsItem(c, rows[i], list[i])
    {
      assert Listed(c, venue, rows[i]);
      ItemIsShown(c, rows[i]);
    }
  }

  function SumOfCounts(list: seq<Category>): nat {
    if list == [] then 0 else list[0].itemCount + SumOfCounts(list[1..])
  }

  lemma {:induction false} ShownCountsAreTotal(items: seq<ItemRow>, rows: seq<CategoryRow>, list: seq<Category>)
    requires |list| == |rows|
    requires forall i :: 0 <= i < |rows| ==> list[i].itemCount == |LivePlaces(items, rows[i].id)|
    ensures SumOfCounts(list) == TotalCount(rows, items)
  {
    if rows != [] {
      CountIsShown(items, rows[0].id);
      ShownCountsAreTotal(items, rows[1..], list[1..]);
    }
  }

  /** After any run, the item counts that ListCategories shows add up to the number of items that ListMenuItems shows. */
  lemma ShownCountsAddUp(
    upper: string -> string, c: Catalog, calls: seq<Call>, venue: string,
    rows: seq<CategoryRow>, list: seq<Category>, items: seq<ItemRow>, menu: seq<MenuItem>)
    requires Integrity(c)
    requires ShowsCategories(Run(upper, c, calls), venue, rows, list) && ShowsItems(Run(upper, c, calls), venue, items, menu)
    ensures SumOfCounts(list) == |menu|
  {
    ItemCountsConserved(upper, c, calls, venue, rows, items);
    ShownCountsAreTotal(Run(upper, c, calls).items, rows, list);
  }

  /** After reorders in any interleaving, ListCategories shows exactly the order committed last, if that one names all. */
  lemma CategoriesShownAsChosen(
    upper: string -> string, c: Catalog, calls: seq<Call>, venue: string, order: seq<string>,
    rows: seq<CategoryRow>, list: seq<Category>)
    requires Integrity(c) && CatalogMenu.OnlyReorders(calls, venue)
    requires CatalogMenu.ChosenCategories(upper, c, calls, venue) == Some(order)
    requires CatalogMenu.CoversCategories(c, venue, order)
    requires ShowsCategories(Run(upper, c, calls), venue, rows, list)
    ensures |list| == |order| && forall i :: 0 <= i < |order| ==> list[i].id == order[i]
  {
    CatalogMenu.CategoriesListedAsChosen(upper, c, calls, venue, order, rows);
  }

  /** And ListMenuItems shows exactly the chosen item orders, joined. */
  lemma ItemsShownAsChosen(
    upper: string -> string, c: Catalog, calls: seq<Call>, venue: string, order: seq<string>,
    rows: seq<ItemRow>, menu: seq<MenuItem>)
    requires Integrity(c) && CatalogMenu.OnlyReorders(calls, venue)
    requires CatalogMenu.ChosenCategories(upper, c, calls, venue) == Some(order)
    requires CatalogMenu.CoversCategories(c, venue, order)
    requires forall r :: Listed(c, venue, r) ==>
      var chosen := CatalogMenu.ChosenItems(upper, c, calls, venue, r.category);
      chosen.Some? && CatalogMenu.CoversItems(c, venue, r.category, chosen.value)
    requires ShowsItems(Run(upper, c, calls), venue, rows, menu)
    ensures
      var ids := CatalogMenu.Joined(order, CatalogMenu.ItemOrder(upper, c, calls, venue), 0);
      |menu| == |ids| && forall i :: 0 <= i < |ids| ==> menu[i].id == ids[i]
  {
    CatalogMenu.MenuFollowsTheChosenOrders(upper, c, calls, venue, order, rows);
  }

  class Service {
    const owners: map<string, string>
    const upper: string -> string
    var categories: seq<CategoryRow>
    var items: seq<ItemRow>

    function Tables(): Catalog
      reads this
    {
      Catalog(owners, categories, items)
    }

    ghost predicate Valid()
      reads this
    {
      Integrity(Tables())
    }

    constructor (owners: map<string, string>, upper: string -> string)
      ensures Tables() == Catalog(owners, [], []) && this.upper == upper
      ensures Valid()
    {
      this.owners, this.upper := owners, upper;
      categories, items := [], [];
    }

    method ListCategories(owner: string, venue: string) returns (result: Option<seq<Category>>)
      requires Valid()
      ensures result.Some? <==> OwnsVenue(Tables(), owner, venue)
      ensures result.Some? ==> exists rows :: ShowsCategories(Tables(), venue, rows, result.value)
    {
      if !Owns(Tables(), owner, venue) {
        return None;
      }
      var rows := CategoryRows(Tables(), venue);
      CategoryRowsAreAListing(Tables(), venue);
      var list := [];
      for n := 0 to |rows|
        invariant |list| == n
        invariant forall i :: 0 <= i < n ==> list[i] == ShownCategory(Tables(), rows[i])
      {
        list := list + [ShownCategory(Tables(), rows[n])];
      }
      AllCategoriesShown(Tables(), venue, rows, list);
      result := Some(list);
    }

    method ListMenuItems(owner: string, venue: string) returns (result: Option<seq<MenuItem>>)
      requires Valid()
      ensures result.Some? <==> OwnsVenue(Tables(), owner, venue)
      ensures result.Some? ==> exists rows :: ShowsItems(Tables(), venue, rows, result.value)
    {
      if !Owns(Tables(), owner, venue) {
        return None;
      }
      var rows := MenuRows(Tables(), venue);
      MenuRowsAreAListing(Tables(), venue);
      var list := [];
      for n := 0 to |rows|
        invariant |list| == n
        invariant forall i :: 0 <= i < n ==> list[i] == ShownItem(Tables(), rows[i])
      {
        list := list + [ShownItem(Tables(), rows[n])];
      }
      AllItemsShown(Tables(), venue, rows, list);
      result := Some(list);
    }

    method CreateCategory(owner: string, venue: string, input: CategoryInput, newId: string, now: Time) returns (o: Outcome)
      requires Valid()
      modifies this`categories
      ensures (Tables(), o) == DoCreateCategory(old(Tables()), owner, venue, input, newId, now)
      ensures Valid()
      ensures CreateCategoryEffect(old(Tables()), Tables(), owner, venue, input, newId, now, o)
    {
      CreateCategoryDoes(Tables(), owner, venue, input, newId, now);
      StepKeepsIntegrity(upper, Tables(), Call.CreateCategory(owner, venue, input, newId, now));
      if !Owns(Tables(), owner, venue) {
        return Failed(NotFound);
      }
      var name := TrimSpace(input.name);
      if name == "" || |name| > 80 {
        return Failed(InvalidInput);
      }
      if !Int4(input.sortOrder) {
        return Failed(Internal);
      }
      if NameTaken(Tables(), venue, name, None) || exists r :: r in categories && r.id == newId {
        return Failed(Conflict);
      }
      categories := categories + [CategoryRow(newId, venue, name, input.sortOrder, BoolValue(input.isActive, true), now)];
      o := Done;
    }

    method UpdateCategory(owner: string, venue: string, id: string, input: CategoryInput) returns (o: Outcome)
      requires Valid()
      modifies this`categories
      ensures (Tables(), o) == DoUpdateCategory(old(Tables()), owner, venue, id, input)
      ensures Valid()
      ensures UpdateCategoryEffect(old(Tables()), Tables(), owner, venue, id, input, o)
    {
      UpdateCategoryDoes(Tables(), owner, venue, id, input);
      StepKeepsIntegrity(upper, Tables(), Call.UpdateCategory(owner, venue, id, input));
      if !Owns(Tables(), owner, venue) {
        return Failed(NotFound);
      }
      var name := TrimSpace(input.name);
      if name == "" || |name| > 80 {
        return Failed(InvalidInput);
      }
      if !Int4(input.sortOrder) {
        return Failed(Internal);
      }
      if !HasCategory(Tables(), venue, id) {
        return Failed(NotFound);
      }
      if NameTaken(Tables(), venue, name, Some(id)) {
        return Failed(Conflict);
      }
      categories := MapRows(categories, WithCategory(input, id, venue));
      o := Done;
    }

    method DeleteCategory(owner: string, venue: string, id: string) returns (o: Outcome)
      requires Valid()
      modifies this`categories
      ensures (Tables(), o) == DoDeleteCategory(old(Tables()), owner, venue, id)
      ensures Valid()
      ensures DeleteCategoryEffect(old(Tables()), Tables(), owner, venue, id, o)
    {
      DeleteCategoryDoes(Tables(), owner, venue, id);
      StepKeepsIntegrity(upper, Tables(), Call.DeleteCategory(owner, venue, id));
      if !Owns(Tables(), owner, venue) || !HasCategory(Tables(), venue, id) {
        return Failed(NotFound);
      }
      if exists r :: r in items && r.category == id {
        return Failed(InvalidInput);
      }
      categories := Filter(categories, OtherThan(id));
      o := Done;
    }

    method CreateMenuItem(owner: string, venue: string, input: ItemInput, newId: string, now: Time) returns (o: Outcome)
      requires Valid()
      modifies this`items
      ensures (Tables(), o) == DoCreateItem(upper, old(Tables()), owner, venue, input, newId, now)
      ensures Valid()
      ensures CreateItemEffect(upper, old(Tables()), Tables(), owner, venue, input, newId, now, o)
    {
      CreateItemDoes(upper, Tables(), owner, venue, input, newId, now);
      StepKeepsIntegrity(upper, Tables(), CreateItem(owner, venue, input, newId, now));
      if !Owns(Tables(), owner, venue) {
        return Failed(NotFound);
      }
      var i := NormalizeItem(upper, input);
      if !ValidItem(i) {
        return Failed(InvalidInput);
      }
      if !Int4(i.priceMinor) || !Int4(i.sortOrder) {
        return Failed(Internal);
      }
      if !HasCategory(Tables(), venue, i.category) || !CurrencyCheck(i.currency) {
        return Failed(InvalidInput);
      }
      if exists r :: r in items && r.id == newId {
        return Failed(Conflict);
      }
      items := items + [ItemRow(newId, venue, i.category, i.name, Optional(i.description), i.priceMinor, i.currency,
                                BoolValue(i.isAvailable, true), i.isPopular, i.sortOrder, now, false, i.imageUrl)];
      o := Done;
    }

    method UpdateMenuItem(owner: string, venue: string, id: string, input: ItemInput) returns (o: Outcome)
      requires Valid()
      modifies this`items
      ensures (Tables(), o) == DoUpdateItem(upper, old(Tables()), owner, venue, id, input)
      ensures Valid()
      ensures UpdateItemEffect(upper, old(Tables()), Tables(), owner, venue, id, input, o)
    {
      UpdateItemDoes(upper, Tables(), owner, venue, id, input);
      StepKeepsIntegrity(upper, Tables(), UpdateItem(owner, venue, id, input));
      if !Owns(Tables(), owner, venue) {
        return Failed(NotFound);
      }
      var i := NormalizeItem(upper, input);
      if !ValidItem(i) {
        return Failed(InvalidInput);
      }
      if !Int4(i.priceMinor) || !Int4(i.sortOrder) {
        return Failed(Internal);
      }
      if !HasItem(Tables(), venue, id) || !HasCategory(Tables(), venue, i.category) {
        return Failed(NotFound);
      }
      if !CurrencyCheck(i.currency) {
        return Failed(InvalidInput);
      }
      items := MapRows(items, WithItem(i, id, venue));
      o := Done;
    }

    method DeleteMenuItem(owner: string, venue: string, id: string) returns (o: Outcome)
      requires Valid()
      modifies this`items
      ensures (Tables(), o) == DoDeleteItem(old(Tables()), owner, venue, id)
      ensures Valid()
      ensures DeleteItemEffect(old(Tables()), Tables(), owner, venue, id, o)
    {
      DeleteItemDoes(Tables(), owner, venue, id);
      StepKeepsIntegrity(upper, Tables(), DeleteItem(owner, venue, id));
      if !Owns(Tables(), owner, venue) || !HasItem(Tables(), venue, id) {
        return Failed(NotFound);
      }
      items := MapRows(items, WithDeleted(id, venue));
      o := Done;
    }

    method ReorderCategories(owner: string, venue: string, ids: seq<string>) returns (o: Outcome)
      requires Valid()
      modifies this`categories
      ensures (Tables(), o) == DoReorderCategories(old(Tables()), owner, venue, ids)
      ensures Valid()
      ensures ReorderCategoriesEffect(old(Tables()), Tables(), owner, venue, ids, o)
    {
      ReorderCategoriesDoes(Tables(), owner, venue, ids);
      StepKeepsIntegrity(upper, Tables(), Call.ReorderCategories(owner, venue, ids));
      if !Owns(Tables(), owner, venue) {
        return Failed(NotFound);
      }
      var ok := CheckOrder(ids);
      if !ok {
        return Failed(InvalidInput);
      }
      var before := categories;
      categories := Renumbered(CategoryShape(venue), ids, categories);
      if Affected(CategoryShape(venue), ids, before) != |ids| {
        categories := before;  // the deferred rollback
        return Failed(InvalidInput);
      }
      o := Done;
    }

    method ReorderMenuItems(owner: string, venue: string, categoryId: string, ids: seq<string>) returns (o: Outcome)
      requires Valid()
      modifies this`items
      ensures (Tables(), o) == DoReorderItems(old(Tables()), owner, venue, categoryId, ids)
      ensures Valid()
      ensures ReorderItemsEffect(old(Tables()), Tables(), owner, venue, categoryId, ids, o)
    {
      ReorderItemsDoes(Tables(), owner, venue, categoryId, ids);
      StepKeepsIntegrity(upper, Tables(), ReorderItems(owner, venue, categoryId, ids));
      if !Owns(Tables(), owner, venue) {
        return Failed(NotFound);
      }
      var ok := CheckOrder(ids);
      if TrimSpace(categoryId) == "" || !ok {
        return Failed(InvalidInput);
      }
      var before := items;
      items := Renumbered(ItemShape(venue, categoryId), ids, items);
      if Affected(ItemShape(venue, categoryId), ids, before) != |ids| {
        items := before;  // the deferred rollback
        return Failed(InvalidInput);
      }
      o := Done;
    }
  }
}
