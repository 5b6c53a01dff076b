/** Menu categories and items as tables; each call is one atomic step. */
module CatalogModel {
  import opened Common
  import opened CatalogOrder
  import opened Sequences
  import opened Text

  datatype CategoryRow = CategoryRow(
    id: string, venue: string, name: string, sortOrder: int, isActive: bool, createdAt: Time)

  datatype ItemRow = ItemRow(
    id: string,
    venue: string,
    category: string,
    name: string,
    description: Option<string>,
    priceMinor: int,
    currency: string,
    isAvailable: bool,
    isPopular: bool,
    sortOrder: int,
    createdAt: Time,
    deleted: bool,
    imageUrl: string)  // of the row in menu_item_images that creation adds, or empty

  /** `owners` maps every venue that is not deleted to its owner. */
  datatype Catalog = Catalog(owners: map<string, string>, categories: seq<CategoryRow>, items: seq<ItemRow>)

  datatype Fault = NotFound | InvalidInput | Conflict | Internal

  datatype Outcome = Done | Failed(fault: Fault)

  datatype CategoryInput = CategoryInput(name: string, sortOrder: int, isActive: Option<bool>)

  datatype ItemInput = ItemInput(
    category: string,
    name: string,
    description: string,
    priceMinor: int,
    currency: string,
    isAvailable: Option<bool>,
    isPopular: bool,
    sortOrder: int,
    imageUrl: string)

  datatype Call =
    | CreateCategory(owner: string, venue: string, category: CategoryInput, newId: string, now: Time)
    | UpdateCategory(owner: string, venue: string, id: string, category: CategoryInput)
    | DeleteCategory(owner: string, venue: string, id: string)
    | CreateItem(owner: string, venue: string, item: ItemInput, newId: string, now: Time)
    | UpdateItem(owner: string, venue: string, id: string, item: ItemInput)
    | DeleteItem(owner: string, venue: string, id: string)
    | ReorderCategories(owner: string, venue: string, ids: seq<string>)
    | ReorderItems(owner: string, venue: string, categoryId: string, ids: seq<string>)

  // ----- Checks -----

  predicate Owns(c: Catalog, owner: string, venue: string) {
    venue in c.owners && c.owners[venue] == owner
  }

  /** A PostgreSQL integer; other numbers do not reach the database. */
  predicate Int4(n: int) { -0x8000_0000 <= n < 0x8000_0000 }

  /** strings.ToUpper is a parameter: its Unicode tables are not part of this model. */
  function NormalizeItem(upper: string -> string, i: ItemInput): ItemInput {
    var currency := upper(TrimSpace(i.currency));
    i.(name := TrimSpace(i.name), description := TrimSpace(i.description),
       currency := if currency == "" then "EUR" else currency)
  }

  predicate ValidItem(i: ItemInput) {
    i.category != "" && i.name != "" && i.priceMinor >= 0 && ByteLength(i.currency) == 3
  }

  predicate ValidName(name: string) { 1 <= |name| <= 80 }

  function BoolValue(value: Option<bool>, fallback: bool): bool {
    if value.None? then fallback else value.value
  }

  predicate HasCategory(c: Catalog, venue: string, id: string) {
    exists i :: 0 <= i < |c.categories| && c.categories[i].id == id && c.categories[i].venue == venue
  }

  predicate HasItem(c: Catalog, venue: string, id: string) {
    exists i :: 0 <= i < |c.items| && c.items[i].id == id && c.items[i].venue == venue && !c.items[i].deleted
  }

  /** UNIQUE (venue_id, name), leaving out the row that is being written. */
  predicate NameTaken(c: Catalog, venue: string, name: string, own: Option<string>) {
    exists i :: 0 <= i < |c.categories| && c.categories[i].venue == venue && c.categories[i].name == name
                && own != Some(c.categories[i].id)
  }

  // ----- Statements -----

  function MapRows<R>(rows: seq<R>, f: R -> R): (r: seq<R>)
    ensures |r| == |rows|
    ensures forall i :: 0 <= i < |rows| ==> r[i] == f(rows[i])
  {
    seq(|rows|, i requires 0 <= i < |rows| => f(rows[i]))
  }

  function OtherThan(id: string): CategoryRow -> bool {
    (r: CategoryRow) => r.id != id
  }

  function CategoryId(): CategoryRow -> string {
    (r: CategoryRow) => r.id
  }

  function ItemId(): ItemRow -> string {
    (r: ItemRow) => r.id
  }

  function CategoryShape(venue: string): Shape<CategoryRow> {
    Shape(CategoryId(), (r: CategoryRow) => r.venue == venue, (r: CategoryRow, n: int) => r.(sortOrder := n))
  }

  function ItemShape(venue: string, category: string): Shape<ItemRow> {
    Shape(ItemId(),
          (r: ItemRow) => r.venue == venue && r.category == category && !r.deleted,
          (r: ItemRow, n: int) => r.(sortOrder := n))
  }

  function WithCategory(input: CategoryInput, id: string, venue: string): CategoryRow -> CategoryRow {
    (r: CategoryRow) =>
      if r.id == id && r.venue == venue
      then r.(name := TrimSpace(input.name), sortOrder := input.sortOrder, isActive := BoolValue(input.isActive, true))
      else r
  }

  function Optional(text: string): Option<string> {
    if text == "" then None else Some(text)
  }

  function WithItem(i: ItemInput, id: string, venue: string): ItemRow -> ItemRow {
    (r: ItemRow) =>
      if r.id == id && r.venue == venue && !r.deleted
      then r.(category := i.category, name := i.name, description := Optional(i.description), priceMinor := i.priceMinor,
              currency := i.currency, isAvailable := BoolValue(i.isAvailable, true), isPopular := i.isPopular,
              sortOrder := i.sortOrder)
      else r
  }

  function WithDeleted(id: string, venue: string): ItemRow -> ItemRow {
    (r: ItemRow) =>
      if r.id == id && r.venue == venue && !r.deleted then r.(deleted := true, isAvailable := false) else r
  }

  // ----- Calls -----

  function DoCreateCategory(c: Catalog, owner: string, venue: string, input: CategoryInput, newId: string, now: Time)
    : (Catalog, Outcome)
  {
    var name := TrimSpace(input.name);
    if !Owns(c, owner, venue) then (c, Failed(NotFound))
    else if !ValidName(name) then (c, Failed(InvalidInput))
    else if !Int4(input.sortOrder) then (c, Failed(Internal))
    else if NameTaken(c, venue, name, None) || exists r :: r in c.categories && r.id == newId then (c, Failed(Conflict))
    else
      (c.(categories := c.categories
            + [CategoryRow(newId, venue, name, input.sortOrder, BoolValue(input.isActive, true), now)]),
       Done)
  }

  function DoUpdateCategory(c: Catalog, owner: string, venue: string, id: string, input: CategoryInput): (Catalog, Outcome) {
    var name := TrimSpace(input.name);
    if !Owns(c, owner, venue) then (c, Failed(NotFound))
    else if !ValidName(name) then (c, Failed(InvalidInput))
    else if !Int4(input.sortOrder) then (c, Failed(Internal))
    else if !HasCategory(c, venue, id) then (c, Failed(NotFound))
    else if NameTaken(c, venue, name, Some(id)) then (c, Failed(Conflict))
    else (c.(categories := MapRows(c.categories, WithCategory(input, id, venue))), Done)
  }

  /** A category that any item refers to, even a deleted one, is held by the foreign key. */
  function DoDeleteCategory(c: Catalog, owner: string, venue: string, id: string): (Catalog, Outcome) {
    if !Owns(c, owner, venue) then (c, Failed(NotFound))
    else if !HasCategory(c, venue, id) then (c, Failed(NotFound))
    else if exists r :: r in c.items && r.category == id then (c, Failed(InvalidInput))
    else (c.(categories := Filter(c.categories, OtherThan(id))), Done)
  }

  function DoCreateItem(
    upper: string -> string, c: Catalog, owner: string, venue: string, input: ItemInput, newId: string, now: Time)
    : (Catalog, Outcome)
  {
    var i := NormalizeItem(upper, input);
    if !Owns(c, owner, venue) then (c, Failed(NotFound))
    else if !ValidItem(i) then (c, Failed(InvalidInput))
    else if !Int4(i.priceMinor) || !Int4(i.sortOrder) then (c, Failed(Internal))
    else if !HasCategory(c, venue, i.category) || !CurrencyCheck(i.currency) then (c, Failed(InvalidInput))
    else if exists r :: r in c.items && r.id == newId then (c, Failed(Conflict))
    else
      (c.(items := c.items
            + [ItemRow(newId, venue, i.category, i.name, Optional(i.description), i.priceMinor, i.currency,
                       BoolValue(i.isAvailable, true), i.isPopular, i.sortOrder, now, false, i.imageUrl)]),
       Done)
  }

  function DoUpdateItem(upper: string -> string, c: Catalog, owner: string, venue: string, id: string, input: ItemInput)
    : (Catalog, Outcome)
  {
    var i := NormalizeItem(upper, input);
    if !Owns(c, owner, venue) then (c, Failed(NotFound))
    else if !ValidItem(i) then (c, Failed(InvalidInput))
    else if !Int4(i.priceMinor) || !Int4(i.sortOrder) then (c, Failed(Internal))
    else if !HasItem(c, venue, id) || !HasCategory(c, venue, i.category) then (c, Failed(NotFound))
    else if !CurrencyCheck(i.currency) then (c, Failed(InvalidInput))
    else (c.(items := MapRows(c.items, WithItem(i, id, venue))), Done)
  }

  function DoDeleteItem(c: Catalog, owner: string, venue: string, id: string): (Catalog, Outcome) {
    if !Owns(c, owner, venue) then (c, Failed(NotFound))
    else if !HasItem(c, venue, id) then (c, Failed(NotFound))
    else (c.(items := MapRows(c.items, WithDeleted(id, venue))), Done)
  }

  ghost function DoReorderCategories(c: Catalog, owner: string, venue: string, ids: seq<string>): (Catalog, Outcome) {
    if !Owns(c, owner, venue) then (c, Failed(NotFound))
    else if !ValidOrder(ids) then (c, Failed(InvalidInput))
    else
      match Reordered(CategoryShape(venue), ids, c.categories)
      case None => (c, Failed(InvalidInput))
      case Some(rows) => (c.(categories := rows), Done)
  }

  ghost function DoReorderItems(c: Catalog, owner: string, venue: string, categoryId: string, ids: seq<string>)
    : (Catalog, Outcome)
  {
    if !Owns(c, owner, venue) then (c, Failed(NotFound))
    else if TrimSpace(categoryId) == "" || !ValidOrder(ids) then (c, Failed(InvalidInput))
    else
      match Reordered(ItemShape(venue, categoryId), ids, c.items)
      case None => (c, Failed(InvalidInput))
      case Some(rows) => (c.(items := rows), Done)
  }

  ghost function Step(upper: string -> string, c: Catalog, call: Call): (Catalog, Outcome) {
    match call
    case CreateCategory(owner, venue, category, newId, now) => DoCreateCategory(c, owner, venue, category, newId, now)
    case UpdateCategory(owner, venue, id, category) => DoUpdateCategory(c, owner, venue, id, category)
    case DeleteCategory(owner, venue, id) => DoDeleteCategory(c, owner, venue, id)
    case CreateItem(owner, venue, item, newId, now) => DoCreateItem(upper, c, owner, venue, item, newId, now)
    case UpdateItem(owner, venue, id, item) => DoUpdateItem(upper, c, owner, venue, id, item)
    case DeleteItem(owner, venue, id) => DoDeleteItem(c, owner, venue, id)
    case ReorderCategories(owner, venue, ids) => DoReorderCategories(c, owner, venue, ids)
    case ReorderItems(owner, venue, categoryId, ids) => DoReorderItems(c, owner, venue, categoryId, ids)
  }

  ghost function Run(upper: string -> string, c: Catalog, calls: seq<Call>): Catalog
    decreases |calls|
  {
    if calls == [] then c else Run(upper, Step(upper, c, calls[0]).0, calls[1..])
  }

  // ----- Integrity -----

  /** Primary keys, and every item, deleted or not, lies in a category of its own venue. */
  ghost predicate Integrity(c: Catalog) {
    && DistinctBy(CategoryId(), c.categories) && DistinctBy(ItemId(), c.items)
    && forall i :: 0 <= i < |c.items| ==> HasCategory(c, c.items[i].venue, c.items[i].category)
  }

  lemma SameKeysKeepIntegrity(c: Catalog, d: Catalog)
    requires Integrity(c)
    requires |d.categories| == |c.categories| && |d.items| == |c.items|
    requires forall i :: 0 <= i < |c.categories| ==>
      d.categories[i].id == c.categories[i].id && d.categories[i].venue == c.categories[i].venue
    requires forall i :: 0 <= i < |c.items| ==>
      && d.items[i].id == c.items[i].id && d.items[i].venue == c.items[i].venue
      && (d.items[i].category == c.items[i].category || HasCategory(c, c.items[i].venue, d.items[i].category))
    ensures Integrity(d)
  {
    forall i | 0 <= i < |d.items|
      ensures HasCategory(d, d.items[i].venue, d.items[i].category)
    {
      assert HasCategory(c, d.items[i].venue, d.items[i].category);
      var k :| 0 <= k < |c.categories| && c.categories[k].id == d.items[i].category
               && c.categories[k].venue == d.items[i].venue;
      assert d.categories[k].id == d.items[i].category;
    }
  }

  lemma {:induction false} FilterKeepsDistinctIds(rows: seq<CategoryRow>, keep: CategoryRow -> bool)
    requires DistinctBy(CategoryId(), rows)
    ensures DistinctBy(CategoryId(), Filter(rows, keep))
  {
    if rows != [] {
      FilterKeepsDistinctIds(rows[1..], keep);
      FilterMembers(rows[1..], keep);
      var rest := Filter(rows[1..], keep);
      assert forall i :: 0 <= i < |rest| ==> rest[i] in rest;
    }
  }

  lemma HasCategoryStays(c: Catalog, row: CategoryRow, venue: string, id: string)
    requires HasCategory(c, venue, id)
    ensures HasCategory(c.(categories := c.categories + [row]), venue, id)
  {
    var k :| 0 <= k < |c.categories| && c.categories[k].id == id && c.categories[k].venue == venue;
    assert (c.categories + [row])[k] == c.categories[k];
  }

  lemma CreateCategoryKeepsIntegrity(
    c: Catalog, owner: string, venue: string, input: CategoryInput, newId: string, now: Time)
    requires Integrity(c)
    ensures Integrity(DoCreateCategory(c, owner, venue, input, newId, now).0)
  {
    var d := DoCreateCategory(c, owner, venue, input, newId, now).0;
    if d != c {
      forall i | 0 <= i < |d.items|
        ensures HasCategory(d, d.items[i].venue, d.items[i].category)
      {
        HasCategoryStays(c, d.categories[|c.categories|], d.items[i].venue, d.items[i].category);
      }
    }
  }

  lemma CreateItemKeepsIntegrity(
    upper: string -> string, c: Catalog, owner: string, venue: string, input: ItemInput, newId: string, now: Time)
    requires Integrity(c)
    ensures Integrity(DoCreateItem(upper, c, owner, venue, input, newId, now).0)
  {
    var d := DoCreateItem(upper, c, owner, venue, input, newId, now).0;
    if d != c {
      forall i | 0 <= i < |d.items|
        ensures HasCategory(d, d.items[i].venue, d.items[i].category)
      {
        assert i < |c.items| ==> d.items[i] == c.items[i];
        assert HasCategory(c, d.items[i].venue, d.items[i].category);
      }
    }
  }

  lemma DeleteCategoryKeepsIntegrity(c: Catalog, owner: string, venue: string, id: string)
    requires Integrity(c)
    ensures Integrity(DoDeleteCategory(c, owner, venue, id).0)
  {
    FilterMembers(c.categories, OtherThan(id));
    FilterKeepsDistinctIds(c.categories, OtherThan(id));
    var d := DoDeleteCategory(c, owner, venue, id).0;
    if d != c {
      forall i | 0 <= i < |d.items|
        ensures HasCategory(d, d.items[i].venue, d.items[i].category)
      {
        assert d.items[i] in c.items;
        assert HasCategory(c, c.items[i].venue, c.items[i].category);
        var k :| 0 <= k < |c.categories| && c.categories[k].id == d.items[i].category
                 && c.categories[k].venue == d.items[i].venue;
        assert c.categories[k] in d.categories;
      }
    }
  }

  lemma UpdateCategoryKeepsIntegrity(c: Catalog, owner: string, venue: string, id: string, input: CategoryInput)
    requires Integrity(c)
    ensures Integrity(DoUpdateCategory(c, owner, venue, id, input).0)
  {
    SameKeysKeepIntegrity(c, DoUpdateCategory(c, owner, venue, id, input).0);
  }

  lemma ReorderCategoriesKeepsIntegrity(c: Catalog, owner: string, venue: string, ids: seq<string>)
    requires Integrity(c)
    ensures Integrity(DoReorderCategories(c, owner, venue, ids).0)
  {
    SameKeysKeepIntegrity(c, DoReorderCategories(c, owner, venue, ids).0);
  }

  lemma UpdateItemKeepsIntegrity(
    upper: string -> string, c: Catalog, owner: string, venue: string, id: string, input: ItemInput)
    requires Integrity(c)
    ensures Integrity(DoUpdateItem(upper, c, owner, venue, id, input).0)
  {
    SameKeysKeepIntegrity(c, DoUpdateItem(upper, c, owner, venue, id, input).0);
  }

  lemma DeleteItemKeepsIntegrity(c: Catalog, owner: string, venue: string, id: string)
    requires Integrity(c)
    ensures Integrity(DoDeleteItem(c, owner, venue, id).0)
  {
    SameKeysKeepIntegrity(c, DoDeleteItem(c, owner, venue, id).0);
  }

  lemma ReorderItemsKeepsIntegrity(c: Catalog, owner: string, venue: string, categoryId: string, ids: seq<string>)
    requires Integrity(c)
    ensures Integrity(DoReorderItems(c, owner, venue, categoryId, ids).0)
  {
    SameKeysKeepIntegrity(c, DoReorderItems(c, owner, venue, categoryId, ids).0);
  }

  lemma StepKeepsIntegrity(upper: string -> string, c: Catalog, call: Call)
    requires Integrity(c)
    ensures Integrity(Step(upper, c, call).0)
  {
    match call
    case CreateCategory(owner, venue, category, newId, now) =>
      CreateCategoryKeepsIntegrity(c, owner, venue, category, newId, now);
    case UpdateCategory(owner, venue, id, category) => UpdateCategoryKeepsIntegrity(c, owner, venue, id, category);
    case DeleteCategory(owner, venue, id) => DeleteCategoryKeepsIntegrity(c, owner, venue, id);
    case CreateItem(owner, venue, item, newId, now) =>
      CreateItemKeepsIntegrity(upper, c, owner, venue, item, newId, now);
    case UpdateItem(owner, venue, id, item) => UpdateItemKeepsIntegrity(upper, c, owner, venue, id, item);
    case DeleteItem(owner, venue, id) => DeleteItemKeepsIntegrity(c, owner, venue, id);
    case ReorderCategories(owner, venue, ids) => ReorderCategoriesKeepsIntegrity(c, owner, venue, ids);
    case ReorderItems(owner, venue, categoryId, ids) => ReorderItemsKeepsIntegrity(c, owner, venue, categoryId, ids);
  }

  lemma {:induction false} RunKeepsIntegrity(upper: string -> string, c: Catalog, calls: seq<Call>)
    requires Integrity(c)
    ensures Integrity(Run(upper, c, calls))
    decreases |calls|
  {
    if calls != [] {
      StepKeepsIntegrity(upper, c, calls[0]);
      RunKeepsIntegrity(upper, Step(upper, c, calls[0]).0, calls[1..]);
    }
  }
}
