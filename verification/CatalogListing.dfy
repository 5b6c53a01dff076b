/** What the listings show: conserved item counts, and venues kept apart. */
module CatalogListing {
  import opened Common
  import opened CatalogModel
  import opened Sequences

  // ----- Listings: any answer that PostgreSQL may give -----

  function FindCategory(rows: seq<CategoryRow>, id: string): Option<CategoryRow> {
    Find(rows, (r: CategoryRow) => r.id == id)
  }

  function CategoryIn(venue: string): CategoryRow -> bool {
    (r: CategoryRow) => r.venue == venue
  }

  function ItemIn(venue: string): ItemRow -> bool {
    (r: ItemRow) => r.venue == venue
  }

  function IsListed(c: Catalog, venue: string): ItemRow -> bool {
    (r: ItemRow) => r.venue == venue && !r.deleted && FindCategory(c.categories, r.category).Some?
  }

  function IsLiveIn(category: string): ItemRow -> bool {
    (r: ItemRow) => r.category == category && !r.deleted
  }

  function CategorySort(c: Catalog, id: string): int {
    var category := FindCategory(c.categories, id);
    if category.None? then 0 else category.value.sortOrder
  }

  /** WHERE venue AND NOT deleted, joined with the item's category. */
  ghost predicate Listed(c: Catalog, venue: string, r: ItemRow) {
    r in c.items && IsListed(c, venue)(r)
  }

  /** ORDER BY category sort order, item sort order, creation time. */
  predicate Before(c: Catalog, x: ItemRow, y: ItemRow) {
    var p, q := CategorySort(c, x.category), CategorySort(c, y.category);
    p < q || (p == q && (x.sortOrder < y.sortOrder || (x.sortOrder == y.sortOrder && x.createdAt < y.createdAt)))
  }

  ghost predicate MenuListing(c: Catalog, venue: string, out: seq<ItemRow>) {
    && Distinct(out)
    && (forall r :: r in out <==> Listed(c, venue, r))
    && NeverInverted((x, y) => Before(c, x, y), out)
  }

  predicate CategoryBefore(x: CategoryRow, y: CategoryRow) {
    x.sortOrder < y.sortOrder || (x.sortOrder == y.sortOrder && x.createdAt < y.createdAt)
  }

  ghost predicate CategoryListing(c: Catalog, venue: string, out: seq<CategoryRow>) {
    && Distinct(out)
    && (forall r :: r in out <==> r in c.categories && r.venue == venue)
    && NeverInverted((x, y) => CategoryBefore(x, y), out)
  }

  /** COUNT over the join: live items of the category, whatever their venue. */
  function ItemCount(items: seq<ItemRow>, category: string): nat {
    |Filter(items, IsLiveIn(category))|
  }

  // ----- Item counts are conserved -----

  function TotalCount(categories: seq<CategoryRow>, items: seq<ItemRow>): nat {
    if categories == [] then 0 else ItemCount(items, categories[0].id) + TotalCount(categories[1..], items)
  }

  function IsLiveAt(venue: string): ItemRow -> bool {
    (r: ItemRow) => r.venue == venue && !r.deleted
  }

  function Occurrences(categories: seq<CategoryRow>, id: string): nat {
    if categories == [] then 0 else (if categories[0].id == id then 1 else 0) + Occurrences(categories[1..], id)
  }

  lemma {:induction false} OneItemMore(categories: seq<CategoryRow>, items: seq<ItemRow>)
    requires items != []
    ensures
      TotalCount(categories, items)
      == TotalCount(categories, items[1..]) + if items[0].deleted then 0 else Occurrences(categories, items[0].category)
  {
    if categories != [] {
      OneItemMore(categories[1..], items);
    }
  }

  lemma {:induction false} OccursOnce(categories: seq<CategoryRow>, id: string)
    requires DistinctBy(CategoryId(), categories)
    ensures Occurrences(categories, id) == if exists r :: r in categories && r.id == id then 1 else 0
  {
    if categories != [] {
      OccursOnce(categories[1..], id);
      assert categories == [categories[0]] + categories[1..];
    }
  }

  lemma {:induction false} CountsAddUp(categories: seq<CategoryRow>, items: seq<ItemRow>, venue: string)
    requires DistinctBy(CategoryId(), categories)
    requires forall r :: r in items && !r.deleted ==>
      (r.venue == venue <==> exists k :: k in categories && k.id == r.category)
    ensures TotalCount(categories, items) == |Filter(items, IsLiveAt(venue))|
  {
    if items == [] {
      NoItemsNoCount(categories);
    } else {
      OneItemMore(categories, items);
      OccursOnce(categories, items[0].category);
      CountsAddUp(categories, items[1..], venue);
    }
  }

  lemma {:induction false} NoItemsNoCount(categories: seq<CategoryRow>)
    ensures TotalCount(categories, []) == 0
  {
    if categories != [] {
      NoItemsNoCount(categories[1..]);
    }
  }

  lemma CategoryExists(c: Catalog, r: ItemRow)
    requires Integrity(c) && r in c.items
    ensures exists k :: k in c.categories && k.id == r.category && k.venue == r.venue
    ensures FindCategory(c.categories, r.category).Some?
  {
    var i :| 0 <= i < |c.items| && c.items[i] == r;
    assert HasCategory(c, r.venue, r.category);
    var j :| 0 <= j < |c.categories| && c.categories[j].id == r.category && c.categories[j].venue == r.venue;
    assert c.categories[j] in c.categories;
  }

  /** The item counts of a venue's category listing add up to the length of its menu listing. */
  lemma ItemCountsMatchMenu(c: Catalog, venue: string, categories: seq<CategoryRow>, menu: seq<ItemRow>)
    requires Integrity(c)
    requires CategoryListing(c, venue, categories) && MenuListing(c, venue, menu)
    ensures TotalCount(categories, c.items) == |menu|
  {
    forall i, j | 0 <= i < j < |categories|
      ensures categories[i].id != categories[j].id
    {
      assert categories[i] in categories && categories[j] in categories;
    }
    forall r | r in c.items && !r.deleted
      ensures r.venue == venue <==> exists k :: k in categories && k.id == r.category
      ensures FindCategory(c.categories, r.category).Some?
    {
      CategoryExists(c, r);
    }
    CountsAddUp(categories, c.items, venue);
    FilterMembers(c.items, IsLiveAt(venue));
    SameElementsSameLength(Filter(c.items, IsLiveAt(venue)), menu);
  }

  /** So it is after every run of calls from an intact catalog. */
  lemma ItemCountsConserved(
    upper: string -> string, c: Catalog, calls: seq<Call>, venue: string, categories: seq<CategoryRow>, menu: seq<ItemRow>)
    requires Integrity(c)
    requires CategoryListing(Run(upper, c, calls), venue, categories) && MenuListing(Run(upper, c, calls), venue, menu)
    ensures TotalCount(categories, Run(upper, c, calls).items) == |menu|
  {
    RunKeepsIntegrity(upper, c, calls);
    ItemCountsMatchMenu(Run(upper, c, calls), venue, categories, menu);
  }

  // ----- Venues are kept apart -----

  function VenueOf(call: Call): string {
    call.venue
  }

  lemma CategoryCallsKeepOthers(c: Catalog, call: Call, upper: string -> string, other: string)
    requires Integrity(c) && other != VenueOf(call)
    requires call.CreateCategory? || call.UpdateCategory? || call.DeleteCategory? || call.ReorderCategories?
    ensures Filter(Step(upper, c, call).0.categories, CategoryIn(other)) == Filter(c.categories, CategoryIn(other))
    ensures Step(upper, c, call).0.items == c.items
  {
    var d := Step(upper, c, call).0;
    match call
    case CreateCategory(owner, venue, input, newId, now) =>
      if d != c {
        FilterAppended(c.categories, d.categories[|c.categories|], CategoryIn(other));
      }
    case DeleteCategory(owner, venue, id) =>
      if d != c {
        FilterTwice(c.categories, CategoryIn(other), OtherThan(id));
      }
    case UpdateCategory(owner, venue, id, input) => FilterElsewhere(c.categories, d.categories, CategoryIn(other));
    case ReorderCategories(owner, venue, ids) => FilterElsewhere(c.categories, d.categories, CategoryIn(other));
  }

  lemma CreateItemKeepsOthers(
    upper: string -> string, c: Catalog, owner: string, venue: string, input: ItemInput, newId: string, now: Time,
    other: string)
    requires other != venue
    ensures
      Filter(DoCreateItem(upper, c, owner, venue, input, newId, now).0.items, ItemIn(other)) == Filter(c.items, ItemIn(other))
  {
    var d := DoCreateItem(upper, c, owner, venue, input, newId, now).0;
    if d != c {
      FilterAppended(c.items, d.items[|c.items|], ItemIn(other));
    }
  }

  lemma ItemCallsKeepOthers(c: Catalog, call: Call, upper: string -> string, other: string)
    requires other != VenueOf(call)
    requires call.CreateItem? || call.UpdateItem? || call.DeleteItem? || call.ReorderItems?
    ensures Filter(Step(upper, c, call).0.items, ItemIn(other)) == Filter(c.items, ItemIn(other))
    ensures Step(upper, c, call).0.categories == c.categories
  {
    var d := Step(upper, c, call).0;
    match call
    case CreateItem(owner, venue, input, newId, now) =>
      CreateItemKeepsOthers(upper, c, owner, venue, input, newId, now, other);
    case UpdateItem(owner, venue, id, input) => FilterElsewhere(c.items, d.items, ItemIn(other));
    case DeleteItem(owner, venue, id) => FilterElsewhere(c.items, d.items, ItemIn(other));
    case ReorderItems(owner, venue, category, ids) => FilterElsewhere(c.items, d.items, ItemIn(other));
  }

  /** Calls for other venues leave a venue's rows as they are, over whole runs. */
  lemma {:induction false} OtherVenuesUntouched(upper: string -> string, c: Catalog, calls: seq<Call>, venue: string)
    requires Integrity(c)
    requires forall i :: 0 <= i < |calls| ==> VenueOf(calls[i]) != venue
    ensures Filter(Run(upper, c, calls).categories, CategoryIn(venue)) == Filter(c.categories, CategoryIn(venue))
    ensures Filter(Run(upper, c, calls).items, ItemIn(venue)) == Filter(c.items, ItemIn(venue))
    decreases |calls|
  {
    if calls != [] {
      var call := calls[0];
      if call.CreateCategory? || call.UpdateCategory? || call.DeleteCategory? || call.ReorderCategories? {
        CategoryCallsKeepOthers(c, call, upper, venue);
      } else {
        ItemCallsKeepOthers(c, call, upper, venue);
      }
      StepKeepsIntegrity(upper, c, call);
      OtherVenuesUntouched(upper, Step(upper, c, call).0, calls[1..], venue);
    }
  }
}
