/** Reordering categories and items composes: the menu listing is the chosen orders, joined. */
module CatalogMenu {
  import opened Common
  import opened CatalogListing
  import opened CatalogModel
  import opened CatalogOrder
  import opened Sequences

  ghost predicate InCategory(c: Catalog, venue: string, category: string, r: ItemRow) {
    Listed(c, venue, r) && r.category == category
  }

  ghost predicate CategoryAt(c: Catalog, venue: string, id: string, n: int) {
    exists r :: r in c.categories && r.venue == venue && r.id == id && r.sortOrder == n
  }

  ghost predicate ItemAt(c: Catalog, venue: string, category: string, id: string, n: int) {
    exists r :: InCategory(c, venue, category, r) && r.id == id && r.sortOrder == n
  }

  /** `order` names exactly the venue's categories, and each is numbered by its position. */
  ghost predicate CategoriesOrdered(c: Catalog, venue: string, order: seq<string>) {
    && Distinct(order)
    && (forall r :: r in c.categories && r.venue == venue ==> r.id in order)
    && (forall i :: 0 <= i < |order| ==> CategoryAt(c, venue, order[i], i))
  }

  /** `order` names exactly the live items of the category, and each is numbered by its position. */
  ghost predicate ItemsOrdered(c: Catalog, venue: string, category: string, order: seq<string>) {
    && Distinct(order)
    && (forall r :: InCategory(c, venue, category, r) ==> r.id in order)
    && (forall i :: 0 <= i < |order| ==> ItemAt(c, venue, category, order[i], i))
  }

  // ----- What a committed reorder establishes -----

  lemma FindById(rows: seq<CategoryRow>, r: CategoryRow)
    requires DistinctBy(CategoryId(), rows) && r in rows
    ensures FindCategory(rows, r.id) == Some(r)
  {
  }

  lemma PositionIsUnique(ids: seq<string>, i: nat)
    requires Distinct(ids) && i < |ids|
    ensures PositionOf(ids, ids[i]) == i
  {
  }

  lemma CategoriesReordered(c: Catalog, owner: string, venue: string, ids: seq<string>)
    requires Integrity(c)
    requires DoReorderCategories(c, owner, venue, ids).1 == Done
    requires forall r :: r in c.categories && r.venue == venue ==> r.id in ids
    ensures CategoriesOrdered(DoReorderCategories(c, owner, venue, ids).0, venue, ids)
  {
    var d, shape := DoReorderCategories(c, owner, venue, ids).0, CategoryShape(venue);
    CommitExactlyWhenAllNamed(shape, ids, c.categories);
    forall r | r in d.categories && r.venue == venue
      ensures r.id in ids
    {
      var k :| 0 <= k < |d.categories| && d.categories[k] == r;
      assert c.categories[k] in c.categories;
    }
    forall i | 0 <= i < |ids|
      ensures CategoryAt(d, venue, ids[i], i)
    {
      assert Names(shape, c.categories, ids[i]);
      var k :| 0 <= k < |c.categories| && shape.inScope(c.categories[k]) && shape.id(c.categories[k]) == ids[i];
      PositionIsUnique(ids, i);
      assert d.categories[k] in d.categories && d.categories[k].sortOrder == i;
    }
  }

  lemma ItemsReordered(c: Catalog, owner: string, venue: string, category: string, ids: seq<string>)
    requires Integrity(c)
    requires DoReorderItems(c, owner, venue, category, ids).1 == Done
    requires forall r :: InCategory(c, venue, category, r) ==> r.id in ids
    ensures ItemsOrdered(DoReorderItems(c, owner, venue, category, ids).0, venue, category, ids)
  {
    var d := DoReorderItems(c, owner, venue, category, ids).0;
    CommitExactlyWhenAllNamed(ItemShape(venue, category), ids, c.items);
    forall r | InCategory(d, venue, category, r)
      ensures r.id in ids
    {
      var k :| 0 <= k < |d.items| && d.items[k] == r;
      assert InCategory(c, venue, category, c.items[k]);
    }
    forall i | 0 <= i < |ids|
      ensures ItemAt(d, venue, category, ids[i], i)
    {
      assert Names(ItemShape(venue, category), c.items, ids[i]);
      ItemNumbered(c, venue, category, ids, i);
    }
  }

  lemma ItemNumbered(c: Catalog, venue: string, category: string, ids: seq<string>, i: nat)
    requires Integrity(c) && Distinct(ids) && i < |ids|
    requires Names(ItemShape(venue, category), c.items, ids[i])
    ensures
      ItemAt(c.(items := Renumbered(ItemShape(venue, category), ids, c.items)), venue, category, ids[i], i)
  {
    var d, shape := c.(items := Renumbered(ItemShape(venue, category), ids, c.items)), ItemShape(venue, category);
    var k :| 0 <= k < |c.items| && shape.inScope(c.items[k]) && shape.id(c.items[k]) == ids[i];
    PositionIsUnique(ids, i);
    CategoryExists(c, c.items[k]);
    assert InCategory(d, venue, category, d.items[k]) && d.items[k].sortOrder == i;
  }

  /** Reordering one category's items leaves the order of every other category alone. */
  lemma ItemsOrderSurvives(
    c: Catalog, owner: string, venue: string, category: string, ids: seq<string>, other: string, order: seq<string>)
    requires ItemsOrdered(c, venue, other, order) && other != category
    ensures ItemsOrdered(DoReorderItems(c, owner, venue, category, ids).0, venue, other, order)
  {
    var d := DoReorderItems(c, owner, venue, category, ids).0;
    forall r
      ensures InCategory(d, venue, other, r) <==> InCategory(c, venue, other, r)
    {
      if d != c {
        if r in d.items {
          var k :| 0 <= k < |d.items| && d.items[k] == r;
        }
        if r in c.items && r.category == other {
          var k :| 0 <= k < |c.items| && c.items[k] == r;
          assert d.items[k] == r;
        }
      }
    }
    forall i | 0 <= i < |order|
      ensures ItemAt(d, venue, other, order[i], i)
    {
      assert ItemAt(c, venue, other, order[i], i);
    }
  }

  // ----- The listing -----

  function FindItem(rows: seq<ItemRow>, id: string): Option<ItemRow> {
    Find(rows, (r: ItemRow) => r.id == id)
  }

  lemma FindItemById(rows: seq<ItemRow>, r: ItemRow)
    requires DistinctBy(ItemId(), rows) && r in rows
    ensures FindItem(rows, r.id) == Some(r)
  {
  }

  ghost predicate AllFound(rows: seq<ItemRow>, ids: seq<string>) {
    forall i :: 0 <= i < |ids| ==> FindItem(rows, ids[i]).Some?
  }

  ghost function RowsFor(rows: seq<ItemRow>, ids: seq<string>): (r: seq<ItemRow>)
    requires AllFound(rows, ids)
    ensures |r| == |ids|
    ensures forall i :: 0 <= i < |ids| ==> r[i] in rows && r[i].id == ids[i]
  {
    seq(|ids|, i requires 0 <= i < |ids| => FindItem(rows, ids[i]).value)
  }

  function Ids(rows: seq<ItemRow>): (ids: seq<string>)
    ensures |ids| == |rows|
    ensures forall i :: 0 <= i < |rows| ==> ids[i] == rows[i].id
  {
    seq(|rows|, i requires 0 <= i < |rows| => rows[i].id)
  }

  /** The item ids category by category, from the k-th category on. */
  function Joined(order: seq<string>, itemOrder: string -> seq<string>, k: nat): seq<string>
    requires k <= |order|
    decreases |order| - k
  {
    if k == |order| then [] else itemOrder(order[k]) + Joined(order, itemOrder, k + 1)
  }

  ghost predicate MenuOrdered(c: Catalog, venue: string, order: seq<string>, itemOrder: string -> seq<string>) {
    && Integrity(c)
    && CategoriesOrdered(c, venue, order)
    && forall i {:trigger OrderedAt(c, venue, order, itemOrder, i)} ::
         0 <= i < |order| ==> OrderedAt(c, venue, order, itemOrder, i)
  }

  ghost predicate OrderedAt(c: Catalog, venue: string, order: seq<string>, itemOrder: string -> seq<string>, i: nat)
    requires i < |order|
  {
    ItemsOrdered(c, venue, order[i], itemOrder(order[i]))
  }

  lemma CategoryRows(c: Catalog, venue: string, category: string, order: seq<string>) returns (rows: seq<ItemRow>)
    requires Integrity(c) && ItemsOrdered(c, venue, category, order)
    ensures Ids(rows) == order
    ensures forall i :: 0 <= i < |rows| ==> InCategory(c, venue, category, rows[i]) && rows[i].sortOrder == i
    ensures forall r :: InCategory(c, venue, category, r) ==> r in rows
  {
    forall i | 0 <= i < |order|
      ensures
        var f := FindItem(c.items, order[i]);
        f.Some? && InCategory(c, venue, category, f.value) && f.value.sortOrder == i
    {
      assert ItemAt(c, venue, category, order[i], i);
      var r :| InCategory(c, venue, category, r) && r.id == order[i] && r.sortOrder == i;
      FindItemById(c.items, r);
    }
    rows := RowsFor(c.items, order);
    forall r | InCategory(c, venue, category, r)
      ensures r in rows
    {
      var i :| 0 <= i < |order| && order[i] == r.id;
      FindItemById(c.items, r);
      assert rows[i] == r;
    }
  }

  lemma CategoryPosition(c: Catalog, venue: string, order: seq<string>, k: nat)
    requires Integrity(c) && CategoriesOrdered(c, venue, order) && k < |order|
    ensures CategorySort(c, order[k]) == k
  {
    assert CategoryAt(c, venue, order[k], k);
    var r :| r in c.categories && r.venue == venue && r.id == order[k] && r.sortOrder == k;
    FindById(c.categories, r);
  }

  lemma CategoryThenRest(c: Catalog, category: string, first: seq<ItemRow>, rest: seq<ItemRow>, k: nat)
    requires CategorySort(c, category) == k
    requires forall i :: 0 <= i < |first| ==> first[i].category == category && first[i].sortOrder == i
    requires forall i :: 0 <= i < |rest| ==> k < CategorySort(c, rest[i].category)
    requires StrictlySorted((x, y) => Before(c, x, y), rest)
    ensures StrictlySorted((x, y) => Before(c, x, y), first + rest)
  {
    var rows, before := first + rest, (x, y) => Before(c, x, y);
    forall i, j | 0 <= i < j < |rows|
      ensures before(rows[i], rows[j])
    {
      if i >= |first| {
        assert before(rest[i - |first|], rest[j - |first|]);
      }
    }
  }

  /** All live items of the k-th and later categories, strictly sorted by the three keys. */
  ghost predicate Arranged(c: Catalog, venue: string, order: seq<string>, k: nat, rows: seq<ItemRow>) {
    && (forall i :: 0 <= i < |rows| ==> Listed(c, venue, rows[i]) && k <= CategorySort(c, rows[i].category))
    && StrictlySorted((x, y) => Before(c, x, y), rows)
    && (forall r, j :: k <= j < |order| && InCategory(c, venue, order[j], r) ==> r in rows)
  }

  lemma ArrangedMore(c: Catalog, venue: string, order: seq<string>, k: nat, first: seq<ItemRow>, rest: seq<ItemRow>)
    requires k < |order| && Arranged(c, venue, order, k + 1, rest)
    requires CategorySort(c, order[k]) == k
    requires forall i :: 0 <= i < |first| ==> InCategory(c, venue, order[k], first[i]) && first[i].sortOrder == i
    requires forall r :: InCategory(c, venue, order[k], r) ==> r in first
    ensures Arranged(c, venue, order, k, first + rest)
  {
    CategoryThenRest(c, order[k], first, rest, k);
  }

  lemma IdsConcat(first: seq<ItemRow>, rest: seq<ItemRow>)
    ensures Ids(first + rest) == Ids(first) + Ids(rest)
  {
  }

  lemma ArrangedWithout(c: Catalog, venue: string, order: seq<string>)
    ensures Arranged(c, venue, order, |order|, [])
  {
  }

  lemma CategoryStep(
    c: Catalog, venue: string, order: seq<string>, itemOrder: string -> seq<string>, k: nat, rest: seq<ItemRow>)
    returns (rows: seq<ItemRow>)
    requires MenuOrdered(c, venue, order, itemOrder) && k < |order|
    requires Arranged(c, venue, order, k + 1, rest)
    ensures Ids(rows) == itemOrder(order[k]) + Ids(rest)
    ensures Arranged(c, venue, order, k, rows)
  {
    assert OrderedAt(c, venue, order, itemOrder, k);
    var first := CategoryRows(c, venue, order[k], itemOrder(order[k]));
    CategoryPosition(c, venue, order, k);
    ArrangedMore(c, venue, order, k, first, rest);
    IdsConcat(first, rest);
    rows := first + rest;
  }

  lemma {:induction false} Arrangement(
    c: Catalog, venue: string, order: seq<string>, itemOrder: string -> seq<string>, k: nat)
    returns (rows: seq<ItemRow>)
    requires MenuOrdered(c, venue, order, itemOrder) && k <= |order|
    ensures Ids(rows) == Joined(order, itemOrder, k)
    ensures Arranged(c, venue, order, k, rows)
    decreases |order| - k
  {
    if k == |order| {
      ArrangedWithout(c, venue, order);
      rows := [];
    } else {
      var rest := Arrangement(c, venue, order, itemOrder, k + 1);
      rows := CategoryStep(c, venue, order, itemOrder, k, rest);
    }
  }

  /** Whatever answer PostgreSQL gives, the listed ids are the per-category orders joined in category order. */
  lemma MenuIsJoinedOrders(
    c: Catalog, venue: string, order: seq<string>, itemOrder: string -> seq<string>, menu: seq<ItemRow>)
    requires MenuOrdered(c, venue, order, itemOrder)
    requires MenuListing(c, venue, menu)
    ensures Ids(menu) == Joined(order, itemOrder, 0)
  {
    var rows := Arrangement(c, venue, order, itemOrder, 0);
    var before := (x, y) => Before(c, x, y);
    forall i, j | 0 <= i < j < |rows|
      ensures rows[i] != rows[j]
    {
      assert before(rows[i], rows[j]);
    }
    forall r | r in menu
      ensures r in rows
    {
      CategoryExists(c, r);
      var k :| k in c.categories && k.id == r.category && k.venue == r.venue;
      var j :| 0 <= j < |order| && order[j] == k.id;
      assert InCategory(c, venue, order[j], r);
    }
    StrictArrangementIsUnique(before, menu, rows);
  }

  // ----- Any interleaving of reorders -----

  /** Calls for the venue only reorder; calls for other venues are free. */
  predicate OnlyReorders(calls: seq<Call>, venue: string) {
    forall i :: 0 <= i < |calls| && VenueOf(calls[i]) == venue ==> calls[i].ReorderCategories? || calls[i].ReorderItems?
  }

  ghost predicate ReordersCategories(upper: string -> string, c: Catalog, call: Call, venue: string) {
    call.ReorderCategories? && call.venue == venue && Step(upper, c, call).1 == Done
  }

  ghost predicate ReordersItems(upper: string -> string, c: Catalog, call: Call, venue: string, category: string) {
    call.ReorderItems? && call.venue == venue && call.categoryId == category && Step(upper, c, call).1 == Done
  }

  /** The latest order of the venue's categories that was committed. */
  ghost function ChosenCategories(upper: string -> string, c: Catalog, calls: seq<Call>, venue: string): Option<seq<string>>
    decreases |calls|
  {
    if calls == [] then None
    else
      var before, last := calls[..|calls| - 1], calls[|calls| - 1];
      if ReordersCategories(upper, Run(upper, c, before), last, venue) then Some(last.ids)
      else ChosenCategories(upper, c, before, venue)
  }

  /** The latest order of the category's items that was committed. */
  ghost function ChosenItems(upper: string -> string, c: Catalog, calls: seq<Call>, venue: string, category: string)
    : Option<seq<string>>
    decreases |calls|
  {
    if calls == [] then None
    else
      var before, last := calls[..|calls| - 1], calls[|calls| - 1];
      if ReordersItems(upper, Run(upper, c, before), last, venue, category) then Some(last.ids)
      else ChosenItems(upper, c, before, venue, category)
  }

  /** A category without items never gets an order, and lists none. */
  ghost function ItemOrder(upper: string -> string, c: Catalog, calls: seq<Call>, venue: string): string -> seq<string> {
    (category: string) =>
      var chosen := ChosenItems(upper, c, calls, venue, category);
      if chosen.None? then [] else chosen.value
  }

  ghost predicate CoversCategories(c: Catalog, venue: string, order: seq<string>) {
    forall r :: r in c.categories && r.venue == venue ==> r.id in order
  }

  ghost predicate CoversItems(c: Catalog, venue: string, category: string, order: seq<string>) {
    forall r :: InCategory(c, venue, category, r) ==> r.id in order
  }

  lemma {:induction false} RunLast(upper: string -> string, c: Catalog, calls: seq<Call>)
    requires calls != []
    ensures Run(upper, c, calls) == Step(upper, Run(upper, c, calls[..|calls| - 1]), calls[|calls| - 1]).0
    decreases |calls|
  {
    if |calls| > 1 {
      assert calls[1..][..|calls| - 2] == calls[..|calls| - 1][1..];
      RunLast(upper, Step(upper, c, calls[0]).0, calls[1..]);
    }
  }

  lemma LiveInCategory(c: Catalog, venue: string, category: string, r: ItemRow)
    requires Integrity(c)
    ensures InCategory(c, venue, category, r) <==> r in c.items && r.venue == venue && !r.deleted && r.category == category
  {
    if r in c.items {
      CategoryExists(c, r);
    }
  }

  /** A call for another venue leaves the venue's rows in place. */
  lemma OthersKeepRows(upper: string -> string, c: Catalog, call: Call, venue: string)
    requires Integrity(c) && VenueOf(call) != venue
    ensures forall r: CategoryRow :: r.venue == venue ==> (r in Step(upper, c, call).0.categories <==> r in c.categories)
    ensures forall r: ItemRow :: r.venue == venue ==> (r in Step(upper, c, call).0.items <==> r in c.items)
  {
    var d := Step(upper, c, call).0;
    if call.CreateCategory? || call.UpdateCategory? || call.DeleteCategory? || call.ReorderCategories? {
      CategoryCallsKeepOthers(c, call, upper, venue);
    } else {
      ItemCallsKeepOthers(c, call, upper, venue);
    }
    FilterMembers(c.categories, CategoryIn(venue));
    FilterMembers(d.categories, CategoryIn(venue));
    FilterMembers(c.items, ItemIn(venue));
    FilterMembers(d.items, ItemIn(venue));
  }

  lemma SameLiveItems(c: Catalog, d: Catalog, venue: string, category: string)
    requires Integrity(c) && Integrity(d)
    requires forall r: ItemRow :: r.venue == venue ==> (r in d.items <==> r in c.items)
    ensures forall r :: InCategory(d, venue, category, r) <==> InCategory(c, venue, category, r)
  {
    forall r
      ensures InCategory(d, venue, category, r) <==> InCategory(c, venue, category, r)
    {
      LiveInCategory(c, venue, category, r);
      LiveInCategory(d, venue, category, r);
    }
  }

  lemma SameItemsSameOrder(c: Catalog, d: Catalog, venue: string, category: string, order: seq<string>)
    requires forall r :: InCategory(d, venue, category, r) <==> InCategory(c, venue, category, r)
    ensures ItemsOrdered(c, venue, category, order) ==> ItemsOrdered(d, venue, category, order)
    ensures CoversItems(c, venue, category, order) ==> CoversItems(d, venue, category, order)
  {
    if ItemsOrdered(c, venue, category, order) {
      forall i | 0 <= i < |order|
        ensures ItemAt(d, venue, category, order[i], i)
      {
        assert ItemAt(c, venue, category, order[i], i);
      }
    }
  }

  lemma ItemReorderKeepsCover(
    c: Catalog, owner: string, venue: string, id: string, ids: seq<string>, category: string, order: seq<string>)
    requires CoversItems(c, venue, category, order)
    ensures CoversItems(DoReorderItems(c, owner, venue, id, ids).0, venue, category, order)
  {
    var d := DoReorderItems(c, owner, venue, id, ids).0;
    forall r | InCategory(d, venue, category, r)
      ensures r.id in order
    {
      var k :| 0 <= k < |d.items| && d.items[k] == r;
      assert InCategory(c, venue, category, c.items[k]);
    }
  }

  /** One more call keeps an order of items, unless it commits another one for the same category. */
  lemma ItemsStep(upper: string -> string, c: Catalog, call: Call, venue: string, category: string, order: seq<string>)
    requires Integrity(c) && OnlyReorders([call], venue)
    requires CoversItems(c, venue, category, order)
    ensures CoversItems(Step(upper, c, call).0, venue, category, order)
    ensures ItemsOrdered(c, venue, category, order) && !ReordersItems(upper, c, call, venue, category)
            ==> ItemsOrdered(Step(upper, c, call).0, venue, category, order)
  {
    var d := Step(upper, c, call).0;
    StepKeepsIntegrity(upper, c, call);
    assert VenueOf([call][0]) == call.venue;
    if call.venue == venue && call.ReorderItems? {
      ItemReorderKeepsCover(c, call.owner, venue, call.categoryId, call.ids, category, order);
      if call.categoryId != category && ItemsOrdered(c, venue, category, order) {
        ItemsOrderSurvives(c, call.owner, venue, call.categoryId, call.ids, category, order);
      }
    } else {
      if call.venue != venue {
        OthersKeepRows(upper, c, call, venue);
      }
      SameLiveItems(c, d, venue, category);
      SameItemsSameOrder(c, d, venue, category, order);
    }
  }

  lemma CategoriesStay(c: Catalog, d: Catalog, venue: string, order: seq<string>)
    requires forall r: CategoryRow :: r.venue == venue ==> (r in d.categories <==> r in c.categories)
    ensures CategoriesOrdered(c, venue, order) ==> CategoriesOrdered(d, venue, order)
    ensures CoversCategories(c, venue, order) ==> CoversCategories(d, venue, order)
  {
    if CategoriesOrdered(c, venue, order) {
      forall i | 0 <= i < |order|
        ensures CategoryAt(d, venue, order[i], i)
      {
        assert CategoryAt(c, venue, order[i], i);
      }
    }
  }

  lemma CategoryReorderKeepsCover(c: Catalog, owner: string, venue: string, ids: seq<string>, order: seq<string>)
    requires CoversCategories(c, venue, order)
    ensures CoversCategories(DoReorderCategories(c, owner, venue, ids).0, venue, order)
  {
    var d := DoReorderCategories(c, owner, venue, ids).0;
    forall r | r in d.categories && r.venue == venue
      ensures r.id in order
    {
      var k :| 0 <= k < |d.categories| && d.categories[k] == r;
      assert c.categories[k] in c.categories;
    }
  }

  /** One more call keeps an order of categories, unless it commits another one. */
  lemma CategoriesStep(upper: string -> string, c: Catalog, call: Call, venue: string, order: seq<string>)
    requires Integrity(c) && OnlyReorders([call], venue)
    requires CoversCategories(c, venue, order)
    ensures CoversCategories(Step(upper, c, call).0, venue, order)
    ensures CategoriesOrdered(c, venue, order) && !ReordersCategories(upper, c, call, venue)
            ==> CategoriesOrdered(Step(upper, c, call).0, venue, order)
  {
    assert VenueOf([call][0]) == call.venue;
    if call.venue == venue && call.ReorderCategories? {
      CategoryReorderKeepsCover(c, call.owner, venue, call.ids, order);
    } else {
      if call.venue != venue {
        OthersKeepRows(upper, c, call, venue);
      }
      CategoriesStay(c, Step(upper, c, call).0, venue, order);
    }
  }

  /** Over any interleaving the categories stand in the order committed last, if that one names them all. */
  lemma {:induction false} CategoriesFollow(
    upper: string -> string, c: Catalog, calls: seq<Call>, venue: string, order: seq<string>)
    requires Integrity(c) && OnlyReorders(calls, venue)
    requires CoversCategories(c, venue, order)
    ensures Integrity(Run(upper, c, calls)) && CoversCategories(Run(upper, c, calls), venue, order)
    ensures ChosenCategories(upper, c, calls, venue) == Some(order) ==>
      CategoriesOrdered(Run(upper, c, calls), venue, order)
    decreases |calls|
  {
    RunKeepsIntegrity(upper, c, calls);
    if calls != [] {
      var before, last := calls[..|calls| - 1], calls[|calls| - 1];
      CategoriesFollow(upper, c, before, venue, order);
      RunLast(upper, c, calls);
      var d := Run(upper, c, before);
      CategoriesStep(upper, d, last, venue, order);
      if ReordersCategories(upper, d, last, venue) && last.ids == order {
        CategoriesReordered(d, last.owner, venue, order);
      }
    }
  }

  /** So do the items of each category. */
  lemma {:induction false} ItemsFollow(
    upper: string -> string, c: Catalog, calls: seq<Call>, venue: string, category: string, order: seq<string>)
    requires Integrity(c) && OnlyReorders(calls, venue)
    requires CoversItems(c, venue, category, order)
    ensures CoversItems(Run(upper, c, calls), venue, category, order)
    ensures ChosenItems(upper, c, calls, venue, category) == Some(order) ==>
      ItemsOrdered(Run(upper, c, calls), venue, category, order)
    decreases |calls|
  {
    if calls != [] {
      var before, last := calls[..|calls| - 1], calls[|calls| - 1];
      RunKeepsIntegrity(upper, c, before);
      ItemsFollow(upper, c, before, venue, category, order);
      RunLast(upper, c, calls);
      var d := Run(upper, c, before);
      ItemsStep(upper, d, last, venue, category, order);
      if ReordersItems(upper, d, last, venue, category) && last.ids == order {
        ItemsReordered(d, last.owner, venue, category, order);
      }
    }
  }

  /**
   However category and item reorders of a venue are interleaved, committed or rolled back, and whatever is
   called for other venues in between: if the last committed category order names all categories and the
   last committed order of each category that has live items names them all, the menu lists the chosen
   item orders, joined in the chosen category order.
   */
  lemma MenuFollowsTheChosenOrders(
    upper: string -> string, c: Catalog, calls: seq<Call>, venue: string, order: seq<string>, menu: seq<ItemRow>)
    requires Integrity(c) && OnlyReorders(calls, venue)
    requires ChosenCategories(upper, c, calls, venue) == Some(order) && CoversCategories(c, venue, order)
    requires forall r :: Listed(c, venue, r) ==>
      var chosen := ChosenItems(upper, c, calls, venue, r.category);
      chosen.Some? && CoversItems(c, venue, r.category, chosen.value)
    requires MenuListing(Run(upper, c, calls), venue, menu)
    ensures Ids(menu) == Joined(order, ItemOrder(upper, c, calls, venue), 0)
  {
    var d, itemOrder := Run(upper, c, calls), ItemOrder(upper, c, calls, venue);
    CategoriesFollow(upper, c, calls, venue, order);
    forall i | 0 <= i < |order|
      ensures OrderedAt(d, venue, order, itemOrder, i)
    {
      CategoryFollows(upper, c, calls, venue, order[i]);
    }
    MenuIsJoinedOrders(d, venue, order, itemOrder, menu);
  }

  lemma CategoryFollows(upper: string -> string, c: Catalog, calls: seq<Call>, venue: string, category: string)
    requires Integrity(c) && OnlyReorders(calls, venue)
    requires forall r :: InCategory(c, venue, category, r) ==>
      var chosen := ChosenItems(upper, c, calls, venue, category);
      chosen.Some? && CoversItems(c, venue, category, chosen.value)
    ensures ItemsOrdered(Run(upper, c, calls), venue, category, ItemOrder(upper, c, calls, venue)(category))
  {
    var chosen := ChosenItems(upper, c, calls, venue, category);
    ItemsFollow(upper, c, calls, venue, category, if chosen.None? then [] else chosen.value);
  }

  /** The rows of the venue's categories, in the order of their numbers. */
  lemma CategoryRowsInOrder(c: Catalog, venue: string, order: seq<string>) returns (rows: seq<CategoryRow>)
    requires Integrity(c) && CategoriesOrdered(c, venue, order)
    ensures |rows| == |order|
    ensures forall i :: 0 <= i < |order| ==>
      rows[i] in c.categories && rows[i].venue == venue && rows[i].id == order[i] && rows[i].sortOrder == i
    ensures forall r :: r in c.categories && r.venue == venue ==> r in rows
  {
    forall i | 0 <= i < |order|
      ensures
        var f := FindCategory(c.categories, order[i]);
        f.Some? && f.value.venue == venue && f.value.sortOrder == i
    {
      assert CategoryAt(c, venue, order[i], i);
      var r :| r in c.categories && r.venue == venue && r.id == order[i] && r.sortOrder == i;
      FindById(c.categories, r);
    }
    rows := seq(|order|, i requires 0 <= i < |order| => FindCategory(c.categories, order[i]).value);
    forall r | r in c.categories && r.venue == venue
      ensures r in rows
    {
      var i :| 0 <= i < |order| && order[i] == r.id;
      FindById(c.categories, r);
      assert rows[i] == r;
    }
  }

  /** Over the same interleavings, a listing of the categories is the order committed last. */
  lemma CategoriesListedAsChosen(
    upper: string -> string, c: Catalog, calls: seq<Call>, venue: string, order: seq<string>, listing: seq<CategoryRow>)
    requires Integrity(c) && OnlyReorders(calls, venue)
    requires ChosenCategories(upper, c, calls, venue) == Some(order) && CoversCategories(c, venue, order)
    requires CategoryListing(Run(upper, c, calls), venue, listing)
    ensures |listing| == |order| && forall i :: 0 <= i < |order| ==> listing[i].id == order[i]
  {
    CategoriesFollow(upper, c, calls, venue, order);
    var rows := CategoryRowsInOrder(Run(upper, c, calls), venue, order);
    var before := (x, y) => CategoryBefore(x, y);
    forall i, j | 0 <= i < j < |rows|
      ensures before(rows[i], rows[j]) && rows[i] != rows[j]
    {
    }
    StrictArrangementIsUnique(before, listing, rows);
  }
}
