/** The database context: the two tables, the soft-delete query filters, the
    relationship between products and categories, the change tracker, and
    SaveChanges, which stamps `updatedAt` on every modified entry before it
    writes the staged changes. */
module Data {
  import opened Models

  /** The committed state of the store. Each table is keyed by its primary
      key; the two counters are the identity columns' next values. */
  datatype Tables = Tables(
    categories: map<int, Category>,
    products: map<int, Product>,
    nextCategoryId: int,
    nextProductId: int)

  /** The global query filter on products: deleted rows are never read. */
  predicate ProductFilter(p: Product) {
    !p.isDeleted
  }

  /** The global query filter on categories. */
  predicate CategoryFilter(c: Category) {
    !c.isDeleted
  }

  /** The category rows every category query starts from: the soft-delete
      filter is part of the set itself. */
  function CategorySet(t: Tables): set<Category> {
    set c | c in t.categories.Values && CategoryFilter(c)
  }

  /** The product rows every product query starts from. */
  function ProductSet(t: Tables): set<Product> {
    set p | p in t.products.Values && ProductFilter(p)
  }

  /** The rows a category read can see at all, by key. */
  function LiveCategories(t: Tables): (r: map<int, Category>)
    ensures forall id :: id in r <==> id in t.categories && CategoryFilter(t.categories[id])
    ensures forall id :: id in r ==> r[id] == t.categories[id]
  {
    map id | id in t.categories && CategoryFilter(t.categories[id]) :: t.categories[id]
  }

  /** The rows a product read can see at all, by key. */
  function LiveProducts(t: Tables): (r: map<int, Product>)
    ensures forall id :: id in r <==> id in t.products && ProductFilter(t.products[id])
    ensures forall id :: id in r ==> r[id] == t.products[id]
  {
    map id | id in t.products && ProductFilter(t.products[id]) :: t.products[id]
  }

  /** Primary keys: every row sits under its own id, below the identity counter. */
  ghost predicate WellFormed(t: Tables) {
    && (forall id :: id in t.categories ==> t.categories[id].id == id && id < t.nextCategoryId)
    && (forall id :: id in t.products ==> t.products[id].id == id && id < t.nextProductId)
  }

  /** The required relationship: every product row names an existing category
      row. Deletion of a referenced category is restricted, never cascaded, so
      the reference never dangles. */
  ghost predicate ForeignKeysHold(t: Tables) {
    forall id :: id in t.products ==> t.products[id].categoryId in t.categories
  }

  /** Every live product belongs to a live category. */
  ghost predicate LiveProductsHaveLiveCategory(t: Tables) {
    forall id :: id in t.products && ProductFilter(t.products[id]) ==>
      var cid := t.products[id].categoryId;
      cid in t.categories && CategoryFilter(t.categories[cid])
  }

  /** No two live categories share a name, ignoring case. */
  ghost predicate CategoryNamesUnique(t: Tables) {
    forall i, j :: i in t.categories && j in t.categories && i != j
      && CategoryFilter(t.categories[i]) && CategoryFilter(t.categories[j])
      ==> !SameName(t.categories[i].name, t.categories[j].name)
  }

  /** No two live products share a name, ignoring case. */
  ghost predicate ProductNamesUnique(t: Tables) {
    forall i, j :: i in t.products && j in t.products && i != j
      && ProductFilter(t.products[i]) && ProductFilter(t.products[j])
      ==> !SameName(t.products[i].name, t.products[j].name)
  }

  ghost predicate RowsValid(t: Tables) {
    && (forall id :: id in t.categories ==> ValidCategoryRow(t.categories[id]))
    && (forall id :: id in t.products ==> ValidProductRow(t.products[id]))
  }

  /** Everything the catalog layer keeps true of the store. */
  ghost predicate Consistent(t: Tables) {
    && WellFormed(t)
    && ForeignKeysHold(t)
    && LiveProductsHaveLiveCategory(t)
    && CategoryNamesUnique(t)
    && ProductNamesUnique(t)
    && RowsValid(t)
  }

  /** What may happen to the store across one successful or failed operation
      that saved at time `now`: no row disappears, `createdAt` never changes,
      `updatedAt` either stays or becomes `now`, a deleted row stays exactly as
      it was, and a new row was created at `now`, never updated and live. */
  ghost predicate HistoryKept(t: Tables, t': Tables, now: Time) {
    && (forall id :: id in t.categories ==>
          && id in t'.categories
          && t'.categories[id].createdAt == t.categories[id].createdAt
          && (t'.categories[id].updatedAt == t.categories[id].updatedAt || t'.categories[id].updatedAt == Some(now))
          && (t.categories[id].isDeleted ==> t'.categories[id] == t.categories[id]))
    && (forall id :: id in t.products ==>
          && id in t'.products
          && t'.products[id].createdAt == t.products[id].createdAt
          && (t'.products[id].updatedAt == t.products[id].updatedAt || t'.products[id].updatedAt == Some(now))
          && (t.products[id].isDeleted ==> t'.products[id] == t.products[id]))
    && (forall id :: id in t'.categories && id !in t.categories ==>
          t'.categories[id].createdAt == now && t'.categories[id].updatedAt == None && !t'.categories[id].isDeleted)
    && (forall id :: id in t'.products && id !in t.products ==>
          t'.products[id].createdAt == now && t'.products[id].updatedAt == None && !t'.products[id].isDeleted)
  }

  /** The seeded catalog: three categories and three products, all created at `now`. */
  function Seed(now: Time): (t: Tables)
    ensures t.categories.Keys == {1, 2, 3} && t.products.Keys == {1, 2, 3}
    ensures t.nextCategoryId == 4 && t.nextProductId == 4
    ensures forall c | c in t.categories.Values :: c.createdAt == now && c.updatedAt.None? && !c.isDeleted
    ensures forall p | p in t.products.Values :: p.createdAt == now && p.updatedAt.None? && !p.isDeleted
  {
    Tables(
      map[
        1 := Category(1, "Electronics", Some("Electronic devices and gadgets"), now, None, false),
        2 := Category(2, "Books", Some("Books and educational materials"), now, None, false),
        3 := Category(3, "Clothing", Some("Fashion and apparel"), now, None, false)],
      map[
        1 := Product(1, "Laptop", Some("High-performance laptop"), 99999, 50, 1, now, None, false),
        2 := Product(2, "Smartphone", Some("Latest smartphone model"), 69999, 100, 1, now, None, false),
        3 := Product(3, "Programming Book", Some("Learn programming basics"), 2999, 200, 2, now, None, false)],
      4, 4)
  }

  /** Names of different lengths never collide. */
  lemma LengthsDiffer(a: string, b: string)
    requires |a| != |b|
    ensures !SameName(a, b)
  {
    assert |Lower(a)| != |Lower(b)|;
  }

  lemma SeedWellFormed(now: Time)
    ensures WellFormed(Seed(now))
  {
    var t := Seed(now);
    assert t.categories.Keys == {1, 2, 3};
    assert t.products.Keys == {1, 2, 3};
  }

  lemma SeedReferences(now: Time)
    ensures ForeignKeysHold(Seed(now)) && LiveProductsHaveLiveCategory(Seed(now))
  {
    var t := Seed(now);
    assert t.products.Keys == {1, 2, 3};
  }

  lemma SeedRowsValid(now: Time)
    ensures RowsValid(Seed(now))
  {
    var t := Seed(now);
    assert t.categories.Keys == {1, 2, 3};
    assert t.products.Keys == {1, 2, 3};
  }

  lemma SeedCategoryNamesUnique(now: Time)
    ensures CategoryNamesUnique(Seed(now))
  {
    var t := Seed(now);
    assert t.categories.Keys == {1, 2, 3};
    forall i, j | i in t.categories && j in t.categories && i != j
      ensures !SameName(t.categories[i].name, t.categories[j].name)
    {
      LengthsDiffer(t.categories[i].name, t.categories[j].name);
    }
  }

  lemma SeedProductNamesUnique(now: Time)
    ensures ProductNamesUnique(Seed(now))
  {
    var t := Seed(now);
    assert t.products.Keys == {1, 2, 3};
    forall i, j | i in t.products && j in t.products && i != j
      ensures !SameName(t.products[i].name, t.products[j].name)
    {
      LengthsDiffer(t.products[i].name, t.products[j].name);
    }
  }

  /** The seed data already satisfies every invariant. */
  lemma SeedConsistent(now: Time)
    ensures Consistent(Seed(now))
  {
    SeedWellFormed(now);
    SeedReferences(now);
    SeedRowsValid(now);
    SeedCategoryNamesUnique(now);
    SeedProductNamesUnique(now);
  }

  // ---------------------------------------------------------------------
  // Change tracking and SaveChanges
  // ---------------------------------------------------------------------

  datatype EntityState = Unchanged | Added | Modified

  /** One tracked entity and its state. */
  datatype Entry = CategoryEntry(state: EntityState, category: Category)
                 | ProductEntry(state: EntityState, product: Product)
  {
    function Key(): int {
      match this
      case CategoryEntry(_, c) => c.id
      case ProductEntry(_, p) => p.id
    }

    /** A pending write targets an id the identity counter has handed out. */
    predicate Fits(t: Tables) {
      state == Unchanged ||
      (CategoryEntry? && category.id < t.nextCategoryId) ||
      (ProductEntry? && product.id < t.nextProductId)
    }
  }

  /** No pending writes: every tracked entry is Unchanged. */
  ghost predicate Settled(entries: seq<Entry>) {
    forall i :: 0 <= i < |entries| ==> entries[i].state == Unchanged
  }

  /** The stamp UpdateTimestamps puts on one entry: a Modified entity gets
      `updatedAt = now`; Added and Unchanged ones are left alone. */
  function StampEntry(e: Entry, now: Time): Entry {
    if e.state != Modified then e
    else match e
      case CategoryEntry(s, c) => CategoryEntry(s, c.(updatedAt := Some(now)))
      case ProductEntry(s, p) => ProductEntry(s, p.(updatedAt := Some(now)))
  }

  function Stamp(entries: seq<Entry>, now: Time): (r: seq<Entry>)
    ensures |r| == |entries|
    ensures forall i :: 0 <= i < |r| ==>
      r[i].state == entries[i].state && r[i].Key() == entries[i].Key() && r[i].CategoryEntry? == entries[i].CategoryEntry?
  {
    seq(|entries|, i requires 0 <= i < |entries| => StampEntry(entries[i], now))
  }

  /** UpdateTimestamps changes exactly the Modified entries, and in them only
      `updatedAt`, which becomes `now`. */
  lemma StampTouchesOnlyModified(entries: seq<Entry>, now: Time, i: int)
    requires 0 <= i < |entries|
    ensures Stamp(entries, now)[i].state == entries[i].state
    ensures entries[i].state != Modified ==> Stamp(entries, now)[i] == entries[i]
    ensures entries[i].CategoryEntry? && entries[i].state == Modified ==>
              Stamp(entries, now)[i] == CategoryEntry(Modified, entries[i].category.(updatedAt := Some(now)))
    ensures entries[i].ProductEntry? && entries[i].state == Modified ==>
              Stamp(entries, now)[i] == ProductEntry(Modified, entries[i].product.(updatedAt := Some(now)))
  {
  }

  /** The effect of one tracked entry on the store. An insert gets the
      server's default `createdAt`, the time of the insert. */
  function ApplyEntry(t: Tables, e: Entry, now: Time): (r: Tables)
    ensures r.nextCategoryId == t.nextCategoryId && r.nextProductId == t.nextProductId
    ensures e.state == Unchanged ==> r == t
    ensures e.CategoryEntry? && e.state != Unchanged ==>
      && r.products == t.products
      && r.categories.Keys == t.categories.Keys + {e.category.id}
      && r.categories[e.category.id].(createdAt := e.category.createdAt) == e.category
      && r.categories[e.category.id].createdAt == (if e.state == Added then now else e.category.createdAt)
      && (forall k | k in t.categories && k != e.category.id :: r.categories[k] == t.categories[k])
    ensures e.ProductEntry? && e.state != Unchanged ==>
      && r.categories == t.categories
      && r.products.Keys == t.products.Keys + {e.product.id}
      && r.products[e.product.id].(createdAt := e.product.createdAt) == e.product
      && r.products[e.product.id].createdAt == (if e.state == Added then now else e.product.createdAt)
      && (forall k | k in t.products && k != e.product.id :: r.products[k] == t.products[k])
  {
    match e
    case CategoryEntry(Added, c) => t.(categories := t.categories[c.id := c.(createdAt := now)])
    case CategoryEntry(Modified, c) => t.(categories := t.categories[c.id := c])
    case ProductEntry(Added, p) => t.(products := t.products[p.id := p.(createdAt := now)])
    case ProductEntry(Modified, p) => t.(products := t.products[p.id := p])
    case _ => t
  }

  /** Some pending entry writes the category row with key `k`. */
  ghost predicate WritesCategory(entries: seq<Entry>, k: int) {
    exists i :: 0 <= i < |entries| && entries[i].CategoryEntry? && entries[i].state != Unchanged && entries[i].category.id == k
  }

  /** Some pending entry writes the product row with key `k`. */
  ghost predicate WritesProduct(entries: seq<Entry>, k: int) {
    exists i :: 0 <= i < |entries| && entries[i].ProductEntry? && entries[i].state != Unchanged && entries[i].product.id == k
  }

  /** Writing every tracked entry, in order (the framework's own save): the
      keys afterwards are the old ones plus those written, a row no pending
      entry names stays as it was, and the identity counters do not move. */
  function Flush(t: Tables, entries: seq<Entry>, now: Time): (r: Tables)
    ensures r.nextCategoryId == t.nextCategoryId && r.nextProductId == t.nextProductId
    ensures forall k :: k in r.categories <==> k in t.categories || WritesCategory(entries, k)
    ensures forall k :: k in r.products <==> k in t.products || WritesProduct(entries, k)
    ensures forall k | k in t.categories && !WritesCategory(entries, k) :: r.categories[k] == t.categories[k]
    ensures forall k | k in t.products && !WritesProduct(entries, k) :: r.products[k] == t.products[k]
    decreases |entries|
  {
    if entries == [] then t
    else ApplyEntry(Flush(t, entries[..|entries| - 1], now), entries[|entries| - 1], now)
  }

  /** The whole of SaveChanges on the store: stamp, then write. */
  function Save(t: Tables, entries: seq<Entry>, now: Time): (r: Tables)
    ensures r.nextCategoryId == t.nextCategoryId && r.nextProductId == t.nextProductId
    ensures forall k :: k in r.categories <==> k in t.categories || WritesCategory(entries, k)
    ensures forall k :: k in r.products <==> k in t.products || WritesProduct(entries, k)
    ensures forall k | k in t.categories && !WritesCategory(entries, k) :: r.categories[k] == t.categories[k]
    ensures forall k | k in t.products && !WritesProduct(entries, k) :: r.products[k] == t.products[k]
  {
    Flush(t, Stamp(entries, now), now)
  }

  /** The number of rows a save writes: the entries that are not Unchanged. */
  function PendingCount(entries: seq<Entry>): (n: nat)
    ensures n == |set i | 0 <= i < |entries| && entries[i].state != Unchanged|
    ensures n <= |entries|
    ensures n == 0 <==> Settled(entries)
  {
    if entries == [] then 0
    else
      var init, last := entries[..|entries| - 1], |entries| - 1;
      assert (set i | 0 <= i < |entries| && entries[i].state != Unchanged) ==
        (set i | 0 <= i < |init| && init[i].state != Unchanged) + (if entries[last].state == Unchanged then {} else {last});
      PendingCount(init) + (if entries[last].state == Unchanged then 0 else 1)
  }

  /** After a save every entry is tracked as Unchanged. */
  function Accepted(entries: seq<Entry>): (r: seq<Entry>)
    ensures |r| == |entries| && Settled(r)
  {
    seq(|entries|, i requires 0 <= i < |entries| => entries[i].(state := Unchanged))
  }

  /** Unchanged entries write nothing. */
  lemma {:induction false} FlushSettled(t: Tables, entries: seq<Entry>, now: Time)
    requires Settled(entries)
    ensures Flush(t, entries, now) == t
    decreases |entries|
  {
    if entries != [] {
      FlushSettled(t, entries[..|entries| - 1], now);
    }
  }

  /** A save over already-accepted entries and one new entry writes just that
      entry, stamped. */
  lemma SaveAfterSettled(t: Tables, settled: seq<Entry>, e: Entry, now: Time)
    requires Settled(settled)
    ensures Save(t, settled + [e], now) == ApplyEntry(t, StampEntry(e, now), now)
  {
    var all := Stamp(settled + [e], now);
    assert all[..|settled|] == Stamp(settled, now);
    assert all[|settled|] == StampEntry(e, now);
    FlushSettled(t, Stamp(settled, now), now);
  }

  /** A save keeps the primary-key discipline when every pending write targets
      an id already handed out. */
  lemma {:induction false} FlushWellFormed(t: Tables, entries: seq<Entry>, now: Time)
    requires WellFormed(t)
    requires forall i :: 0 <= i < |entries| ==> entries[i].Fits(t)
    ensures WellFormed(Flush(t, entries, now))
    ensures Flush(t, entries, now).nextCategoryId == t.nextCategoryId
    ensures Flush(t, entries, now).nextProductId == t.nextProductId
    decreases |entries|
  {
    if entries != [] {
      FlushWellFormed(t, entries[..|entries| - 1], now);
    }
  }

  /** A save never removes a row. */
  lemma {:induction false} FlushKeepsRows(t: Tables, entries: seq<Entry>, now: Time)
    ensures t.categories.Keys <= Flush(t, entries, now).categories.Keys
    ensures t.products.Keys <= Flush(t, entries, now).products.Keys
    decreases |entries|
  {
    if entries != [] {
      FlushKeepsRows(t, entries[..|entries| - 1], now);
    }
  }

  /** The DbContext: the store, the change tracker, and whether it was disposed. */
  class ApplicationDbContext {
    var tables: Tables
    var tracker: seq<Entry>
    var disposed: bool

    ghost predicate Valid()
      reads this
    {
      WellFormed(tables) && forall i :: 0 <= i < |tracker| ==> tracker[i].Fits(tables)
    }

    constructor (store: Tables)
      requires WellFormed(store)
      ensures Valid() && tables == store && tracker == [] && !disposed
    {
      tables := store;
      tracker := [];
      disposed := false;
    }

    /** UpdateTimestamps: every tracked entry in the Modified state gets
        `updatedAt = now`; nothing else changes. */
    method UpdateTimestamps(now: Time)
      modifies this
      ensures tracker == Stamp(old(tracker), now)
      ensures tables == old(tables) && disposed == old(disposed)
    {
      var i := 0;
      while i < |tracker|
        invariant 0 <= i <= |tracker| == |old(tracker)|
        invariant forall k :: 0 <= k < i ==> tracker[k] == StampEntry(old(tracker)[k], now)
        invariant forall k :: i <= k < |tracker| ==> tracker[k] == old(tracker)[k]
        invariant tables == old(tables) && disposed == old(disposed)
      {
        if tracker[i].state == Modified {
          tracker := tracker[i := StampEntry(tracker[i], now)];
        }
        i := i + 1;
      }
    }

    /** SaveChanges: stamp the modified entries, write every pending entry,
        accept them all, and report how many rows were written. */
    method SaveChanges(now: Time) returns (affected: nat)
      requires Valid()
      modifies this
      ensures Valid()
      ensures tables == Save(old(tables), old(tracker), now)
      ensures tracker == Accepted(Stamp(old(tracker), now)) && Settled(tracker)
      ensures affected == PendingCount(old(tracker))
      ensures tables.nextCategoryId == old(tables.nextCategoryId) && tables.nextProductId == old(tables.nextProductId)
      ensures disposed == old(disposed)
    {
      affected := PendingCount(tracker);
      UpdateTimestamps(now);
      assert forall i :: 0 <= i < |tracker| ==> tracker[i].Fits(tables) by {
        forall i | 0 <= i < |tracker| ensures tracker[i].Fits(tables) {
          assert tracker[i] == StampEntry(old(tracker)[i], now);
          assert old(tracker)[i].Fits(tables);
        }
      }
      FlushWellFormed(tables, tracker, now);
      tables := Flush(tables, tracker, now);
      tracker := Accepted(tracker);
    }

    method Dispose()
      modifies this
      ensures disposed
      ensures tables == old(tables) && tracker == old(tracker)
    {
      disposed := true;
    }
  }
}
