/** The generic repository both specialised repositories inherit. Its code
    is not part of this model; what is modelled is the contract the rest of
    the layer relies on: get-by-id and exists see only rows the soft-delete
    filter lets through, add stages an insert, update marks a tracked row
    Modified. */
module GenericRepository {
  import opened Models
  import opened Data

  /** `GetByIdAsync` on the categories: the live row with that key, if any. */
  function GetCategoryById(t: Tables, id: int): (r: Option<Category>)
    ensures r.Some? <==> id in LiveCategories(t)
    ensures r.Some? ==> r.value == LiveCategories(t)[id] && !r.value.isDeleted
    ensures WellFormed(t) && r.Some? ==> r.value.id == id
  {
    if id in t.categories && CategoryFilter(t.categories[id]) then Some(t.categories[id]) else None
  }

  /** `ExistsAsync` on the categories. */
  function CategoryExists(t: Tables, id: int): (b: bool)
    ensures b <==> id in LiveCategories(t)
  {
    GetCategoryById(t, id).Some?
  }

  /** `GetByIdAsync` on the products. */
  function GetProductById(t: Tables, id: int): (r: Option<Product>)
    ensures r.Some? <==> id in LiveProducts(t)
    ensures r.Some? ==> r.value == LiveProducts(t)[id] && !r.value.isDeleted
    ensures WellFormed(t) && r.Some? ==> r.value.id == id
  {
    if id in t.products && ProductFilter(t.products[id]) then Some(t.products[id]) else None
  }

  /** `ExistsAsync` on the products. */
  function ProductExists(t: Tables, id: int): (b: bool)
    ensures b <==> id in LiveProducts(t)
  {
    GetProductById(t, id).Some?
  }

  /** The category repository object: a handle on the shared context. */
  class CategoryRepository {
    const context: ApplicationDbContext

    constructor (context: ApplicationDbContext)
      ensures this.context == context
    {
      this.context := context;
    }

    /** `AddAsync`: stages an insert. The identity value the row will carry is
        handed out now and returned. */
    method Add(c: Category) returns (id: int)
      requires context.Valid()
      modifies context
      ensures context.Valid()
      ensures id == old(context.tables.nextCategoryId)
      ensures context.tables == old(context.tables).(nextCategoryId := id + 1)
      ensures context.tracker == old(context.tracker) + [CategoryEntry(Added, c.(id := id))]
      ensures context.disposed == old(context.disposed)
    {
      id := context.tables.nextCategoryId;
      context.tables := context.tables.(nextCategoryId := id + 1);
      context.tracker := context.tracker + [CategoryEntry(Added, c.(id := id))];
    }

    /** `UpdateAsync`: marks a row that was read from the store as Modified. */
    method Update(c: Category)
      requires context.Valid() && c.id in context.tables.categories
      modifies context
      ensures context.Valid()
      ensures context.tables == old(context.tables)
      ensures context.tracker == old(context.tracker) + [CategoryEntry(Modified, c)]
      ensures context.disposed == old(context.disposed)
    {
      context.tracker := context.tracker + [CategoryEntry(Modified, c)];
    }
  }

  /** The product repository object: a handle on the shared context. */
  class ProductRepository {
    const context: ApplicationDbContext

    constructor (context: ApplicationDbContext)
      ensures this.context == context
    {
      this.context := context;
    }

    /** `AddAsync`: stages an insert and hands out its identity value. */
    method Add(p: Product) returns (id: int)
      requires context.Valid()
      modifies context
      ensures context.Valid()
      ensures id == old(context.tables.nextProductId)
      ensures context.tables == old(context.tables).(nextProductId := id + 1)
      ensures context.tracker == old(context.tracker) + [ProductEntry(Added, p.(id := id))]
      ensures context.disposed == old(context.disposed)
    {
      id := context.tables.nextProductId;
      context.tables := context.tables.(nextProductId := id + 1);
      context.tracker := context.tracker + [ProductEntry(Added, p.(id := id))];
    }

    /** `UpdateAsync`: marks a row that was read from the store as Modified. */
    method Update(p: Product)
      requires context.Valid() && p.id in context.tables.products
      modifies context
      ensures context.Valid()
      ensures context.tables == old(context.tables)
      ensures context.tracker == old(context.tracker) + [ProductEntry(Modified, p)]
      ensures context.disposed == old(context.disposed)
    {
      context.tracker := context.tracker + [ProductEntry(Modified, p)];
    }
  }
}
