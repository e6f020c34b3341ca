/** The category repository's own queries: categories with their products
    loaded, one category with its products, and the case-insensitive name
    uniqueness check. Every query starts from the filtered category set, and
    the products it loads go through the products' own filter. */
module CategoryQueries {
  import opened Models
  import opened Data
  import opened GenericRepository

  /** A category together with its loaded `Products` collection. */
  datatype CategoryWithProducts = CategoryWithProducts(category: Category, products: set<Product>)

  /** The `Products` collection that including it loads for a category: the
      product rows that pass their own filter and whose foreign key is that
      category's id. */
  function ProductsOf(t: Tables, categoryId: int): set<Product> {
    set p | p in ProductSet(t) && p.categoryId == categoryId
  }

  function Load(t: Tables, c: Category): CategoryWithProducts {
    CategoryWithProducts(c, ProductsOf(t, c.id))
  }

  /** `GetCategoriesWithProductsAsync`: every live category, each with its live products. */
  function GetCategoriesWithProducts(t: Tables): (r: set<CategoryWithProducts>)
    ensures forall c :: c in t.categories.Values && !c.isDeleted ==> Load(t, c) in r
    ensures forall x :: x in r ==>
      x.category in t.categories.Values && !x.category.isDeleted && x.products == ProductsOf(t, x.category.id)
  {
    set c | c in CategorySet(t) :: Load(t, c)
  }

  /** `GetCategoryWithProductsAsync`: the live category with that id and its
      live products, or nothing. */
  function GetCategoryWithProducts(t: Tables, id: int): (r: Option<CategoryWithProducts>)
    ensures r.Some? <==> id in t.categories && !t.categories[id].isDeleted
    ensures r.Some? ==> r.value.category == t.categories[id] && r.value in GetCategoriesWithProducts(t)
    ensures r.Some? ==> forall p :: p in r.value.products <==>
      p in t.products.Values && !p.isDeleted && p.categoryId == t.categories[id].id
  {
    match GetCategoryById(t, id)
    case None => None
    case Some(c) => Some(Load(t, c))
  }

  /** `Where(c => c.Name.ToLower() == name.ToLower())` over the category set. */
  function NameMatches(t: Tables, name: string): set<Category> {
    set c | c in CategorySet(t) && Lower(c.name) == Lower(name)
  }

  /** `Where(c => c.Id != excludeId)`, composed only when an id is given. */
  function Excluding(query: set<Category>, excludeId: Option<int>): set<Category> {
    if excludeId.Some? then set c | c in query && c.id != excludeId.value else query
  }

  /** Some live category other than `excludeId` has this name, ignoring case. */
  ghost predicate NameInUse(t: Tables, name: string, excludeId: Option<int>) {
    exists c :: c in t.categories.Values && !c.isDeleted && SameName(c.name, name) && excludeId != Some(c.id)
  }

  /** `IsCategoryNameUniqueAsync`: no live category other than the excluded
      one has the same name ignoring case. */
  function IsCategoryNameUnique(t: Tables, name: string, excludeId: Option<int>): (unique: bool)
    ensures unique <==> !NameInUse(t, name, excludeId)
  {
    NoneLeftMeansUnique(t, name, excludeId);
    !exists c :: c in Excluding(NameMatches(t, name), excludeId)
  }

  lemma NoneLeftMeansUnique(t: Tables, name: string, excludeId: Option<int>)
    ensures (!exists c :: c in Excluding(NameMatches(t, name), excludeId)) <==> !NameInUse(t, name, excludeId)
  {
    forall c | c in t.categories.Values && !c.isDeleted && SameName(c.name, name) && excludeId != Some(c.id)
      ensures c in Excluding(NameMatches(t, name), excludeId)
    {
      assert c in CategorySet(t);
      assert c in NameMatches(t, name);
    }
  }

  /** Any live category whose name matches ignoring case makes the name taken,
      unless it is the excluded one. */
  lemma NameTakenIgnoringCase(t: Tables, id: int, name: string)
    requires id in t.categories && CategoryFilter(t.categories[id])
    requires SameName(t.categories[id].name, name)
    ensures !IsCategoryNameUnique(t, name, None)
    ensures forall other :: other != t.categories[id].id ==> !IsCategoryNameUnique(t, name, Some(other))
  {
  }

  /** With the names of live categories unique, a live category's own name is
      unique once its own id is excluded, so it may keep it on update. */
  lemma OwnNameStaysUnique(t: Tables, id: int)
    requires WellFormed(t) && CategoryNamesUnique(t)
    requires id in t.categories && CategoryFilter(t.categories[id])
    ensures IsCategoryNameUnique(t, t.categories[id].name, Some(id))
  {
    forall c | c in t.categories.Values && !c.isDeleted && SameName(c.name, t.categories[id].name)
      ensures Some(id) == Some(c.id)
    {
      var k := KeyOf(t.categories, c);
    }
  }

  /** A newly created category has no products to load while every product
      row references an existing category and the identity is fresh. */
  lemma FreshCategoryHasNoProducts(t: Tables, id: int)
    requires WellFormed(t) && ForeignKeysHold(t) && id >= t.nextCategoryId
    ensures ProductsOf(t, id) == {}
  {
    forall p | p in t.products.Values ensures p.categoryId != id {
      var pid := KeyOf(t.products, p);
    }
  }

  /** Category reads see only live rows: two stores with the same live
      categories and the same live products answer every category read alike. */
  lemma CategoryReadsIgnoreDeletedRows(t1: Tables, t2: Tables)
    requires LiveCategories(t1) == LiveCategories(t2) && LiveProducts(t1) == LiveProducts(t2)
    ensures forall id :: ProductsOf(t1, id) == ProductsOf(t2, id)
    ensures GetCategoriesWithProducts(t1) == GetCategoriesWithProducts(t2)
    ensures forall id :: GetCategoryWithProducts(t1, id) == GetCategoryWithProducts(t2, id)
    ensures forall id :: GetCategoryById(t1, id) == GetCategoryById(t2, id)
    ensures forall name, excludeId :: IsCategoryNameUnique(t1, name, excludeId) == IsCategoryNameUnique(t2, name, excludeId)
  {
  }
}
