/** The product repository's own queries: products of one category, all
    products with their category, one product with its category, the text
    search and the case-insensitive name uniqueness check.

    Including the category of a product is an inner join: the category is a
    required reference, so a product row appears only together with a
    category row that passes the categories' own soft-delete filter. A live
    product whose category was soft-deleted is therefore invisible to every
    query here that includes the category (see JoinDropsOrphans); under the
    store invariant that live products reference live categories nothing is
    dropped (JoinKeepsEveryLiveProduct). */
module ProductQueries {
  import opened Models
  import opened Data
  import opened GenericRepository
  import CategoryQueries

  /** A product together with its loaded `Category` reference. */
  datatype ProductWithCategory = ProductWithCategory(product: Product, category: Category)

  /** The products of a set of loaded rows. */
  function ProductsIn(rows: set<ProductWithCategory>): set<Product> {
    set x | x in rows :: x.product
  }

  /** `Include(p => p.Category)` over the product set: every live product
      paired with the live category its foreign key names. */
  function WithCategory(t: Tables): (r: set<ProductWithCategory>)
    ensures forall x :: x in r <==>
      && x.product in t.products.Values && !x.product.isDeleted
      && x.category in t.categories.Values && !x.category.isDeleted
      && x.category.id == x.product.categoryId
  {
    set p, c | p in ProductSet(t) && c in CategorySet(t) && c.id == p.categoryId :: ProductWithCategory(p, c)
  }

  /** `GetProductsByCategoryAsync`: the live products of one category, each
      with that category loaded. */
  function GetProductsByCategory(t: Tables, categoryId: int): (r: set<ProductWithCategory>)
    ensures forall x :: x in r <==> x in WithCategory(t) && x.product.categoryId == categoryId
    ensures (forall c :: c in t.categories.Values && !c.isDeleted ==> c.id != categoryId) ==> r == {}
  {
    set x | x in WithCategory(t) && x.product.categoryId == categoryId
  }

  /** `GetProductsWithCategoryAsync`. */
  function GetProductsWithCategory(t: Tables): (r: set<ProductWithCategory>)
    ensures ProductsIn(r) <= ProductSet(t)
  {
    WithCategory(t)
  }

  /** `GetProductWithCategoryAsync`: the live product with that key, provided
      its category is live too. */
  function GetProductWithCategory(t: Tables, id: int): (r: Option<ProductWithCategory>)
    ensures r.Some? <==>
      id in t.products && !t.products[id].isDeleted && CategoryExists(t, t.products[id].categoryId)
    ensures r.Some? ==>
      r.value.product == t.products[id] && r.value.category == t.categories[t.products[id].categoryId]
    ensures WellFormed(t) && r.Some? ==> r.value in GetProductsWithCategory(t)
  {
    match GetProductById(t, id)
    case None => None
    case Some(p) =>
      match GetCategoryById(t, p.categoryId)
      case None => None
      case Some(c) => Some(ProductWithCategory(p, c))
  }

  /** `term` occurs somewhere in `s`. */
  ghost predicate Occurs(s: string, term: string) {
    exists i :: OccursAt(s, term, i)
  }

  /** The search condition: the name contains the term, or the description
      is present and contains it. */
  predicate Matches(p: Product, term: string) {
    Contains(p.name, term) || (p.description.Some? && Contains(p.description.value, term))
  }

  /** The search condition, written with the recursive `Contains`, means
      "occurs at some position" for every product and term. */
  lemma SearchConditionOccurs()
    ensures forall p, term :: Matches(p, term) <==>
      Occurs(p.name, term) || (p.description.Some? && Occurs(p.description.value, term))
  {
    forall p: Product, term: string
      ensures Matches(p, term) <==>
        Occurs(p.name, term) || (p.description.Some? && Occurs(p.description.value, term))
    {
      ContainsIffOccurs(p.name, term);
      if p.description.Some? {
        ContainsIffOccurs(p.description.value, term);
      }
    }
  }

  /** `SearchProductsAsync`: the live products, with their category, whose
      name or present description has the term at some position. */
  function SearchProducts(t: Tables, term: string): (r: set<ProductWithCategory>)
    ensures forall x :: x in r ==> x in GetProductsWithCategory(t)
    ensures forall x :: x in r ==>
      Occurs(x.product.name, term) || (x.product.description.Some? && Occurs(x.product.description.value, term))
    ensures forall x | x in GetProductsWithCategory(t) &&
      (Occurs(x.product.name, term) || (x.product.description.Some? && Occurs(x.product.description.value, term)))
      :: x in r
  {
    SearchConditionOccurs();
    set x | x in WithCategory(t) && Matches(x.product, term)
  }

  /** A product without a description is found only through its name. */
  lemma NullDescriptionSearchesNameOnly(t: Tables, term: string, x: ProductWithCategory)
    requires x in GetProductsWithCategory(t) && x.product.description.None?
    ensures x in SearchProducts(t, term) <==> Occurs(x.product.name, term)
  {
  }

  /** The empty term matches every product the include lets through. */
  lemma EmptyTermFindsEverything(t: Tables)
    ensures SearchProducts(t, "") == GetProductsWithCategory(t)
  {
    forall x | x in GetProductsWithCategory(t) ensures x in SearchProducts(t, "") {
      EmptyTermOccursEverywhere(x.product.name);
    }
  }

  /** `Where(p => p.Name.ToLower() == name.ToLower())` over the product set
      (this query does not include the category). */
  function NameMatches(t: Tables, name: string): set<Product> {
    set p | p in ProductSet(t) && Lower(p.name) == Lower(name)
  }

  /** `Where(p => p.Id != excludeId)`, composed only when an id is given. */
  function Excluding(query: set<Product>, excludeId: Option<int>): set<Product> {
    if excludeId.Some? then set p | p in query && p.id != excludeId.value else query
  }

  /** Some live product other than `excludeId` has this name, ignoring case. */
  ghost predicate NameInUse(t: Tables, name: string, excludeId: Option<int>) {
    exists p :: p in t.products.Values && !p.isDeleted && SameName(p.name, name) && excludeId != Some(p.id)
  }

  /** `IsProductNameUniqueAsync`: no live product other than the excluded one
      has the same name ignoring case. */
  function IsProductNameUnique(t: Tables, name: string, excludeId: Option<int>): (unique: bool)
    ensures unique <==> !NameInUse(t, name, excludeId)
  {
    NoneLeftMeansUnique(t, name, excludeId);
    !exists p :: p in Excluding(NameMatches(t, name), excludeId)
  }

  lemma NoneLeftMeansUnique(t: Tables, name: string, excludeId: Option<int>)
    ensures (!exists p :: p in Excluding(NameMatches(t, name), excludeId)) <==> !NameInUse(t, name, excludeId)
  {
    forall p | p in t.products.Values && !p.isDeleted && SameName(p.name, name) && excludeId != Some(p.id)
      ensures p in Excluding(NameMatches(t, name), excludeId)
    {
      assert p in ProductSet(t);
      assert p in NameMatches(t, name);
    }
  }

  /** With the names of live products unique, a live product's own name is
      unique once its own id is excluded. */
  lemma OwnNameStaysUnique(t: Tables, id: int)
    requires WellFormed(t) && ProductNamesUnique(t)
    requires id in t.products && ProductFilter(t.products[id])
    ensures IsProductNameUnique(t, t.products[id].name, Some(id))
  {
    forall p | p in t.products.Values && !p.isDeleted && SameName(p.name, t.products[id].name)
      ensures Some(id) == Some(p.id)
    {
      var k := KeyOf(t.products, p);
    }
  }

  /** While every live product references a live category, the include drops
      no product: the loaded products are exactly the live ones, each with the
      category its foreign key names. */
  lemma JoinKeepsEveryLiveProduct(t: Tables)
    requires WellFormed(t) && LiveProductsHaveLiveCategory(t)
    ensures forall p :: p in ProductSet(t) ==>
      p.categoryId in t.categories && ProductWithCategory(p, t.categories[p.categoryId]) in GetProductsWithCategory(t)
    ensures ProductsIn(GetProductsWithCategory(t)) == ProductSet(t)
  {
    forall p | p in ProductSet(t)
      ensures p.categoryId in t.categories && ProductWithCategory(p, t.categories[p.categoryId]) in GetProductsWithCategory(t)
    {
      var k := KeyOf(t.products, p);
    }
    forall p | p in ProductSet(t) ensures p in ProductsIn(GetProductsWithCategory(t)) {
      assert ProductWithCategory(p, t.categories[p.categoryId]) in GetProductsWithCategory(t);
    }
  }

  /** Without that invariant the include is an inner join: a live product
      whose category row is soft-deleted is loaded by none of the queries
      that include the category. */
  lemma JoinDropsOrphans(t: Tables, id: int)
    requires WellFormed(t)
    requires id in t.products && !t.products[id].isDeleted
    requires t.products[id].categoryId in t.categories && t.categories[t.products[id].categoryId].isDeleted
    ensures t.products[id] !in ProductsIn(GetProductsWithCategory(t))
    ensures t.products[id] !in ProductsIn(GetProductsByCategory(t, t.products[id].categoryId))
    ensures GetProductWithCategory(t, id) == None
    ensures forall term :: t.products[id] !in ProductsIn(SearchProducts(t, term))
  {
    var p := t.products[id];
    forall x | x in GetProductsWithCategory(t) ensures x.product != p {
      var k := KeyOf(t.categories, x.category);
    }
  }

  /** The products-by-category query and the category's own loaded products
      agree while live products reference live categories. */
  lemma ByCategoryIsCategoryProducts(t: Tables, categoryId: int)
    requires WellFormed(t) && LiveProductsHaveLiveCategory(t)
    ensures ProductsIn(GetProductsByCategory(t, categoryId)) == CategoryQueries.ProductsOf(t, categoryId)
  {
    JoinKeepsEveryLiveProduct(t);
    forall p | p in CategoryQueries.ProductsOf(t, categoryId)
      ensures p in ProductsIn(GetProductsByCategory(t, categoryId))
    {
      assert ProductWithCategory(p, t.categories[p.categoryId]) in GetProductsByCategory(t, categoryId);
    }
  }

  /** Product reads see only live rows: two stores with the same live
      categories and the same live products answer every product read alike. */
  lemma ProductReadsIgnoreDeletedRows(t1: Tables, t2: Tables)
    requires LiveCategories(t1) == LiveCategories(t2) && LiveProducts(t1) == LiveProducts(t2)
    ensures GetProductsWithCategory(t1) == GetProductsWithCategory(t2)
    ensures forall id :: GetProductsByCategory(t1, id) == GetProductsByCategory(t2, id)
    ensures forall id :: GetProductWithCategory(t1, id) == GetProductWithCategory(t2, id)
    ensures forall term :: SearchProducts(t1, term) == SearchProducts(t2, term)
    ensures forall id :: GetProductById(t1, id) == GetProductById(t2, id)
    ensures forall name, excludeId :: IsProductNameUnique(t1, name, excludeId) == IsProductNameUnique(t2, name, excludeId)
  {
  }
}
