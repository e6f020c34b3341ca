/** The product service: reads through the unit of work, and create, update
    and soft delete with their checks (the category exists, unique name
    ignoring case).

    As for categories, each writing operation is a function over the store
    that follows the service's steps, the method on the unit of work is
    proved to compute it, and the lemmas prove what it keeps true. */
module ProductService {
  import opened Models
  import opened Data
  import Repo = GenericRepository
  import Queries = ProductQueries
  import Work = UnitOfWork

  const NoSuchCategory := "Category does not exist"
  const NameTaken := "Product name already exists"
  const CreateFailed := "Failed to create product"

  /** `CreateProductAsync` on the store `t` at time `now`; the product is
      returned read back with its category. */
  function Create(t: Tables, input: ProductInput, now: Time): (res: (Outcome<Queries.ProductWithCategory>, Tables))
    ensures res.0.ArgumentError? <==> !Repo.CategoryExists(t, input.categoryId) || Queries.NameInUse(t, input.name, None)
    ensures res.0.ArgumentError? ==>
      res.1 == t &&
      res.0.message == (if !Repo.CategoryExists(t, input.categoryId) then NoSuchCategory else NameTaken)
    ensures !res.0.ArgumentError? ==>
      var p := Product(t.nextProductId, input.name, input.description, input.price, input.stock,
                       input.categoryId, now, None, false);
      && res.0 == Ok(Queries.ProductWithCategory(p, t.categories[input.categoryId]))
      && res.1 == t.(products := t.products[p.id := p], nextProductId := p.id + 1)
  {
    if !Repo.CategoryExists(t, input.categoryId) then (ArgumentError(NoSuchCategory), t)
    else if !Queries.IsProductNameUnique(t, input.name, None) then (ArgumentError(NameTaken), t)
    else
      var added := MapProduct(input, EmptyProduct).(id := t.nextProductId);
      var reserved := t.(nextProductId := added.id + 1);
      var entry := ProductEntry(Added, added);
      SaveAfterSettled(reserved, [], entry, now);
      assert [] + [entry] == [entry];
      var saved := Save(reserved, [entry], now);
      match Queries.GetProductWithCategory(saved, added.id)
      case Some(x) => (Ok(x), saved)
      case None => (InvalidOperation(CreateFailed), saved)
  }

  /** `UpdateProductAsync` on the store `t` at time `now`. */
  function Update(t: Tables, id: int, input: ProductInput, now: Time): (res: (Outcome<Queries.ProductWithCategory>, Tables))
    ensures Repo.GetProductById(t, id).None? ==> res.0.NotFound?
    ensures WellFormed(t) ==> (res.0.NotFound? <==> Repo.GetProductById(t, id).None?)
    ensures res.0.ArgumentError? <==>
      Repo.GetProductById(t, id).Some? &&
      (!Repo.CategoryExists(t, input.categoryId) || Queries.NameInUse(t, input.name, Some(id)))
    ensures res.0.ArgumentError? ==>
      res.0.message == (if !Repo.CategoryExists(t, input.categoryId) then NoSuchCategory else NameTaken)
    ensures !res.0.InvalidOperation?
    ensures Repo.GetProductById(t, id).None? || res.0.ArgumentError? ==> res.1 == t
    ensures WellFormed(t) && res.0.Ok? ==>
      var p := t.products[id].(name := input.name, description := input.description, price := input.price,
                               stock := input.stock, categoryId := input.categoryId, updatedAt := Some(now));
      && res.0 == Ok(Queries.ProductWithCategory(p, t.categories[input.categoryId]))
      && res.1 == t.(products := t.products[id := p])
  {
    match Repo.GetProductById(t, id)
    case None => (NotFound, t)
    case Some(existing) =>
      if !Repo.CategoryExists(t, input.categoryId) then (ArgumentError(NoSuchCategory), t)
      else if !Queries.IsProductNameUnique(t, input.name, Some(id)) then (ArgumentError(NameTaken), t)
      else
        var entry := ProductEntry(Modified, MapProduct(input, existing));
        SaveAfterSettled(t, [], entry, now);
        assert [] + [entry] == [entry];
        var saved := Save(t, [entry], now);
        match Queries.GetProductWithCategory(saved, id)
        case Some(x) => (Ok(x), saved)
        case None => (NotFound, saved)
  }

  /** `DeleteProductAsync` on the store `t` at time `now`: a soft delete. */
  function Delete(t: Tables, id: int, now: Time): (res: (Outcome<()>, Tables))
    ensures res.0.NotFound? <==> Repo.GetProductById(t, id).None?
    ensures res.0.Ok? || res.0.NotFound?
    ensures res.0.NotFound? ==> res.1 == t
    ensures WellFormed(t) && res.0.Ok? ==>
      res.1 == t.(products := t.products[id := t.products[id].(updatedAt := Some(now), isDeleted := true)])
  {
    match Repo.GetProductById(t, id)
    case None => (NotFound, t)
    case Some(existing) =>
      var entry := ProductEntry(Modified, existing.(isDeleted := true));
      SaveAfterSettled(t, [], entry, now);
      assert [] + [entry] == [entry];
      (Ok(()), Save(t, [entry], now))
  }

  // ---------------------------------------------------------------------
  // What the writes keep true
  // ---------------------------------------------------------------------

  /** Inserting a valid live product at the next identity value, under a
      live category and with a name no live product has, keeps the store
      invariant and its history. */
  lemma InsertKeepsConsistency(t: Tables, p: Product, now: Time)
    requires Consistent(t) && ValidProductRow(p)
    requires p.id == t.nextProductId && p.createdAt == now && p.updatedAt.None? && !p.isDeleted
    requires Repo.CategoryExists(t, p.categoryId) && !Queries.NameInUse(t, p.name, None)
    ensures var t' := t.(products := t.products[p.id := p], nextProductId := p.id + 1);
      Consistent(t') && HistoryKept(t, t', now)
  {
    var t' := t.(products := t.products[p.id := p], nextProductId := p.id + 1);
    forall i, j | i in t'.products && j in t'.products && i != j && ProductFilter(t'.products[i]) && ProductFilter(t'.products[j])
      ensures !SameName(t'.products[i].name, t'.products[j].name)
    {
      if i == p.id {
        assert t.products[j] in t.products.Values;
      } else if j == p.id {
        assert t.products[i] in t.products.Values;
      }
    }
  }

  /** Rewriting the live product `id` with a valid live row under a live
      category, with a name no other live product has, keeps the store
      invariant and its history. */
  lemma ReplaceKeepsConsistency(t: Tables, id: int, p: Product, now: Time)
    requires Consistent(t) && ValidProductRow(p)
    requires id in t.products && !t.products[id].isDeleted
    requires p == t.products[id].(name := p.name, description := p.description, price := p.price,
                                  stock := p.stock, categoryId := p.categoryId, updatedAt := Some(now))
    requires Repo.CategoryExists(t, p.categoryId) && !Queries.NameInUse(t, p.name, Some(id))
    ensures var t' := t.(products := t.products[id := p]);
      Consistent(t') && HistoryKept(t, t', now)
  {
    var t' := t.(products := t.products[id := p]);
    forall i, j | i in t'.products && j in t'.products && i != j && ProductFilter(t'.products[i]) && ProductFilter(t'.products[j])
      ensures !SameName(t'.products[i].name, t'.products[j].name)
    {
      if i == id {
        assert t.products[j] in t.products.Values;
      } else if j == id {
        assert t.products[i] in t.products.Values;
      }
    }
  }

  /** Marking the live product `id` deleted at `now` keeps the store
      invariant and its history. */
  lemma SoftDeleteKeepsConsistency(t: Tables, id: int, now: Time)
    requires Consistent(t)
    requires id in t.products && !t.products[id].isDeleted
    ensures var t' := t.(products := t.products[id := t.products[id].(updatedAt := Some(now), isDeleted := true)]);
      Consistent(t') && HistoryKept(t, t', now)
  {
  }

  /** A create keeps the store consistent and its history intact. */
  lemma CreateKeepsConsistency(t: Tables, input: ProductInput, now: Time)
    requires Consistent(t) && ValidProductInput(input)
    ensures Consistent(Create(t, input, now).1)
    ensures HistoryKept(t, Create(t, input, now).1, now)
  {
    if !Create(t, input, now).0.ArgumentError? {
      InsertKeepsConsistency(t, Product(t.nextProductId, input.name, input.description, input.price, input.stock,
                                        input.categoryId, now, None, false), now);
    }
  }

  /** An update keeps the store consistent and its history intact. */
  lemma UpdateKeepsConsistency(t: Tables, id: int, input: ProductInput, now: Time)
    requires Consistent(t) && ValidProductInput(input)
    ensures Consistent(Update(t, id, input, now).1)
    ensures HistoryKept(t, Update(t, id, input, now).1, now)
  {
    if Update(t, id, input, now).0.Ok? {
      ReplaceKeepsConsistency(t, id, t.products[id].(name := input.name, description := input.description,
        price := input.price, stock := input.stock, categoryId := input.categoryId, updatedAt := Some(now)), now);
    }
  }

  /** A delete keeps the store consistent and its history intact. */
  lemma DeleteKeepsConsistency(t: Tables, id: int, now: Time)
    requires Consistent(t)
    ensures Consistent(Delete(t, id, now).1)
    ensures HistoryKept(t, Delete(t, id, now).1, now)
  {
    if Delete(t, id, now).0.Ok? {
      SoftDeleteKeepsConsistency(t, id, now);
    }
  }

  // ---------------------------------------------------------------------
  // How the operations fit together
  // ---------------------------------------------------------------------

  /** A created product is found by id afterwards, with its category. */
  lemma CreatedProductIsFound(t: Tables, input: ProductInput, now: Time)
    requires Create(t, input, now).0.Ok?
    ensures var (r, t') := Create(t, input, now);
      && Repo.GetProductById(t', r.value.product.id) == Some(r.value.product)
      && Queries.GetProductWithCategory(t', r.value.product.id) == Some(r.value)
  {
  }

  /** Creating a second product whose name equals the first one's, ignoring
      case, fails and leaves the store alone. */
  lemma SecondCreateRejected(t: Tables, first: ProductInput, second: ProductInput, now: Time, later: Time)
    requires Create(t, first, now).0.Ok?
    requires SameName(first.name, second.name)
    ensures var t' := Create(t, first, now).1;
      Create(t', second, later).0.ArgumentError? && Create(t', second, later).1 == t'
  {
  }

  /** A product may always keep its own name on update. */
  lemma OwnNameAccepted(t: Tables, id: int, input: ProductInput, now: Time)
    requires Consistent(t)
    requires id in t.products && !t.products[id].isDeleted
    requires Repo.CategoryExists(t, input.categoryId)
    requires SameName(input.name, t.products[id].name)
    ensures Update(t, id, input, now).0.Ok?
  {
    Queries.OwnNameStaysUnique(t, id);
    assert Lower(input.name) == Lower(t.products[id].name);
  }

  /** After a delete the product is gone for every read, and its name is free
      for a new product. */
  lemma DeletedProductIsGone(t: Tables, id: int, now: Time)
    requires Consistent(t)
    requires Delete(t, id, now).0.Ok?
    ensures var t' := Delete(t, id, now).1;
      && Repo.GetProductById(t', id) == None
      && Queries.GetProductWithCategory(t', id) == None
      && (forall x :: x in Queries.GetProductsWithCategory(t') ==> x.product.id != id)
      && (forall term :: forall x :: x in Queries.SearchProducts(t', term) ==> x.product.id != id)
      && Queries.IsProductNameUnique(t', t.products[id].name, None)
  {
    var t' := Delete(t, id, now).1;
    var name := t.products[id].name;
    forall x | x in Queries.GetProductsWithCategory(t') ensures x.product.id != id {
      var k := KeyOf(t'.products, x.product);
    }
    forall p | p in t'.products.Values && !p.isDeleted && SameName(p.name, name)
      ensures false
    {
      var k := KeyOf(t'.products, p);
    }
  }

  /** Once the last live product of a category is deleted, the category
      itself can be deleted. */
  lemma LastProductDeletedUnblocksCategory(t: Tables, id: int, now: Time)
    requires WellFormed(t)
    requires Delete(t, id, now).0.Ok?
    requires forall p :: p in t.products.Values && !p.isDeleted && p.id != id ==>
      p.categoryId != t.products[id].categoryId
    ensures var t' := Delete(t, id, now).1;
      forall p :: p in t'.products.Values && !p.isDeleted ==> p.categoryId != t.products[id].categoryId
  {
    var t' := Delete(t, id, now).1;
    forall p | p in t'.products.Values && !p.isDeleted
      ensures p.categoryId != t.products[id].categoryId
    {
      var k := KeyOf(t'.products, p);
      assert t.products[k] in t.products.Values;
    }
  }

  // ---------------------------------------------------------------------
  // The service's operations on the unit of work
  // ---------------------------------------------------------------------

  /** `GetAllProductsAsync`. */
  method GetAllProducts(uow: Work.UnitOfWork) returns (r: set<Queries.ProductWithCategory>)
    requires uow.Valid()
    modifies uow`productRepository
    ensures uow.Valid()
    ensures r == Queries.GetProductsWithCategory(uow.context.tables)
  {
    var products := uow.Products();
    r := Queries.GetProductsWithCategory(products.context.tables);
  }

  /** `GetProductByIdAsync`: the product with its category. */
  method GetProductById(uow: Work.UnitOfWork, id: int) returns (r: Option<Queries.ProductWithCategory>)
    requires uow.Valid()
    modifies uow`productRepository
    ensures uow.Valid()
    ensures r == Queries.GetProductWithCategory(uow.context.tables, id)
  {
    var products := uow.Products();
    r := Queries.GetProductWithCategory(products.context.tables, id);
  }

  /** `GetProductsByCategoryAsync`. */
  method GetProductsByCategory(uow: Work.UnitOfWork, categoryId: int) returns (r: set<Queries.ProductWithCategory>)
    requires uow.Valid()
    modifies uow`productRepository
    ensures uow.Valid()
    ensures r == Queries.GetProductsByCategory(uow.context.tables, categoryId)
  {
    var products := uow.Products();
    r := Queries.GetProductsByCategory(products.context.tables, categoryId);
  }

  /** `SearchProductsAsync`. */
  method SearchProducts(uow: Work.UnitOfWork, term: string) returns (r: set<Queries.ProductWithCategory>)
    requires uow.Valid()
    modifies uow`productRepository
    ensures uow.Valid()
    ensures r == Queries.SearchProducts(uow.context.tables, term)
  {
    var products := uow.Products();
    r := Queries.SearchProducts(products.context.tables, term);
  }

  /** `ProductExistsAsync`. */
  method ProductExists(uow: Work.UnitOfWork, id: int) returns (r: bool)
    requires uow.Valid()
    modifies uow`productRepository
    ensures uow.Valid()
    ensures r == Repo.ProductExists(uow.context.tables, id)
  {
    var products := uow.Products();
    r := Repo.ProductExists(products.context.tables, id);
  }

  /** `IsProductNameUniqueAsync`. */
  method IsProductNameUnique(uow: Work.UnitOfWork, name: string, excludeId: Option<int>) returns (r: bool)
    requires uow.Valid()
    modifies uow`productRepository
    ensures uow.Valid()
    ensures r == Queries.IsProductNameUnique(uow.context.tables, name, excludeId)
  {
    var products := uow.Products();
    r := Queries.IsProductNameUnique(products.context.tables, name, excludeId);
  }

  /** `CreateProductAsync`: check the category and the name, stage the new
      row, save, and read it back with its category. */
  method CreateProduct(uow: Work.UnitOfWork, input: ProductInput, now: Time) returns (r: Outcome<Queries.ProductWithCategory>)
    requires uow.Valid() && Settled(uow.context.tracker)
    modifies uow`productRepository, uow`categoryRepository, uow.context
    ensures uow.Valid() && Settled(uow.context.tracker)
    ensures (r, uow.context.tables) == Create(old(uow.context.tables), input, now)
  {
    var categories := uow.Categories();
    if !Repo.CategoryExists(categories.context.tables, input.categoryId) {
      return ArgumentError(NoSuchCategory);
    }
    var products := uow.Products();
    if !Queries.IsProductNameUnique(products.context.tables, input.name, None) {
      return ArgumentError(NameTaken);
    }
    ghost var before := uow.context.tracker;
    var product := MapProduct(input, EmptyProduct);
    var id := products.Add(product);
    ghost var reserved := uow.context.tables;
    SaveAfterSettled(reserved, before, ProductEntry(Added, product.(id := id)), now);
    var affected := uow.SaveChanges(now);
    assert uow.context.tables == ApplyEntry(reserved, StampEntry(ProductEntry(Added, product.(id := id)), now), now);
    assert uow.context.tables == Create(old(uow.context.tables), input, now).1;
    var created := GetProductById(uow, id);
    if created.None? {
      return InvalidOperation(CreateFailed);
    }
    r := Ok(created.value);
  }

  /** `UpdateProductAsync`: find the live row, check the category and the
      name, copy the new values onto the row, save, and read it back. */
  method UpdateProduct(uow: Work.UnitOfWork, id: int, input: ProductInput, now: Time) returns (r: Outcome<Queries.ProductWithCategory>)
    requires uow.Valid() && Settled(uow.context.tracker)
    modifies uow`productRepository, uow`categoryRepository, uow.context
    ensures uow.Valid() && Settled(uow.context.tracker)
    ensures (r, uow.context.tables) == Update(old(uow.context.tables), id, input, now)
  {
    var products := uow.Products();
    var existing := Repo.GetProductById(products.context.tables, id);
    if existing.None? {
      return NotFound;
    }
    var categories := uow.Categories();
    if !Repo.CategoryExists(categories.context.tables, input.categoryId) {
      return ArgumentError(NoSuchCategory);
    }
    if !Queries.IsProductNameUnique(products.context.tables, input.name, Some(id)) {
      return ArgumentError(NameTaken);
    }
    ghost var before := uow.context.tracker;
    var product := MapProduct(input, existing.value);
    products.Update(product);
    SaveAfterSettled(uow.context.tables, before, ProductEntry(Modified, product), now);
    var affected := uow.SaveChanges(now);
    var updated := GetProductById(uow, id);
    if updated.None? {
      return NotFound;
    }
    r := Ok(updated.value);
  }

  /** `DeleteProductAsync`: find the live row, mark it deleted and save. */
  method DeleteProduct(uow: Work.UnitOfWork, id: int, now: Time) returns (r: Outcome<()>)
    requires uow.Valid() && Settled(uow.context.tracker)
    modifies uow`productRepository, uow.context
    ensures uow.Valid() && Settled(uow.context.tracker)
    ensures (r, uow.context.tables) == Delete(old(uow.context.tables), id, now)
  {
    var products := uow.Products();
    var existing := Repo.GetProductById(products.context.tables, id);
    if existing.None? {
      return NotFound;
    }
    ghost var before := uow.context.tracker;
    var product := existing.value.(isDeleted := true);
    products.Update(product);
    SaveAfterSettled(uow.context.tables, before, ProductEntry(Modified, product), now);
    var affected := uow.SaveChanges(now);
    r := Ok(());
  }
}
