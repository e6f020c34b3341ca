/** The category service: reads through the unit of work, and create,
    update and soft delete with their checks (unique name ignoring case, no
    live products left on delete).

    Each writing operation is specified by a function over the store that
    follows the service's own steps (check, map, stage, save, read back) and
    returns the outcome with the store after it; the method on the unit of
    work is proved to compute exactly that function, and the lemmas below
    prove what the function keeps true of the store. */
module CategoryService {
  import opened Models
  import opened Data
  import Repo = GenericRepository
  import Queries = CategoryQueries
  import Work = UnitOfWork

  const NameTaken := "Category name already exists"
  const HasProducts := "Cannot delete category that contains products"
  const CreateFailed := "Failed to create category"

  /** `CreateCategoryAsync` on the store `t` at time `now`. */
  function Create(t: Tables, input: CategoryInput, now: Time): (res: (Outcome<Category>, Tables))
    ensures res.0.ArgumentError? <==> Queries.NameInUse(t, input.name, None)
    ensures res.0.ArgumentError? ==> res.0.message == NameTaken && res.1 == t
    ensures !res.0.ArgumentError? ==>
      var c := Category(t.nextCategoryId, input.name, input.description, now, None, false);
      && res.0 == Ok(c)
      && res.1 == t.(categories := t.categories[c.id := c], nextCategoryId := c.id + 1)
  {
    if !Queries.IsCategoryNameUnique(t, input.name, None) then (ArgumentError(NameTaken), t)
    else
      var added := MapCategory(input, EmptyCategory).(id := t.nextCategoryId);
      var reserved := t.(nextCategoryId := added.id + 1);
      var entry := CategoryEntry(Added, added);
      SaveAfterSettled(reserved, [], entry, now);
      assert [] + [entry] == [entry];
      var saved := Save(reserved, [entry], now);
      match Repo.GetCategoryById(saved, added.id)
      case Some(c) => (Ok(c), saved)
      case None => (InvalidOperation(CreateFailed), saved)
  }

  /** `UpdateCategoryAsync` on the store `t` at time `now`. */
  function Update(t: Tables, id: int, input: CategoryInput, now: Time): (res: (Outcome<Category>, Tables))
    ensures res.0.NotFound? <==> Repo.GetCategoryById(t, id).None?
    ensures res.0.ArgumentError? <==> Repo.GetCategoryById(t, id).Some? && Queries.NameInUse(t, input.name, Some(id))
    ensures res.0.ArgumentError? ==> res.0.message == NameTaken
    ensures !res.0.InvalidOperation?
    ensures !res.0.Ok? ==> res.1 == t
    ensures WellFormed(t) && res.0.Ok? ==>
      var c := t.categories[id].(name := input.name, description := input.description, updatedAt := Some(now));
      res.0 == Ok(c) && res.1 == t.(categories := t.categories[id := c])
  {
    match Repo.GetCategoryById(t, id)
    case None => (NotFound, t)
    case Some(existing) =>
      if !Queries.IsCategoryNameUnique(t, input.name, Some(id)) then (ArgumentError(NameTaken), t)
      else
        var entry := CategoryEntry(Modified, MapCategory(input, existing));
        SaveAfterSettled(t, [], entry, now);
        assert [] + [entry] == [entry];
        var saved := Save(t, [entry], now);
        match Repo.GetCategoryById(saved, id)
        case Some(c) => (Ok(c), saved)
        case None => (NotFound, saved)
  }

  /** `DeleteCategoryAsync` on the store `t` at time `now`: a soft delete,
      refused while the category still has a live product. */
  function Delete(t: Tables, id: int, now: Time): (res: (Outcome<()>, Tables))
    ensures res.0.NotFound? <==> Repo.GetCategoryById(t, id).None?
    ensures res.0.InvalidOperation? <==>
      Repo.GetCategoryById(t, id).Some? &&
      exists p :: p in t.products.Values && !p.isDeleted && p.categoryId == t.categories[id].id
    ensures res.0.InvalidOperation? ==> res.0.message == HasProducts
    ensures !res.0.ArgumentError?
    ensures !res.0.Ok? ==> res.1 == t
    ensures WellFormed(t) && res.0.Ok? ==>
      res.1 == t.(categories := t.categories[id := t.categories[id].(updatedAt := Some(now), isDeleted := true)])
  {
    match Queries.GetCategoryWithProducts(t, id)
    case None => (NotFound, t)
    case Some(loaded) =>
      if exists p :: p in loaded.products && !p.isDeleted then (InvalidOperation(HasProducts), t)
      else
        var entry := CategoryEntry(Modified, loaded.category.(isDeleted := true));
        SaveAfterSettled(t, [], entry, now);
        assert [] + [entry] == [entry];
        (Ok(()), Save(t, [entry], now))
  }

  // ---------------------------------------------------------------------
  // What the writes keep true
  // ---------------------------------------------------------------------

  /** A create keeps the store consistent and its history intact. */
  lemma CreateKeepsConsistency(t: Tables, input: CategoryInput, now: Time)
    requires Consistent(t) && ValidCategoryInput(input)
    ensures Consistent(Create(t, input, now).1)
    ensures HistoryKept(t, Create(t, input, now).1, now)
  {
  }

  /** Renaming the live category `id` to a valid name no other live
      category has keeps the store invariant and its history. */
  lemma RenameKeepsConsistency(t: Tables, id: int, c: Category, now: Time)
    requires Consistent(t) && ValidCategoryRow(c)
    requires id in t.categories && !t.categories[id].isDeleted
    requires c == t.categories[id].(name := c.name, description := c.description, updatedAt := Some(now))
    requires !Queries.NameInUse(t, c.name, Some(id))
    ensures var t' := t.(categories := t.categories[id := c]);
      Consistent(t') && HistoryKept(t, t', now)
  {
    var t' := t.(categories := t.categories[id := c]);
    forall i, j | i in t'.categories && j in t'.categories && i != j && CategoryFilter(t'.categories[i]) && CategoryFilter(t'.categories[j])
      ensures !SameName(t'.categories[i].name, t'.categories[j].name)
    {
      if i == id {
        assert t.categories[j] in t.categories.Values;
      } else if j == id {
        assert t.categories[i] in t.categories.Values;
      }
    }
  }

  /** An update keeps the store consistent and its history intact. */
  lemma UpdateKeepsConsistency(t: Tables, id: int, input: CategoryInput, now: Time)
    requires Consistent(t) && ValidCategoryInput(input)
    ensures Consistent(Update(t, id, input, now).1)
    ensures HistoryKept(t, Update(t, id, input, now).1, now)
  {
    if Update(t, id, input, now).0.Ok? {
      RenameKeepsConsistency(t, id, t.categories[id].(name := input.name, description := input.description,
        updatedAt := Some(now)), now);
    }
  }

  /** A delete keeps the store consistent and its history intact: it goes
      ahead only when no live product would be left pointing at a deleted
      category. */
  lemma DeleteKeepsConsistency(t: Tables, id: int, now: Time)
    requires Consistent(t)
    ensures Consistent(Delete(t, id, now).1)
    ensures HistoryKept(t, Delete(t, id, now).1, now)
  {
  }

  // ---------------------------------------------------------------------
  // How the operations fit together
  // ---------------------------------------------------------------------

  /** A created category is found by id afterwards, with no products. */
  lemma CreatedCategoryIsFound(t: Tables, input: CategoryInput, now: Time)
    requires WellFormed(t) && ForeignKeysHold(t)
    requires Create(t, input, now).0.Ok?
    ensures var (r, t') := Create(t, input, now);
      && Repo.GetCategoryById(t', r.value.id) == Some(r.value)
      && Queries.GetCategoryWithProducts(t', r.value.id) == Some(Queries.CategoryWithProducts(r.value, {}))
  {
    var (r, t') := Create(t, input, now);
    Queries.FreshCategoryHasNoProducts(t, r.value.id);
    assert Queries.ProductsOf(t', r.value.id) == Queries.ProductsOf(t, r.value.id);
  }

  /** Creating a second category whose name equals the first one's, ignoring
      case, fails and leaves the store alone. */
  lemma SecondCreateRejected(t: Tables, first: CategoryInput, second: CategoryInput, now: Time, later: Time)
    requires Create(t, first, now).0.Ok?
    requires SameName(first.name, second.name)
    ensures var t' := Create(t, first, now).1;
      Create(t', second, later) == (ArgumentError(NameTaken), t')
  {
  }

  /** A category may always keep its own name on update. */
  lemma OwnNameAccepted(t: Tables, id: int, input: CategoryInput, now: Time)
    requires Consistent(t)
    requires id in t.categories && !t.categories[id].isDeleted
    requires SameName(input.name, t.categories[id].name)
    ensures Update(t, id, input, now).0.Ok?
  {
    Queries.OwnNameStaysUnique(t, id);
    assert Lower(input.name) == Lower(t.categories[id].name);
  }

  /** After a delete the category is gone for every read, and its name is
      free for a new category. */
  lemma DeletedCategoryIsGone(t: Tables, id: int, now: Time)
    requires Consistent(t)
    requires Delete(t, id, now).0.Ok?
    ensures var t' := Delete(t, id, now).1;
      && Repo.GetCategoryById(t', id) == None
      && Queries.GetCategoryWithProducts(t', id) == None
      && Queries.IsCategoryNameUnique(t', t.categories[id].name, None)
  {
    var t' := Delete(t, id, now).1;
    var name := t.categories[id].name;
    forall c | c in t'.categories.Values && !c.isDeleted && SameName(c.name, name)
      ensures false
    {
      var k := KeyOf(t'.categories, c);
    }
  }

  // ---------------------------------------------------------------------
  // The service's operations on the unit of work
  // ---------------------------------------------------------------------

  /** `GetAllCategoriesAsync`. */
  method GetAllCategories(uow: Work.UnitOfWork) returns (r: set<Queries.CategoryWithProducts>)
    requires uow.Valid()
    modifies uow`categoryRepository
    ensures uow.Valid()
    ensures r == Queries.GetCategoriesWithProducts(uow.context.tables)
  {
    var categories := uow.Categories();
    r := Queries.GetCategoriesWithProducts(categories.context.tables);
  }

  /** `GetCategoryByIdAsync`. */
  method GetCategoryById(uow: Work.UnitOfWork, id: int) returns (r: Option<Category>)
    requires uow.Valid()
    modifies uow`categoryRepository
    ensures uow.Valid()
    ensures r == Repo.GetCategoryById(uow.context.tables, id)
  {
    var categories := uow.Categories();
    r := Repo.GetCategoryById(categories.context.tables, id);
  }

  /** `GetCategoryWithProductsAsync`. */
  method GetCategoryWithProducts(uow: Work.UnitOfWork, id: int) returns (r: Option<Queries.CategoryWithProducts>)
    requires uow.Valid()
    modifies uow`categoryRepository
    ensures uow.Valid()
    ensures r == Queries.GetCategoryWithProducts(uow.context.tables, id)
  {
    var categories := uow.Categories();
    r := Queries.GetCategoryWithProducts(categories.context.tables, id);
  }

  /** `CategoryExistsAsync`. */
  method CategoryExists(uow: Work.UnitOfWork, id: int) returns (r: bool)
    requires uow.Valid()
    modifies uow`categoryRepository
    ensures uow.Valid()
    ensures r == Repo.CategoryExists(uow.context.tables, id)
  {
    var categories := uow.Categories();
    r := Repo.CategoryExists(categories.context.tables, id);
  }

  /** `IsCategoryNameUniqueAsync`. */
  method IsCategoryNameUnique(uow: Work.UnitOfWork, name: string, excludeId: Option<int>) returns (r: bool)
    requires uow.Valid()
    modifies uow`categoryRepository
    ensures uow.Valid()
    ensures r == Queries.IsCategoryNameUnique(uow.context.tables, name, excludeId)
  {
    var categories := uow.Categories();
    r := Queries.IsCategoryNameUnique(categories.context.tables, name, excludeId);
  }

  /** `CreateCategoryAsync`: check the name, stage the new row, save, and
      read the row back by its id. */
  method CreateCategory(uow: Work.UnitOfWork, input: CategoryInput, now: Time) returns (r: Outcome<Category>)
    requires uow.Valid() && Settled(uow.context.tracker)
    modifies uow`categoryRepository, uow.context
    ensures uow.Valid() && Settled(uow.context.tracker)
    ensures (r, uow.context.tables) == Create(old(uow.context.tables), input, now)
  {
    var categories := uow.Categories();
    if !Queries.IsCategoryNameUnique(categories.context.tables, input.name, None) {
      return ArgumentError(NameTaken);
    }
    ghost var before := uow.context.tracker;
    var category := MapCategory(input, EmptyCategory);
    var id := categories.Add(category);
    ghost var reserved := uow.context.tables;
    SaveAfterSettled(reserved, before, CategoryEntry(Added, category.(id := id)), now);
    var affected := uow.SaveChanges(now);
    assert uow.context.tables == ApplyEntry(reserved, StampEntry(CategoryEntry(Added, category.(id := id)), now), now);
    assert uow.context.tables == Create(old(uow.context.tables), input, now).1;
    var created := GetCategoryById(uow, id);
    if created.None? {
      return InvalidOperation(CreateFailed);
    }
    r := Ok(created.value);
  }

  /** `UpdateCategoryAsync`: find the live row, check the name against every
      other live category, copy the new values onto the row, save, and read
      it back. */
  method UpdateCategory(uow: Work.UnitOfWork, id: int, input: CategoryInput, now: Time) returns (r: Outcome<Category>)
    requires uow.Valid() && Settled(uow.context.tracker)
    modifies uow`categoryRepository, uow.context
    ensures uow.Valid() && Settled(uow.context.tracker)
    ensures (r, uow.context.tables) == Update(old(uow.context.tables), id, input, now)
  {
    var categories := uow.Categories();
    var existing := Repo.GetCategoryById(categories.context.tables, id);
    if existing.None? {
      return NotFound;
    }
    if !Queries.IsCategoryNameUnique(categories.context.tables, input.name, Some(id)) {
      return ArgumentError(NameTaken);
    }
    ghost var before := uow.context.tracker;
    var category := MapCategory(input, existing.value);
    categories.Update(category);
    SaveAfterSettled(uow.context.tables, before, CategoryEntry(Modified, category), now);
    var affected := uow.SaveChanges(now);
    var updated := GetCategoryById(uow, id);
    if updated.None? {
      return NotFound;
    }
    r := Ok(updated.value);
  }

  /** `DeleteCategoryAsync`: load the category with its live products, refuse
      while any is left, otherwise mark the row deleted and save. */
  method DeleteCategory(uow: Work.UnitOfWork, id: int, now: Time) returns (r: Outcome<()>)
    requires uow.Valid() && Settled(uow.context.tracker)
    modifies uow`categoryRepository, uow.context
    ensures uow.Valid() && Settled(uow.context.tracker)
    ensures (r, uow.context.tables) == Delete(old(uow.context.tables), id, now)
  {
    var categories := uow.Categories();
    var loaded := Queries.GetCategoryWithProducts(categories.context.tables, id);
    if loaded.None? {
      return NotFound;
    }
    if exists p :: p in loaded.value.products && !p.isDeleted {
      return InvalidOperation(HasProducts);
    }
    ghost var before := uow.context.tracker;
    var category := loaded.value.category.(isDeleted := true);
    categories.Update(category);
    SaveAfterSettled(uow.context.tables, before, CategoryEntry(Modified, category), now);
    var affected := uow.SaveChanges(now);
    r := Ok(());
  }
}
