# Catalog consistency layer — a Dafny model

This project models the data layer of a small product catalog: two tables,
categories and products, reached through Entity Framework with a soft-delete
filter on each table. Category and product repositories add their own
queries. A unit of work shares one context between the repositories and
optionally holds a database transaction. Two services create, update and
soft-delete rows with checks: a category must exist, names must be unique
ignoring case, and a category cannot be deleted while it has live products.

The store is the value `Data.Tables`. It has one map per table, keyed by
primary key, and the two identity counters. The context is the class
`Data.ApplicationDbContext`. It holds the store and the change tracker, which
is a sequence of entries in state Unchanged, Added or Modified.

- `SaveChanges` is a loop that stamps `updatedAt` on every Modified entry.
  It then writes every entry (`Data.Flush`), marks all entries Unchanged,
  and returns the number of rows written.
- Every read is a function of the store. The soft-delete filter is part of
  the row sets every query starts from (`Data.CategorySet`, `Data.ProductSet`).
- Each service write has two parts. A function over the store (`Create`,
  `Update`, `Delete`) follows the service's steps: check, copy the input
  onto the row, stage, save, read back. A method on the unit of work is
  proved to compute exactly that function.
- Lemmas prove what the functions keep true of the store:
  - `Data.Consistent`: primary keys, foreign keys, live products in live
    categories, unique live names, and valid rows.
  - `Data.HistoryKept`: no row disappears, `createdAt` never changes,
    `updatedAt` only becomes the save time, and a deleted row never changes
    again.

Outcomes mirror the source. A service that returns null or false gives
`NotFound`. An `ArgumentException` gives `ArgumentError(message)` and an
`InvalidOperationException` gives `InvalidOperation(message)`, each with the
source's message text. The one exception is the refusal of a second
`BeginTransaction`, whose message is a shortened form of the framework's own
message, since no code of this repository states it.

Including a product's category is an inner join: the category is a required
reference, and the categories have their own soft-delete filter. A live
product whose category row is soft-deleted would therefore vanish from every
product query that includes the category (`ProductQueries.JoinDropsOrphans`).
The category service never lets that state arise, because
`CategoryService.DeleteKeepsConsistency` keeps "live products have live
categories". Under that invariant the join drops nothing
(`ProductQueries.JoinKeepsEveryLiveProduct`).

`GenericRepository<T>` is not part of this model; its code is not available.
Module `GenericRepository` states the contract the rest of the layer relies
on:
- get-by-id and exists see only rows the filter lets through;
- add stages an insert and hands out the row's identity value;
- update marks the row Modified.

The unit of work's `BeginTransaction` assigns the new handle unconditionally.
The framework's connection, however, refuses to begin a second transaction
while one is open. The model follows what that assignment can actually do:
with a transaction already open, the call fails and nothing changes.

## Model

| member | source | states |
|---|---|---|
| Models.MapCategory | Services/Implementations/CategoryService.cs:67 | name and description become the record's; id, createdAt, updatedAt and isDeleted are kept; a valid record yields a valid row |
| Models.MapProduct | Services/Implementations/ProductService.cs:85 | name, description, price, stock and category id become the record's; id, timestamps and isDeleted are kept; a valid record yields a valid row |
| Models.Lower | Repositories/Implementations/CategoryRepository.cs:30 | lower-casing keeps the length and lower-cases each character |
| Models.LowerIdempotent | Repositories/Implementations/CategoryRepository.cs:30 | lower-casing twice is lower-casing once |
| Models.BooksCollide | Repositories/Implementations/CategoryRepository.cs:30 | "Books" and "books" are the same name |
| Models.ContainsHasWitness | Repositories/Implementations/ProductRepository.cs:40-41 | a successful substring search names a position where the term occurs |
| Models.OccurrenceIsFound | Repositories/Implementations/ProductRepository.cs:40-41 | an occurrence at any position is found by the search |
| Models.ContainsIffOccurs | Repositories/Implementations/ProductRepository.cs:40-41 | the search succeeds exactly when the term occurs at some position |
| Models.EmptyTermOccursEverywhere | Repositories/Implementations/ProductRepository.cs:40 | the empty term is found in every string |
| Data.LiveCategories | Repositories/Data/ApplicationDbContext.cs:47 | the categories a read can see are exactly the rows not deleted |
| Data.LiveProducts | Repositories/Data/ApplicationDbContext.cs:35 | the products a read can see are exactly the rows not deleted |
| Data.Seed | Repositories/Data/ApplicationDbContext.cs:54-67 | three categories and three products under ids 1 to 3, counters at 4, every row live, created at the seed time and never updated |
| Data.SeedWellFormed | Repositories/Data/ApplicationDbContext.cs:54-67 | the seeded rows sit under their own ids, below the identity counters |
| Data.SeedReferences | Repositories/Data/ApplicationDbContext.cs:62-66 | every seeded product names an existing, live category |
| Data.SeedRowsValid | Repositories/Data/ApplicationDbContext.cs:54-67 | every seeded row meets its column constraints, with positive prices |
| Data.SeedCategoryNamesUnique | Repositories/Data/ApplicationDbContext.cs:56-60 | no two seeded categories share a name ignoring case |
| Data.SeedProductNamesUnique | Repositories/Data/ApplicationDbContext.cs:62-66 | no two seeded products share a name ignoring case |
| Data.SeedConsistent | Repositories/Data/ApplicationDbContext.cs:54-67 | the seeded store satisfies the whole store invariant |
| Data.Stamp | Repositories/Data/ApplicationDbContext.cs:81-90 | stamping keeps one entry per tracked entity |
| Data.StampTouchesOnlyModified | Repositories/Data/ApplicationDbContext.cs:83-88 | only Modified entries change, and in them only updatedAt, which becomes the save time; Added and Unchanged entries are untouched |
| Data.PendingCount | Repositories/Data/ApplicationDbContext.cs:72 | the count of written rows is the number of tracked entries that are not Unchanged; hence at most the tracked count, and zero exactly when nothing is pending |
| Data.ApplyEntry | Repositories/Data/ApplicationDbContext.cs:26 | an Unchanged entry writes nothing; a pending entry puts its entity under its key, with createdAt the insert time for an Added one (the server default), and leaves every other row, the other table and the counters alone |
| Data.Flush | Repositories/Data/ApplicationDbContext.cs:72 | after writing the entries the keys are the old ones plus those a pending entry names, a row no pending entry names is unchanged, and the counters are kept |
| Data.Save | Repositories/Data/ApplicationDbContext.cs:69-79 | the stamped save writes the keys the pending entries name and no others, leaves the rest of the store alone and keeps the counters |
| Data.Accepted | Repositories/Data/ApplicationDbContext.cs:72 | after a save every entry is Unchanged |
| Data.FlushSettled | Repositories/Data/ApplicationDbContext.cs:72 | saving with nothing pending writes nothing |
| Data.SaveAfterSettled | Repositories/Data/ApplicationDbContext.cs:69-79 | a save with one pending entry stamps and writes exactly that entry |
| Data.FlushWellFormed | Repositories/Data/ApplicationDbContext.cs:22 | writing entries whose ids were handed out keeps every row under its own key and keeps the identity counters |
| Data.FlushKeepsRows | Repositories/Data/ApplicationDbContext.cs:32 | a save never removes a row |
| Data.ApplicationDbContext.constructor | Repositories/Data/ApplicationDbContext.cs:8-10 | a new context holds the given store and tracks nothing |
| Data.ApplicationDbContext.UpdateTimestamps | Repositories/Data/ApplicationDbContext.cs:81-90 | the tracker becomes its stamped version, and the store is untouched |
| Data.ApplicationDbContext.SaveChanges | Repositories/Data/ApplicationDbContext.cs:69-79 | the store becomes the stamped entries written over the old store; every entry ends Unchanged; the result is the number of pending entries; the identity counters are kept |
| Data.ApplicationDbContext.Dispose | Repositories/Implementations/UnitOfWork.cs:62 | the context is disposed and its store and tracker are unchanged |
| GenericRepository.GetCategoryById | Services/Implementations/CategoryService.cs:28 | a row is found exactly when the id is among the live categories; it is that live row, never a deleted one, and in a well-formed store carries the id asked for |
| GenericRepository.CategoryExists | Services/Implementations/CategoryService.cs:98 | true exactly when the id is among the live categories |
| GenericRepository.GetProductById | Services/Implementations/ProductService.cs:94 | a row is found exactly when the id is among the live products; it is that live row, never a deleted one, and in a well-formed store carries the id asked for |
| GenericRepository.ProductExists | Services/Implementations/ProductService.cs:110 | true exactly when the id is among the live products |
| GenericRepository.CategoryRepository.constructor | Repositories/Implementations/CategoryRepository.cs:10-12 | the repository works on the given context |
| GenericRepository.CategoryRepository.Add | Services/Implementations/CategoryService.cs:47 | an Added entry with the next identity value is staged, the counter moves on, and no row is written yet |
| GenericRepository.CategoryRepository.Update | Services/Implementations/CategoryService.cs:68 | a Modified entry is staged and no row is written yet |
| GenericRepository.ProductRepository.constructor | Repositories/Implementations/ProductRepository.cs:10-12 | the repository works on the given context |
| GenericRepository.ProductRepository.Add | Services/Implementations/ProductService.cs:59 | an Added entry with the next identity value is staged, the counter moves on, and no row is written yet |
| GenericRepository.ProductRepository.Update | Services/Implementations/ProductService.cs:86 | a Modified entry is staged and no row is written yet |
| CategoryQueries.GetCategoriesWithProducts | Repositories/Implementations/CategoryRepository.cs:14-19 | exactly the live categories, each loaded with exactly its live products |
| CategoryQueries.GetCategoryWithProducts | Repositories/Implementations/CategoryRepository.cs:21-26 | a result exactly when a live category has that id; it is that row, loaded with exactly the live products naming it |
| CategoryQueries.IsCategoryNameUnique | Repositories/Implementations/CategoryRepository.cs:28-38 | unique exactly when no live category other than the excluded one has the same name ignoring case |
| CategoryQueries.NoneLeftMeansUnique | Repositories/Implementations/CategoryRepository.cs:30-37 | the query left empty after filtering and excluding is the same as "no other live category has the name" |
| CategoryQueries.NameTakenIgnoringCase | Repositories/Implementations/CategoryRepository.cs:30-35 | a live category with a case-insensitively equal name makes the name taken unless it is the excluded one |
| CategoryQueries.OwnNameStaysUnique | Repositories/Implementations/CategoryRepository.cs:32-35 | with live names unique, a category's own name is unique once its id is excluded |
| CategoryQueries.FreshCategoryHasNoProducts | Repositories/Models/Category.cs:15 | a category with a fresh identity value has no products to load |
| CategoryQueries.CategoryReadsIgnoreDeletedRows | Repositories/Data/ApplicationDbContext.cs:47 | two stores with the same live rows answer every category read alike |
| ProductQueries.WithCategory | Repositories/Implementations/ProductRepository.cs:25 | a loaded pair is a live product with the live category its foreign key names, and every such pair is loaded |
| ProductQueries.GetProductsByCategory | Repositories/Implementations/ProductRepository.cs:14-20 | exactly the loaded products with that category id; nothing when no live category has that id |
| ProductQueries.GetProductsWithCategory | Repositories/Implementations/ProductRepository.cs:22-27 | only live products are returned |
| ProductQueries.GetProductWithCategory | Repositories/Implementations/ProductRepository.cs:29-34 | a result exactly when the product is live and its category exists; it is that row with its category, and one of the rows the all-products query returns |
| ProductQueries.SearchConditionOccurs | Repositories/Implementations/ProductRepository.cs:40-41 | the search condition holds exactly when the term occurs in the name or in a present description |
| ProductQueries.SearchProducts | Repositories/Implementations/ProductRepository.cs:36-43 | exactly the loaded products whose name, or present description, has the term at some position |
| ProductQueries.NullDescriptionSearchesNameOnly | Repositories/Implementations/ProductRepository.cs:41 | a product without a description is found only through its name |
| ProductQueries.EmptyTermFindsEverything | Repositories/Implementations/ProductRepository.cs:36-43 | the empty term finds every loaded product |
| ProductQueries.IsProductNameUnique | Repositories/Implementations/ProductRepository.cs:45-55 | unique exactly when no live product other than the excluded one has the same name ignoring case |
| ProductQueries.NoneLeftMeansUnique | Repositories/Implementations/ProductRepository.cs:47-54 | the query left empty after filtering and excluding is the same as "no other live product has the name" |
| ProductQueries.OwnNameStaysUnique | Repositories/Implementations/ProductRepository.cs:49-52 | with live names unique, a product's own name is unique once its id is excluded |
| ProductQueries.JoinKeepsEveryLiveProduct | Repositories/Implementations/ProductRepository.cs:22-27 | while live products have live categories, every live product is loaded with its category |
| ProductQueries.JoinDropsOrphans | Repositories/Implementations/ProductRepository.cs:25 | a live product whose category is soft-deleted is returned by none of the reads that include the category |
| ProductQueries.ByCategoryIsCategoryProducts | Repositories/Implementations/ProductRepository.cs:14-20 | products-by-category equals the products a category loads with it, while live products have live categories |
| ProductQueries.ProductReadsIgnoreDeletedRows | Repositories/Data/ApplicationDbContext.cs:35 | two stores with the same live rows answer every product read alike |
| UnitOfWork.RollBack | Repositories/Implementations/UnitOfWork.cs:53 | the rows are those of the transaction's start and the identity counters are the current ones |
| UnitOfWork.RollBackRestoresStore | Repositories/Implementations/UnitOfWork.cs:53 | after a rollback the store's rows, and its live rows, are those of the transaction's start, and the store invariant holds again |
| UnitOfWork.DbTransaction.constructor | Repositories/Implementations/UnitOfWork.cs:36 | a new transaction is open on the context and remembers the rows at its start |
| UnitOfWork.DbTransaction.Commit | Repositories/Implementations/UnitOfWork.cs:43 | an open transaction becomes committed |
| UnitOfWork.DbTransaction.Rollback | Repositories/Implementations/UnitOfWork.cs:53 | the store goes back to the rows at the start, keeping the identity counters; the tracker is untouched |
| UnitOfWork.DbTransaction.Dispose | Repositories/Implementations/UnitOfWork.cs:44 | disposing a transaction that is still open rolls it back; otherwise, including a second dispose, the store is unchanged |
| UnitOfWork.UnitOfWork.constructor | Repositories/Implementations/UnitOfWork.cs:14-17 | a new unit of work holds the context, no transaction and no repository |
| UnitOfWork.UnitOfWork.Products | Repositories/Implementations/UnitOfWork.cs:19-22 | the product repository is created on first use, on the shared context, and the same object is returned ever after |
| UnitOfWork.UnitOfWork.Categories | Repositories/Implementations/UnitOfWork.cs:24-27 | the category repository is created on first use, on the shared context, and the same object is returned ever after |
| UnitOfWork.UnitOfWork.SaveChanges | Repositories/Implementations/UnitOfWork.cs:29-32 | exactly the context's save |
| UnitOfWork.UnitOfWork.BeginTransaction | Repositories/Implementations/UnitOfWork.cs:34-37 | without an open transaction a fresh one starts at the current rows; with one open, the call fails and the handle is kept |
| UnitOfWork.UnitOfWork.CommitTransaction | Repositories/Implementations/UnitOfWork.cs:39-47 | an open transaction is committed and disposed; afterwards none is open; with none open nothing happens |
| UnitOfWork.UnitOfWork.RollbackTransaction | Repositories/Implementations/UnitOfWork.cs:49-57 | an open transaction is rolled back, restoring its starting rows, and disposed; afterwards none is open; with none open nothing happens |
| UnitOfWork.UnitOfWork.Dispose | Repositories/Implementations/UnitOfWork.cs:59-63 | the transaction, if any, is disposed (its writes rolled back when it was still open), then the context; the handle is kept, and a second dispose changes nothing |
| CategoryService.Create | Services/Implementations/CategoryService.cs:38-51 | fails with "Category name already exists" and no write exactly when a live category has the name ignoring case; otherwise adds exactly one live row with the next id, created now and never updated, and returns it |
| CategoryService.Update | Services/Implementations/CategoryService.cs:53-72 | not found (no write) exactly when no live row has the id; else name-taken (no write) exactly when another live category has the name; otherwise only name, description and updatedAt of that row change, and the new row is returned |
| CategoryService.Delete | Services/Implementations/CategoryService.cs:74-94 | not found (no write) exactly when no live row has the id; else "Cannot delete category that contains products" (no write) exactly when a live product names it; otherwise only that row changes, to deleted and updated now |
| CategoryService.RenameKeepsConsistency | Services/Implementations/CategoryService.cs:61-69 | renaming a live category to a valid name no other live category has keeps the store invariant and the row history |
| CategoryService.CreateKeepsConsistency | Services/Implementations/CategoryService.cs:38-51 | a create keeps the store invariant and the row history |
| CategoryService.UpdateKeepsConsistency | Services/Implementations/CategoryService.cs:53-72 | an update keeps the store invariant and the row history |
| CategoryService.DeleteKeepsConsistency | Services/Implementations/CategoryService.cs:82-93 | a delete keeps the store invariant (no live product is left in a deleted category) and the row history |
| CategoryService.CreatedCategoryIsFound | Services/Implementations/CategoryService.cs:46-50 | a created category is found by its id afterwards, with no products |
| CategoryService.SecondCreateRejected | Services/Implementations/CategoryService.cs:40-44 | creating a category whose name equals a just-created one's ignoring case fails and writes nothing |
| CategoryService.OwnNameAccepted | Services/Implementations/CategoryService.cs:61-65 | an update that keeps the category's own name, in any case, succeeds |
| CategoryService.DeletedCategoryIsGone | Services/Implementations/CategoryService.cs:88-93 | after a delete no read returns the category, and its name is free again |
| CategoryService.GetAllCategories | Services/Implementations/CategoryService.cs:20-24 | returns the categories-with-products query on the current store |
| CategoryService.GetCategoryById | Services/Implementations/CategoryService.cs:26-30 | returns get-by-id on the current store |
| CategoryService.GetCategoryWithProducts | Services/Implementations/CategoryService.cs:32-36 | returns the category-with-products query on the current store |
| CategoryService.CategoryExists | Services/Implementations/CategoryService.cs:96-99 | returns exists on the current store |
| CategoryService.IsCategoryNameUnique | Services/Implementations/CategoryService.cs:101-104 | returns the repository's uniqueness check on the current store |
| CategoryService.CreateCategory | Services/Implementations/CategoryService.cs:38-51 | outcome and new store are exactly CategoryService.Create of the old store |
| CategoryService.UpdateCategory | Services/Implementations/CategoryService.cs:53-72 | outcome and new store are exactly CategoryService.Update of the old store |
| CategoryService.DeleteCategory | Services/Implementations/CategoryService.cs:74-94 | outcome and new store are exactly CategoryService.Delete of the old store |
| ProductService.Create | Services/Implementations/ProductService.cs:44-63 | "Category does not exist", checked first, or "Product name already exists", with no write; otherwise adds exactly one live row with the next id, created now and never updated, and returns it with its category |
| ProductService.Update | Services/Implementations/ProductService.cs:65-90 | not found before any check; then the category check, then the name check excluding its own id, each with no write; otherwise only the copied fields and updatedAt of that row change, and it is returned with its category |
| ProductService.Delete | Services/Implementations/ProductService.cs:92-106 | not found (no write) exactly when no live row has the id; otherwise only that row changes, to deleted and updated now |
| ProductService.InsertKeepsConsistency | Services/Implementations/ProductService.cs:47-60 | inserting a valid live product at the next id, under a live category and with a free name, keeps the store invariant and the row history |
| ProductService.ReplaceKeepsConsistency | Services/Implementations/ProductService.cs:74-87 | rewriting a live product with a valid row under a live category and a name no other live product has keeps the store invariant and the row history |
| ProductService.SoftDeleteKeepsConsistency | Services/Implementations/ProductService.cs:100-103 | marking a live product deleted keeps the store invariant and the row history |
| ProductService.CreateKeepsConsistency | Services/Implementations/ProductService.cs:44-63 | a create keeps the store invariant and the row history |
| ProductService.UpdateKeepsConsistency | Services/Implementations/ProductService.cs:65-90 | an update keeps the store invariant and the row history |
| ProductService.DeleteKeepsConsistency | Services/Implementations/ProductService.cs:92-106 | a delete keeps the store invariant and the row history |
| ProductService.CreatedProductIsFound | Services/Implementations/ProductService.cs:58-62 | a created product is found by its id afterwards, with its category |
| ProductService.SecondCreateRejected | Services/Implementations/ProductService.cs:52-56 | creating a product whose name equals a just-created one's ignoring case fails and writes nothing |
| ProductService.OwnNameAccepted | Services/Implementations/ProductService.cs:79-83 | an update that keeps the product's own name, in any case, into an existing category succeeds |
| ProductService.DeletedProductIsGone | Services/Implementations/ProductService.cs:26-30 | after a delete no read or search returns the product, and its name is free again |
| ProductService.LastProductDeletedUnblocksCategory | Services/Implementations/ProductService.cs:100-103 | deleting the last live product of a category leaves that category with no live products |
| ProductService.GetAllProducts | Services/Implementations/ProductService.cs:20-24 | returns the products-with-category query on the current store |
| ProductService.GetProductById | Services/Implementations/ProductService.cs:26-30 | returns the product-with-category query on the current store |
| ProductService.GetProductsByCategory | Services/Implementations/ProductService.cs:32-36 | returns the products-by-category query on the current store |
| ProductService.SearchProducts | Services/Implementations/ProductService.cs:38-42 | returns the search on the current store |
| ProductService.ProductExists | Services/Implementations/ProductService.cs:108-111 | returns exists on the current store |
| ProductService.IsProductNameUnique | Services/Implementations/ProductService.cs:113-116 | returns the repository's uniqueness check on the current store |
| ProductService.CreateProduct | Services/Implementations/ProductService.cs:44-63 | outcome and new store are exactly ProductService.Create of the old store |
| ProductService.UpdateProduct | Services/Implementations/ProductService.cs:65-90 | outcome and new store are exactly ProductService.Update of the old store |
| ProductService.DeleteProduct | Services/Implementations/ProductService.cs:92-106 | outcome and new store are exactly ProductService.Delete of the old store |

## Left out

- async/await: every call is modelled as completing in order on one context.
- Concurrent requests are not modelled. This includes the race between a
  uniqueness check and the following save.
- The database's isolation and locking are not modelled. A transaction is
  modelled only by what a rollback restores.
- SQL collation: `ToLower` is ASCII lower-casing. `Contains` is a
  case-sensitive substring match.
- The clock is a parameter (`now`) of every save. The seed rows' creation
  time is a parameter as well.
- Prices are whole numbers of cents. No arithmetic is ever done on them.
- The object-mapper profile is not part of this model. Copying a transfer
  record onto a row is a plain field copy (`Models.MapCategory`,
  `Models.MapProduct`). The transfer records returned to callers
  (`ProductCount`, `CategoryName`) are not modelled: services return the rows
  and the loaded pairs.
- The transfer records' validation attributes run in the web layer. The
  model states them as `Models.ValidCategoryInput` and
  `Models.ValidProductInput`. They are preconditions only of the lemmas that
  prove rows stay valid.
- The web controllers, dependency injection, migrations and the interfaces
  are signatures and configuration only, and are not part of this model.
- Read queries in the model do not add entries to the change tracker. The
  service writes start from a settled tracker (`Data.Settled`), as each
  request does.
- Query results are sets, because none of the queries orders its rows.
- Identity values are handed out when a row is staged, not when it is
  inserted. The id a row receives is the same either way.
- The `Products` collection of a category is the result of a query
  (`CategoryQueries.CategoryWithProducts`), not a field of the row. A
  category's navigation to its products is therefore not aliased.
- CategoryService.Update: the shape of the returned row and of the new store
  is stated only for a store whose rows sit under their own ids
  (`Data.WellFormed`, which every context keeps). Otherwise the write would
  land under a different key.
- CategoryService.Delete: the new store is stated only for a well-formed
  store, for the same reason.
- ProductService.Update: "not found exactly when no live row has the id", and
  the result, are stated only for a well-formed store. In any other store the
  read-back after the save can also miss the row.
- ProductService.Delete: the new store is stated only for a well-formed
  store.
- UnitOfWork.RollBackRestoresStore: a rollback restores the store's rows, not
  the change tracker. The framework keeps tracked instances with their
  post-save values, and a tracking query through the same context returns
  those instances. Reads in the model are functions of the store alone, so
  the model does not capture reads that see tracked instances after a
  rollback.
- UnitOfWork.UnitOfWork.BeginTransaction: the unit of work assigns the new
  handle unconditionally. A second begin while a transaction is open is
  refused by the connection, and the model gives that refusal as an
  `InvalidOperation` outcome that changes nothing.
