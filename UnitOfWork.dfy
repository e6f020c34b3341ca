/** The unit of work: one context shared by lazily created repositories,
    the save that goes through that context, and an optional database
    transaction around several saves. */
module UnitOfWork {
  import opened Models
  import opened Data
  import opened GenericRepository

  datatype TransactionState = Active | Committed | RolledBack

  /** The store as a rollback leaves it: the rows are those the transaction
      began with, while the identity values handed out since stay used (an
      identity column does not give values back on rollback). */
  function RollBack(snapshot: Tables, current: Tables): (r: Tables)
    ensures r.categories == snapshot.categories && r.products == snapshot.products
    ensures r.nextCategoryId == current.nextCategoryId && r.nextProductId == current.nextProductId
  {
    snapshot.(nextCategoryId := current.nextCategoryId, nextProductId := current.nextProductId)
  }

  /** A rollback restores the rows the store held at the start of the
      transaction, the live ones in particular, and the store invariant with
      them. */
  lemma RollBackRestoresStore(snapshot: Tables, current: Tables)
    requires snapshot.nextCategoryId <= current.nextCategoryId && snapshot.nextProductId <= current.nextProductId
    ensures WellFormed(snapshot) ==> WellFormed(RollBack(snapshot, current))
    ensures Consistent(snapshot) ==> Consistent(RollBack(snapshot, current))
    ensures LiveCategories(RollBack(snapshot, current)) == LiveCategories(snapshot)
    ensures LiveProducts(RollBack(snapshot, current)) == LiveProducts(snapshot)
  {
  }

  /** An open database transaction on the context's connection. */
  class DbTransaction {
    const context: ApplicationDbContext
    /** The rows as they were when the transaction began. */
    const snapshot: Tables
    var state: TransactionState
    var disposed: bool

    /** Still open, and able to roll the context's store back. */
    ghost predicate Open()
      reads this, context
    {
      && state == Active && !disposed
      && WellFormed(snapshot)
      && snapshot.nextCategoryId <= context.tables.nextCategoryId
      && snapshot.nextProductId <= context.tables.nextProductId
    }

    /** `Database.BeginTransactionAsync`. */
    constructor (context: ApplicationDbContext)
      requires context.Valid()
      ensures this.context == context && snapshot == context.tables
      ensures state == Active && !disposed && Open()
    {
      this.context := context;
      snapshot := context.tables;
      state := Active;
      disposed := false;
    }

    /** `CommitAsync`: the writes since the start become permanent. */
    method Commit()
      requires state == Active && !disposed
      modifies this
      ensures state == Committed && !disposed
    {
      state := Committed;
    }

    /** `RollbackAsync`: the store goes back to its rows at the start. The
        change tracker is not touched. */
    method Rollback()
      requires Open() && context.Valid()
      modifies this, context
      ensures state == RolledBack && !disposed
      ensures context.Valid()
      ensures context.tables == RollBack(snapshot, old(context.tables))
      ensures context.tracker == old(context.tracker) && context.disposed == old(context.disposed)
    {
      RollBackRestoresStore(snapshot, context.tables);
      context.tables := RollBack(snapshot, context.tables);
      state := RolledBack;
    }

    /** `DisposeAsync`: disposing a transaction that was neither committed
        nor rolled back rolls it back. */
    method Dispose()
      requires state == Active && !disposed ==> Open() && context.Valid()
      modifies this, context
      ensures disposed
      ensures old(state == Active && !disposed) ==>
        state == RolledBack && context.tables == RollBack(snapshot, old(context.tables))
      ensures !old(state == Active && !disposed) ==> state == old(state) && context.tables == old(context.tables)
      ensures context.Valid() == old(context.Valid())
      ensures context.tracker == old(context.tracker) && context.disposed == old(context.disposed)
    {
      if state == Active && !disposed {
        Rollback();
      }
      disposed := true;
    }
  }

  class UnitOfWork {
    const context: ApplicationDbContext
    var transaction: DbTransaction?
    var productRepository: ProductRepository?
    var categoryRepository: CategoryRepository?

    /** The context is usable, every repository created so far works on it,
        and a transaction, while there is one, is open on it. */
    ghost predicate Valid()
      reads this, context, transaction
    {
      && context.Valid() && !context.disposed
      && (productRepository != null ==> productRepository.context == context)
      && (categoryRepository != null ==> categoryRepository.context == context)
      && (transaction != null ==> transaction.context == context && transaction.Open())
    }

    constructor (context: ApplicationDbContext)
      requires context.Valid() && !context.disposed
      ensures Valid() && this.context == context
      ensures transaction == null && productRepository == null && categoryRepository == null
    {
      this.context := context;
      transaction := null;
      productRepository := null;
      categoryRepository := null;
    }

    /** `Products`: the product repository, created on first use and the
        same object ever after. */
    method Products() returns (repository: ProductRepository)
      requires Valid()
      modifies this`productRepository
      ensures Valid() && repository.context == context && productRepository == repository
      ensures old(productRepository) != null ==> repository == old(productRepository)
      ensures old(productRepository) == null ==> fresh(repository)
    {
      if productRepository == null {
        productRepository := new ProductRepository(context);
      }
      repository := productRepository;
    }

    /** `Categories`: the category repository, created on first use and the
        same object ever after. */
    method Categories() returns (repository: CategoryRepository)
      requires Valid()
      modifies this`categoryRepository
      ensures Valid() && repository.context == context && categoryRepository == repository
      ensures old(categoryRepository) != null ==> repository == old(categoryRepository)
      ensures old(categoryRepository) == null ==> fresh(repository)
    {
      if categoryRepository == null {
        categoryRepository := new CategoryRepository(context);
      }
      repository := categoryRepository;
    }

    /** `SaveChangesAsync`: the context's save, with its count of written rows. */
    method SaveChanges(now: Time) returns (affected: nat)
      requires Valid()
      modifies context
      ensures Valid()
      ensures context.tables == Save(old(context.tables), old(context.tracker), now)
      ensures context.tracker == Accepted(Stamp(old(context.tracker), now)) && Settled(context.tracker)
      ensures affected == PendingCount(old(context.tracker))
    {
      affected := context.SaveChanges(now);
    }

    /** `BeginTransactionAsync`. A connection already in a transaction cannot
        start another one: that call fails and changes nothing. */
    method BeginTransaction() returns (r: Outcome<()>)
      requires Valid()
      modifies this`transaction
      ensures Valid()
      ensures old(transaction) == null ==>
        r == Ok(()) && transaction != null && fresh(transaction) && transaction.snapshot == context.tables
      ensures old(transaction) != null ==>
        r == InvalidOperation("The connection is already in a transaction") && transaction == old(transaction)
    {
      if transaction != null {
        return InvalidOperation("The connection is already in a transaction");
      }
      transaction := new DbTransaction(context);
      r := Ok(());
    }

    /** `CommitTransactionAsync`: commits and disposes the current
        transaction, if there is one, and forgets it. */
    method CommitTransaction()
      requires Valid()
      modifies this`transaction, transaction, context
      ensures Valid() && transaction == null
      ensures old(transaction) != null ==> old(transaction).state == Committed && old(transaction).disposed
      ensures context.tables == old(context.tables) && context.tracker == old(context.tracker)
    {
      if transaction != null {
        transaction.Commit();
        transaction.Dispose();
        transaction := null;
      }
    }

    /** `RollbackTransactionAsync`: rolls back and disposes the current
        transaction, if there is one, and forgets it. */
    method RollbackTransaction()
      requires Valid()
      modifies this`transaction, transaction, context
      ensures Valid() && transaction == null
      ensures old(transaction) != null ==>
        && old(transaction).state == RolledBack && old(transaction).disposed
        && context.tables == RollBack(old(transaction).snapshot, old(context.tables))
      ensures old(transaction) == null ==> context.tables == old(context.tables)
      ensures context.tracker == old(context.tracker)
    {
      if transaction != null {
        transaction.Rollback();
        transaction.Dispose();
        transaction := null;
      }
    }

    /** What `Dispose` needs: the context's store is intact and a transaction
        that is still open can roll it back. A unit of work that was already
        disposed still satisfies it, so disposing twice is harmless. */
    ghost predicate Disposable()
      reads this, context, transaction
    {
      && context.Valid()
      && (transaction != null ==>
            transaction.context == context && (transaction.state == Active && !transaction.disposed ==> transaction.Open()))
    }

    /** `Dispose`: disposes the transaction, if any (rolling it back when it
        is still open), then the context. The transaction handle is kept, as
        the source keeps it. */
    method Dispose()
      requires Disposable()
      modifies transaction, context
      ensures Disposable() && context.disposed
      ensures transaction != null ==> transaction.disposed
      ensures old(transaction != null && transaction.state == Active && !transaction.disposed) ==>
        context.tables == RollBack(transaction.snapshot, old(context.tables))
      ensures !old(transaction != null && transaction.state == Active && !transaction.disposed) ==>
        context.tables == old(context.tables)
      ensures context.tracker == old(context.tracker)
    {
      if transaction != null {
        transaction.Dispose();
      }
      context.Dispose();
    }
  }
}
