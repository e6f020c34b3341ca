/** Row shapes of the catalog (Category, Product), the transfer records the
    services accept, the field copy the object mapper performs, and the
    string helpers the repository queries use. */
module Models {

  datatype Option<+T> = None | Some(value: T)

  /** How a service call ends: with a value; with "nothing there" (the null
      or false a service returns); or with the exception it throws, an
      argument error or an invalid-operation error, carrying its message. */
  datatype Outcome<+T> = Ok(value: T) | NotFound | ArgumentError(message: string) | InvalidOperation(message: string)

  /** A UTC clock reading, supplied by the caller wherever the source reads
      the wall clock. */
  type Time = int

  /** A price in cents. The column is decimal(18,2) and no arithmetic is ever
      done on it, so a whole number of cents stands for it exactly. */
  type Money = int

  const CategoryNameMaxLength := 100
  const CategoryDescriptionMaxLength := 500
  const ProductNameMaxLength := 200
  const ProductDescriptionMaxLength := 1000

  /** A row of the Categories table. `id`, `createdAt`, `updatedAt` and
      `isDeleted` are the common entity columns; the `Products` navigation is
      not a column, it is what a query with the products included loads
      (see CategoryQueries.CategoryWithProducts). */
  datatype Category = Category(
    id: int,
    name: string,
    description: Option<string>,
    createdAt: Time,
    updatedAt: Option<Time>,
    isDeleted: bool)

  /** A row of the Products table; `categoryId` is the foreign key to the one
      category the product belongs to. */
  datatype Product = Product(
    id: int,
    name: string,
    description: Option<string>,
    price: Money,
    stock: int,
    categoryId: int,
    createdAt: Time,
    updatedAt: Option<Time>,
    isDeleted: bool)

  /** A freshly constructed category entity: empty name, no description,
      not deleted, never updated. */
  const EmptyCategory: Category := Category(0, "", None, 0, None, false)

  /** A freshly constructed product entity; its stock starts at 0. */
  const EmptyProduct: Product := Product(0, "", None, 0, 0, 0, 0, None, false)

  predicate FitsIn(d: Option<string>, max: nat) {
    d.None? || |d.value| <= max
  }

  /** Column constraints of a category row: the name is required and at most
      100 characters, the optional description at most 500. */
  predicate ValidCategoryRow(c: Category) {
    c.name != [] && |c.name| <= CategoryNameMaxLength && FitsIn(c.description, CategoryDescriptionMaxLength)
  }

  /** Column constraints of a product row (name required, at most 200;
      description at most 1000) together with the bounds every product was
      validated against when written: a positive price and a stock of at
      least zero. */
  predicate ValidProductRow(p: Product) {
    && p.name != [] && |p.name| <= ProductNameMaxLength
    && FitsIn(p.description, ProductDescriptionMaxLength)
    && p.price > 0 && p.stock >= 0
  }

  /** The create/update transfer record for a category. */
  datatype CategoryInput = CategoryInput(name: string, description: Option<string>)

  /** The create/update transfer record for a product. */
  datatype ProductInput = ProductInput(
    name: string,
    description: Option<string>,
    price: Money,
    stock: int,
    categoryId: int)

  /** The validation a category transfer record passed before it reaches a
      service: name required, at most 100 characters; description at most 500. */
  predicate ValidCategoryInput(i: CategoryInput) {
    i.name != [] && |i.name| <= CategoryNameMaxLength && FitsIn(i.description, CategoryDescriptionMaxLength)
  }

  /** The validation a product transfer record passed: name required, at most
      200 characters; description at most 1000; price at least 0.01; stock not
      negative. */
  predicate ValidProductInput(i: ProductInput) {
    && i.name != [] && |i.name| <= ProductNameMaxLength
    && FitsIn(i.description, ProductDescriptionMaxLength)
    && i.price >= 1 && i.stock >= 0
  }

  /** The object mapper copying a category transfer record onto an entity:
      only the name and the description change. */
  function MapCategory(input: CategoryInput, onto: Category): (c: Category)
    ensures ValidCategoryInput(input) ==> ValidCategoryRow(c)
    ensures c.name == input.name && c.description == input.description
    ensures c.id == onto.id && c.createdAt == onto.createdAt
    ensures c.updatedAt == onto.updatedAt && c.isDeleted == onto.isDeleted
  {
    onto.(name := input.name, description := input.description)
  }

  /** The object mapper copying a product transfer record onto an entity:
      name, description, price, stock and category change; the identity,
      the timestamps and the deleted flag do not. */
  function MapProduct(input: ProductInput, onto: Product): (p: Product)
    ensures ValidProductInput(input) ==> ValidProductRow(p)
    ensures p.name == input.name && p.description == input.description
    ensures p.price == input.price && p.stock == input.stock
    ensures p.categoryId == input.categoryId
    ensures p.id == onto.id && p.createdAt == onto.createdAt
    ensures p.updatedAt == onto.updatedAt && p.isDeleted == onto.isDeleted
  {
    onto.(name := input.name, description := input.description, price := input.price,
          stock := input.stock, categoryId := input.categoryId)
  }

  /** A value of a map sits under some key. */
  lemma KeyOf<K, V>(m: map<K, V>, v: V) returns (k: K)
    requires v in m.Values
    ensures k in m && m[k] == v
  {
    var keys := m.Keys;
    k :| k in keys && m[k] == v;
  }

  /** Lower-casing of one character; only ASCII letters have a case here. */
  function LowerChar(ch: char): char {
    if 'A' <= ch <= 'Z' then (ch as int - 'A' as int + 'a' as int) as char else ch
  }

  /** Lower-casing of a name, character by character. */
  function Lower(s: string): (r: string)
    ensures |r| == |s|
    ensures forall i :: 0 <= i < |s| ==> r[i] == LowerChar(s[i])
  {
    if s == [] then [] else [LowerChar(s[0])] + Lower(s[1..])
  }

  /** Two names collide when they are equal ignoring case. */
  predicate SameName(a: string, b: string) {
    Lower(a) == Lower(b)
  }

  /** Lower-casing twice is lower-casing once. */
  lemma LowerIdempotent(s: string)
    ensures Lower(Lower(s)) == Lower(s)
  {
    var l := Lower(s);
    assert forall i :: 0 <= i < |l| ==> Lower(l)[i] == l[i];
  }

  /** "Books" and "books" are the same name. */
  lemma BooksCollide()
    ensures SameName("Books", "books")
  {
    assert Lower("Books")[0] == 'b';
  }

  /** `s.Contains(term)`: `term` occurs in `s` at some position. */
  function Contains(s: string, term: string): bool
    decreases |s|
  {
    if term <= s then true
    else if s == [] then false
    else Contains(s[1..], term)
  }

  ghost predicate OccursAt(s: string, term: string, i: int) {
    0 <= i && i + |term| <= |s| && s[i..i + |term|] == term
  }

  /** A successful search names a position where the term occurs. */
  lemma {:induction false} ContainsHasWitness(s: string, term: string) returns (i: nat)
    requires Contains(s, term)
    ensures OccursAt(s, term, i)
    decreases |s|
  {
    if term <= s {
      i := 0;
    } else {
      var j := ContainsHasWitness(s[1..], term);
      assert s[1..][j..j + |term|] == s[j + 1..j + 1 + |term|];
      i := j + 1;
    }
  }

  /** An occurrence at any position is found by the search. */
  lemma {:induction false} OccurrenceIsFound(s: string, term: string, i: int)
    requires OccursAt(s, term, i)
    ensures Contains(s, term)
    decreases i
  {
    if i == 0 {
      assert s[..|term|] == term;
    } else if !(term <= s) {
      assert s[1..][i - 1..i - 1 + |term|] == s[i..i + |term|];
      OccurrenceIsFound(s[1..], term, i - 1);
    }
  }

  /** The recursive search agrees with "occurs at some position". */
  lemma ContainsIffOccurs(s: string, term: string)
    ensures Contains(s, term) <==> exists i :: OccursAt(s, term, i)
  {
    if Contains(s, term) {
      var i := ContainsHasWitness(s, term);
    }
    forall i | OccursAt(s, term, i) ensures Contains(s, term) {
      OccurrenceIsFound(s, term, i);
    }
  }

  /** The empty term occurs in every string. */
  lemma EmptyTermOccursEverywhere(s: string)
    ensures Contains(s, "")
  {
  }
}
