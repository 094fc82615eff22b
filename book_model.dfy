/**
 * The Book document of the catalog (src/models/bookModel.js): five required
 * fields, a unique index on ISBN and the two timestamps Mongoose adds.
 */
module BookModel {
  import opened Options

  /** The identifier MongoDB assigns to a book document. */
  type BookId = nat

  /** A stored book. Prices are exact numbers here, not floating point. */
  datatype Book = Book(
    title: string,
    author: string,
    genre: string,
    isbn: string,
    price: real,
    createdAt: int,
    updatedAt: int)

  /**
   * The body of a create request. A string field that is "" stands for one
   * that is absent (Mongoose's `required` rejects both), an absent price is None.
   */
  datatype BookInput = BookInput(
    title: string,
    author: string,
    genre: string,
    isbn: string,
    price: Option<real>)

  /**
   * The body of an update request: each present field replaces the stored one.
   */
  datatype BookPatch = BookPatch(
    title: Option<string>,
    author: Option<string>,
    genre: Option<string>,
    isbn: Option<string>,
    price: Option<real>)

  /** Mongoose's `required` check on a String path: present and non-empty. */
  predicate RequiredString(s: string) {
    s != ""
  }

  /** What the schema demands of a book before it is first saved. */
  predicate SchemaValid(input: BookInput) {
    && RequiredString(input.title)
    && RequiredString(input.author)
    && RequiredString(input.genre)
    && RequiredString(input.isbn)
    && input.price.Some?
  }

  /**
   * `after` is `before` with the update document `patch` applied at time
   * `now`: each field the patch carries replaces the stored one, the others
   * and the creation time stay, and the modification time is refreshed.
   */
  predicate PatchApplied(before: Book, patch: BookPatch, now: int, after: Book) {
    && after.title == (if patch.title.Some? then patch.title.value else before.title)
    && after.author == (if patch.author.Some? then patch.author.value else before.author)
    && after.genre == (if patch.genre.Some? then patch.genre.value else before.genre)
    && after.isbn == (if patch.isbn.Some? then patch.isbn.value else before.isbn)
    && after.price == (if patch.price.Some? then patch.price.value else before.price)
    && after.createdAt == before.createdAt
    && after.updatedAt == now
  }

  /** Some book of `catalog` already carries `isbn`. */
  predicate IsbnTaken(catalog: map<BookId, Book>, isbn: string) {
    exists id :: id in catalog && catalog[id].isbn == isbn
  }

  /** The unique index on ISBN: no two books of the catalog share one. */
  ghost predicate UniqueIsbns(catalog: map<BookId, Book>) {
    forall i, j :: i in catalog && j in catalog && catalog[i].isbn == catalog[j].isbn ==> i == j
  }

  /**
   * Writing a book under `id` keeps ISBNs unique exactly when no OTHER book
   * already carries its ISBN; this is the test the unique index makes on
   * every insert and every update.
   */
  lemma {:induction false} PutKeepsUniqueIsbns(catalog: map<BookId, Book>, id: BookId, b: Book)
    requires UniqueIsbns(catalog)
    ensures UniqueIsbns(catalog[id := b]) <==> !IsbnTaken(catalog - {id}, b.isbn)
  {
    var c := catalog[id := b];
    if IsbnTaken(catalog - {id}, b.isbn) {
      var k :| k in catalog - {id} && (catalog - {id})[k].isbn == b.isbn;
      assert k in c && id in c && c[k].isbn == c[id].isbn && k != id;
    } else {
      assert forall k :: k in catalog && k != id ==> k in catalog - {id} && catalog[k].isbn != b.isbn;
    }
  }
}
