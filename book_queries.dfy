/**
 * The filter of getBooks (src/controllers/bookController.js): the query
 * document the controller builds, how the database evaluates it, and what the
 * request parameters select, stated independently of the query document.
 */
module BookQueries {
  import opened Options
  import opened BookModel

  /** `{ $gte: min, $lte: max }` on price; an upper bound of None is `Infinity`. */
  datatype PriceRange = PriceRange(min: real, max: Option<real>)

  /** The query document: each field present is one more condition. */
  datatype BookQuery = BookQuery(genre: Option<string>, author: Option<string>, price: Option<PriceRange>)

  /** `{}`: matches every book. */
  const EmptyQuery: BookQuery := BookQuery(None, None, None)

  /** The database's evaluation of a query document against one book. */
  predicate Matches(b: Book, q: BookQuery) {
    && (q.genre.Some? ==> b.genre == q.genre.value)
    && (q.author.Some? ==> b.author == q.author.value)
    && (q.price.Some? ==> q.price.value.min <= b.price && (q.price.value.max.Some? ==> b.price <= q.price.value.max.value))
  }

  /** `Book.find(query)`: the books of the catalog that match. */
  function Find(catalog: map<BookId, Book>, q: BookQuery): map<BookId, Book> {
    map id | id in catalog && Matches(catalog[id], q) :: catalog[id]
  }

  /**
   * What the parameters of getBooks select, read off the controller: "" or
   * None is an absent (falsy) parameter; genre and author match exactly; a
   * given bound is inclusive; when only maxPrice is given the lower bound is
   * 0, so books with a negative price drop out.
   */
  predicate Selected(b: Book, genre: string, author: string, minPrice: Option<real>, maxPrice: Option<real>) {
    && (genre != "" ==> b.genre == genre)
    && (author != "" ==> b.author == author)
    && (minPrice.Some? ==> minPrice.value <= b.price)
    && (maxPrice.Some? ==> b.price <= maxPrice.value)
    && (minPrice.None? && maxPrice.Some? ==> 0.0 <= b.price)
  }
}
