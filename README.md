# Bookstore backend: catalog and order bookkeeping

A Dafny model of the bookkeeping core of a small bookstore REST backend: the
Book catalog and the Order store, which a document database keeps, and the
two controllers that create, list, update and delete their records. The most
involved piece is the check that runs before an order's books list is
written. It asks the catalog for every book whose id is requested, and it
passes when the number of books found equals the number of requested
entries.

The database is an object of class `Store.Bookstore`. It holds two keyed
tables, `books: map<BookId, Book>` and `orders: map<OrderId, Order>`, plus the
counters that hand out fresh ids. Each controller action is one method of the
class. Each method returns an `Outcome` (`Created`, `Ok`, `BooksNotFound`,
`OrderNotFound`, `BookNotFound`, `DuplicateISBN`, `Invalid`), and its contract
says exactly what changes and when nothing changes. The object invariant
`Valid()` says three things:
- ISBNs are unique across the catalog.
- Every stored order has a customer name, an email and a non-empty status.
- Every id in use was handed out already.

Every method preserves it.

Modules:
- `Options`: the optional value used for absent request fields.
- `BookModel` (src/models/bookModel.js): `Book`, the create body `BookInput`,
  the update body `BookPatch`, the schema's required fields, the ISBN
  uniqueness predicate and the lemma that a write keeps it.
- `OrderModel` (src/models/orderModel.js): `BookRef`, `Order`, the default
  status, the schema's required fields and the update relation.
- `OrderValidator` (src/controllers/orderController.js:10-14 and :57-61): the
  existence check and its exact characterisation.
- `BookQueries`, `OrderQueries`: the query documents that getBooks and
  getOrders build, how the database evaluates them, and what the request
  parameters select.
- `Store`: the class with the eight controller actions, and a client method
  `Session` that walks through one book and one order using only the
  contracts.

Conventions of the model:
- A string field or query parameter that is `""` stands for one that is
  absent. JavaScript treats both as falsy, and Mongoose's `required` rejects
  both.
- An absent number or list is `None`.
- Clock readings (`now`) are parameters.
- Prices, quantities and dates are exact numbers (`real`, `int`).

Behaviour the code shows and the model keeps:
- **The duplicate quirk.** A request that lists the same existing book twice
  is rejected with `BooksNotFound`, because `$in` returns each book once.
  This applies to create and to update. The model keeps the quirk, and
  `OrderValidator.DuplicateEntryRejected` states it.
- **Empty list.** An empty books list passes the check: 0 books found, 0
  entries.
- **createOrder has three checks, in this order.**
  - A missing `books` list makes `books.map` throw, giving 400 (`Invalid`).
  - Then comes the existence check (`BooksNotFound`).
  - Then `save` runs the schema's validators (`Invalid`). These check the
    customer fields and each entry's quantity.
- **updateOrder checks the books before the order.** A new books list is
  checked before the order is looked up. So a bad list gives
  `BooksNotFound` even for an order id that does not exist, and a status
  sent in the same request is dropped.
- **Updates run no validators.** `findByIdAndUpdate` runs no schema
  validators under Mongoose's defaults. So updateBook can store an empty
  title, and updateOrder can store an entry without a quantity. The unique
  index on ISBN is enforced by the database on every write. So updateBook
  with an ISBN that another book holds is rejected (`DuplicateISBN`). A
  missing id is reported first, because then nothing is written.
- **Timestamps.** `timestamps: true` makes every successful update refresh
  `updatedAt`, and an otherwise empty update does so too. An updateOrder
  with neither field therefore returns the order unchanged except for
  `updatedAt`.
- **Default lower price bound.** When getBooks is given only `maxPrice`, the
  lower bound defaults to 0. The schema does not forbid negative prices, and
  books with one then drop out of the result.
- **Schema constraints.** Quantities and prices carry no sign or integrality
  constraint in the schema, and the model adds none.

Where the code departs from its own documentation, the model follows the
code: the API documentation in src/routes/bookRoutes.js:96-150 describes
pagination and a free-text search, and getBooks implements neither.

updateOrder applies a status only when it is truthy
(src/controllers/orderController.js:54). An empty status is ignored like a
missing one.

## Model

| member | source | states |
|---|---|---|
| `OrderValidator.FoundCount` | src/controllers/orderController.js:10-12 | the number of distinct catalog books found for a request never exceeds its number of entries |
| `OrderValidator.RequestedIdsBound` | src/controllers/orderController.js:10 | a request names at most as many ids as it has entries, and exactly as many iff no id repeats |
| `OrderValidator.AllBooksExistIff` | src/controllers/orderController.js:10-14 | the check passes iff every entry names a catalog book AND no book is named by two entries (both directions) |
| `OrderValidator.DuplicateEntryRejected` | src/controllers/orderController.js:57-61 | two entries naming the same book make the check fail, even when the book exists |
| `OrderValidator.MissingBookRejected` | src/controllers/orderController.js:11-14 | one entry naming a book outside the catalog makes the check fail |
| `OrderValidator.EmptyRequestPasses` | src/controllers/orderController.js:55-59 | an empty books list passes the check |
| `OrderValidator.QuantitiesIgnored` | src/controllers/orderController.js:10 | the check depends only on the requested ids, never on the quantities |
| `BookModel.PutKeepsUniqueIsbns` | src/models/bookModel.js:7 | writing a book under an id keeps ISBNs unique iff no other book already carries its ISBN |
| `OrderQueries.NameFilterIgnoresCase` | src/controllers/orderController.js:30 | the customerName filter selects the same orders whatever the case of the filter text |
| `OrderQueries.NameFilterIgnoresStoredCase` | src/controllers/orderController.js:30 | and whatever the case of the stored name |
| `OrderQueries.NameMatchesItself` | src/controllers/orderController.js:30 | under the substring reading of the name filter, a customer's full name selects that customer's orders; this holds in the program only for names without regular-expression metacharacters |
| `Store.Bookstore.CreateBook` | src/controllers/bookController.js:4-13 | missing required field gives Invalid; otherwise an ISBN already in the catalog gives DuplicateISBN; both leave the catalog unchanged; otherwise exactly one new book with the five given fields and both timestamps set to now |
| `Store.Bookstore.GetBooks` | src/controllers/bookController.js:16-29 | exactly the catalog books with the given genre, the given author, and the price within [minPrice or 0, maxPrice or unbounded] when either bound is given; no filters gives the whole catalog; always a sub-map of the catalog |
| `Store.Bookstore.UpdateBook` | src/controllers/bookController.js:32-40 | missing id gives BookNotFound; an ISBN held by another book gives DuplicateISBN; neither changes anything; otherwise the given fields replace the stored ones, creation time kept, updatedAt refreshed, other books untouched, the updated book returned |
| `Store.Bookstore.DeleteBook` | src/controllers/bookController.js:43-51 | Ok iff the id was in the catalog; afterwards it is not; every other book and every order, dangling references included, is untouched |
| `Store.Bookstore.CreateOrder` | src/controllers/orderController.js:5-23 | no books list gives Invalid; the failed existence check gives BooksNotFound; a schema violation gives Invalid; none changes the store; otherwise exactly one new order with the given customer fields, the books list as submitted and in order, status "Pending" and orderDate now |
| `Store.Bookstore.GetOrders` | src/controllers/orderController.js:26-45 | exactly the orders whose name contains the filter ignoring case, whose status equals the filter, and whose orderDate lies within the given inclusive bounds; no filters gives every order |
| `Store.Bookstore.UpdateOrder` | src/controllers/orderController.js:48-77 | an invalid books list gives BooksNotFound whatever the id and changes nothing, status included; then a missing id gives OrderNotFound and creates nothing; otherwise a non-empty status replaces the stored one, a books list replaces the stored list, customer fields, orderDate and createdAt stay, updatedAt is refreshed |
| `Store.Bookstore.DeleteOrder` | src/controllers/orderController.js:80-92 | Ok iff the id was stored; afterwards it is not, and every other order is untouched |

## Left out

- HTTP and Express plumbing: routers, status codes as numbers, JSON bodies, and the mount points in src/app.js. `Outcome` stands for the response.
- The API documentation in src/routes/*.js and src/swagger/swaggerConfig.js. It is text only, and describes pagination, page counts and search that no controller implements.
- Authentication (src/controllers/authController.js and the token middleware). It consists of password hashing, token signing and secrets, all foreign calls. The middleware is not part of this model.
- The `populate` join in getOrders and updateOrder. It only expands book references in the response, and stored data is never changed by it.
- Store.Bookstore.GetOrders: `$regex` is read as a plain case-insensitive substring test with ASCII case folding. Regular-expression syntax in the filter text and Unicode case folding are not modelled.
- Store.Bookstore.GetBooks: the result is a map, so the order in which the database returns documents is not modelled. The same holds for Store.Bookstore.GetOrders.
- ObjectId casting errors (a malformed id gives 400 or 500), and database or connection failures (500). The model has no malformed ids and no failing database.
- Parsing of date strings, and the coercion of query strings to numbers. Query parameters arrive already typed.
- JSON values of the wrong type (a number sent as a name), `null` sent to clear a field in an update, body fields outside the schema, and an order entry without a `bookId`. Request bodies are typed datatypes in the model.
- The race between the existence check and the write. The model is sequential.
- Floating point. Prices and quantities are exact reals.
