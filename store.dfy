/**
 * The two controllers (src/controllers/bookController.js and
 * src/controllers/orderController.js) acting on the database, which is shown
 * here as two keyed tables held by one object. Each method is one controller
 * action and returns the outcome that decides the HTTP response.
 */
module Store {
  import opened Options
  import opened BookModel
  import opened OrderModel
  import opened OrderValidator
  import BookQueries
  import OrderQueries

  /** The outcome of a controller action; the comment gives the HTTP status sent. */
  datatype Outcome =
    | Created        // 201, the saved document is returned
    | Ok             // 200
    | BooksNotFound  // 404, 'Some books are not found in inventory.'
    | OrderNotFound  // 404, 'Order not found.'
    | BookNotFound   // 404, 'Book not found'
    | DuplicateISBN  // 400, duplicate key on the unique ISBN index
    | Invalid        // 400, a schema validation error, or no books list to map over

  /** The `updatedFields` document that updateOrder fills field by field. */
  datatype OrderUpdate = OrderUpdate(status: Option<string>, books: Option<seq<BookRef>>)

  /** `findByIdAndUpdate(id, update)` on one order: `$set` of the present fields, plus the timestamp. */
  function ApplyUpdate(o: Order, u: OrderUpdate, now: int): Order {
    o.(status := if u.status.Some? then u.status.value else o.status,
       books := if u.books.Some? then u.books.value else o.books,
       updatedAt := now)
  }

  class Bookstore {
    /** The Book collection. */
    var books: map<BookId, Book>
    /** The Order collection. */
    var orders: map<OrderId, Order>
    /** The ids the database will assign next; ids are never reused. */
    var nextBookId: BookId
    var nextOrderId: OrderId

    /**
     * Every id in use was handed out already, ISBNs are unique across the
     * catalog, and every stored order has its customer fields and a status.
     * Nothing ties an order's book references to the catalog.
     */
    ghost predicate Valid()
      reads this
    {
      && (forall id :: id in books ==> id < nextBookId)
      && (forall id :: id in orders ==> id < nextOrderId)
      && UniqueIsbns(books)
      && (forall id :: id in orders ==> Stored(orders[id]))
    }

    /** An empty database. */
    constructor ()
      ensures Valid()
      ensures books == map[] && orders == map[]
    {
      books, orders := map[], map[];
      nextBookId, nextOrderId := 0, 0;
    }

    /**
     * createBook: `new Book(fields).save()`. Schema validation comes first
     * (Invalid), then the unique index on ISBN (DuplicateISBN); otherwise the
     * book is stored under a new id.
     */
    method CreateBook(input: BookInput, now: int) returns (outcome: Outcome, id: BookId)
      requires Valid()
      modifies this`books, this`nextBookId
      ensures Valid()
      ensures outcome == Created || outcome == Invalid || outcome == DuplicateISBN
      ensures outcome == Invalid <==> !BookModel.SchemaValid(input)
      ensures outcome == DuplicateISBN <==> BookModel.SchemaValid(input) && IsbnTaken(old(books), input.isbn)
      ensures outcome == Created ==>
        && id !in old(books) && id in books
        && books == old(books)[id := books[id]]
        && books[id].title == input.title && books[id].author == input.author
        && books[id].genre == input.genre && books[id].isbn == input.isbn
        && Some(books[id].price) == input.price
        && books[id].createdAt == now && books[id].updatedAt == now
      ensures outcome != Created ==> books == old(books)
    {
      id := 0;
      if !BookModel.SchemaValid(input) {
        return Invalid, id;
      }
      if IsbnTaken(books, input.isbn) {
        return DuplicateISBN, id;
      }
      id := nextBookId;
      var book := Book(input.title, input.author, input.genre, input.isbn, input.price.value, now, now);
      assert books - {id} == books;
      PutKeepsUniqueIsbns(books, id, book);
      books := books[id := book];
      nextBookId := nextBookId + 1;
      outcome := Created;
    }

    /**
     * getBooks: the query document is built field by field from the present
     * parameters and run against the catalog.
     */
    method GetBooks(genre: string, author: string, minPrice: Option<real>, maxPrice: Option<real>)
      returns (result: map<BookId, Book>)
      ensures result.Keys <= books.Keys
      ensures forall id :: id in result ==> result[id] == books[id]
      ensures forall id :: id in books ==>
        (id in result <==> BookQueries.Selected(books[id], genre, author, minPrice, maxPrice))
      ensures genre == "" && author == "" && minPrice.None? && maxPrice.None? ==> result == books
    {
      var query := BookQueries.EmptyQuery;
      if genre != "" {
        query := query.(genre := Some(genre));
      }
      if author != "" {
        query := query.(author := Some(author));
      }
      if minPrice.Some? || maxPrice.Some? {
        var min := if minPrice.Some? then minPrice.value else 0.0;
        query := query.(price := Some(BookQueries.PriceRange(min, maxPrice)));
      }
      result := BookQueries.Find(books, query);
    }

    /**
     * updateBook: `findByIdAndUpdate(id, body)`. A missing id writes nothing;
     * an ISBN held by another book trips the unique index; otherwise the
     * fields given replace the stored ones. No schema validator runs.
     */
    method UpdateBook(id: BookId, patch: BookPatch, now: int) returns (outcome: Outcome, updated: Option<Book>)
      requires Valid()
      modifies this`books
      ensures Valid()
      ensures outcome == Ok || outcome == BookNotFound || outcome == DuplicateISBN
      ensures outcome == BookNotFound <==> id !in old(books)
      ensures outcome == DuplicateISBN <==>
        id in old(books) && patch.isbn.Some? && IsbnTaken(old(books) - {id}, patch.isbn.value)
      ensures outcome != Ok ==> books == old(books) && updated == None
      ensures outcome == Ok ==>
        && id in books
        && updated == Some(books[id])
        && books == old(books)[id := books[id]]
        && PatchApplied(old(books)[id], patch, now, books[id])
    {
      if id !in books {
        return BookNotFound, None;
      }
      var book := books[id];
      if patch.title.Some? {
        book := book.(title := patch.title.value);
      }
      if patch.author.Some? {
        book := book.(author := patch.author.value);
      }
      if patch.genre.Some? {
        book := book.(genre := patch.genre.value);
      }
      if patch.isbn.Some? {
        book := book.(isbn := patch.isbn.value);
      }
      if patch.price.Some? {
        book := book.(price := patch.price.value);
      }
      book := book.(updatedAt := now);
      PutKeepsUniqueIsbns(books, id, book);
      if IsbnTaken(books - {id}, book.isbn) {
        return DuplicateISBN, None;
      }
      books := books[id := book];
      outcome, updated := Ok, Some(book);
    }

    /**
     * deleteBook: `findByIdAndDelete(id)`. Orders that reference the book are
     * left as they are.
     */
    method DeleteBook(id: BookId) returns (outcome: Outcome)
      requires Valid()
      modifies this`books
      ensures Valid()
      ensures outcome == (if id in old(books) then Ok else BookNotFound)
      ensures books == old(books) - {id}
      ensures id !in books
      ensures orders == old(orders)
    {
      outcome := if id in books then Ok else BookNotFound;
      books := books - {id};
    }

    /**
     * createOrder: `books.map` fails when no list is sent (Invalid); the
     * existence check rejects with BooksNotFound; then saving runs the
     * schema's validators (Invalid); otherwise the order is stored with the
     * default status and date.
     */
    method CreateOrder(customerName: string, customerEmail: string, refs: Option<seq<BookRef>>, now: int)
      returns (outcome: Outcome, id: OrderId)
      requires Valid()
      modifies this`orders, this`nextOrderId
      ensures Valid()
      ensures outcome == Created || outcome == Invalid || outcome == BooksNotFound
      ensures outcome == BooksNotFound <==> refs.Some? && !AllBooksExist(books, refs.value)
      ensures outcome == Created <==>
        refs.Some? && AllBooksExist(books, refs.value) && OrderModel.SchemaValid(customerName, customerEmail, refs.value)
      ensures outcome == Created ==>
        && id !in old(orders) && id in orders
        && orders == old(orders)[id := orders[id]]
        && orders[id].customerName == customerName && orders[id].customerEmail == customerEmail
        && orders[id].books == refs.value
        && orders[id].status == DefaultStatus
        && orders[id].orderDate == now && orders[id].createdAt == now && orders[id].updatedAt == now
      ensures outcome != Created ==> orders == old(orders)
    {
      id := 0;
      if refs.None? {
        return Invalid, id;
      }
      if !AllBooksExist(books, refs.value) {
        return BooksNotFound, id;
      }
      if !OrderModel.SchemaValid(customerName, customerEmail, refs.value) {
        return Invalid, id;
      }
      id := nextOrderId;
      var order := Order(customerName, customerEmail, refs.value, DefaultStatus, now, now, now);
      orders := orders[id := order];
      nextOrderId := nextOrderId + 1;
      outcome := Created;
    }

    /**
     * getOrders: the query document is built from the present parameters and
     * run against the order table.
     */
    method GetOrders(customerName: string, status: string, startDate: Option<int>, endDate: Option<int>)
      returns (result: map<OrderId, Order>)
      ensures result.Keys <= orders.Keys
      ensures forall id :: id in result ==> result[id] == orders[id]
      ensures forall id :: id in orders ==>
        (id in result <==> OrderQueries.Selected(orders[id], customerName, status, startDate, endDate))
      ensures customerName == "" && status == "" && startDate.None? && endDate.None? ==> result == orders
    {
      var query := OrderQueries.EmptyQuery;
      if customerName != "" {
        query := query.(customerName := Some(customerName));
      }
      if status != "" {
        query := query.(status := Some(status));
      }
      if startDate.Some? || endDate.Some? {
        query := query.(orderDate := Some(OrderQueries.DateRange(startDate, endDate)));
      }
      result := OrderQueries.Find(orders, query);
    }

    /**
     * updateOrder: the update document takes the status when it is non-empty;
     * a books list is checked against the catalog BEFORE the order is looked
     * up, and a failed check rejects the whole request; only then does a
     * missing order give OrderNotFound.
     */
    method UpdateOrder(id: OrderId, status: string, refs: Option<seq<BookRef>>, now: int)
      returns (outcome: Outcome, updated: Option<Order>)
      requires Valid()
      modifies this`orders
      ensures Valid()
      ensures outcome == Ok || outcome == BooksNotFound || outcome == OrderNotFound
      ensures outcome == BooksNotFound <==> refs.Some? && !AllBooksExist(books, refs.value)
      ensures outcome == OrderNotFound <==> (refs.None? || AllBooksExist(books, refs.value)) && id !in old(orders)
      ensures outcome != Ok ==> orders == old(orders) && updated == None
      ensures outcome == Ok ==>
        && id in orders
        && updated == Some(orders[id])
        && orders == old(orders)[id := orders[id]]
        && UpdateApplied(old(orders)[id], status, refs, now, orders[id])
      ensures outcome == Ok && status == "" && refs.None? ==> orders[id] == old(orders)[id].(updatedAt := now)
    {
      var update := OrderUpdate(None, None);
      if status != "" {
        update := update.(status := Some(status));
      }
      if refs.Some? {
        if !AllBooksExist(books, refs.value) {
          return BooksNotFound, None;
        }
        update := update.(books := refs);
      }
      if id !in orders {
        return OrderNotFound, None;
      }
      var order := ApplyUpdate(orders[id], update, now);
      orders := orders[id := order];
      outcome, updated := Ok, Some(order);
    }

    /** deleteOrder: `findByIdAndDelete(id)`, with no check on anything else. */
    method DeleteOrder(id: OrderId) returns (outcome: Outcome)
      requires Valid()
      modifies this`orders
      ensures Valid()
      ensures outcome == (if id in old(orders) then Ok else OrderNotFound)
      ensures orders == old(orders) - {id}
      ensures id !in orders
    {
      outcome := if id in orders then Ok else OrderNotFound;
      orders := orders - {id};
    }
  }

  /**
   * A client of the contracts above, walking through one session: a book,
   * an order for it, a status update, the duplicate-entry quirk, a duplicate
   * ISBN, and a book deleted under an order that still names it.
   */
  method Session() {
    var store := new Bookstore();
    var input := BookInput("A", "B", "Fiction", "123", Some(10.0));
    var outcome, a := store.CreateBook(input, 1);
    assert outcome == Created && a in store.books;

    var again, _ := store.CreateBook(BookInput("C", "D", "Poetry", "123", Some(5.0)), 2);
    assert IsbnTaken(store.books, "123");
    assert again == DuplicateISBN;

    var entry := BookRef(a, Some(2.0));
    AllBooksExistIff(store.books, [entry]);
    var placed, o := store.CreateOrder("X", "x@x.com", Some([entry]), 3);
    assert placed == Created;
    assert store.orders[o].status == DefaultStatus;

    var shipped, after := store.UpdateOrder(o, "Shipped", None, 4);
    assert shipped == Ok;
    assert after.value.status == "Shipped" && after.value.books == [entry];

    DuplicateEntryRejected(store.books, [entry, entry], 0, 1);
    var twice, _ := store.UpdateOrder(o, "Delivered", Some([entry, entry]), 5);
    assert twice == BooksNotFound;
    assert store.orders[o].status == "Shipped";

    var gone := store.DeleteBook(a);
    assert gone == Ok;
    assert store.orders[o].books == [entry] && a !in store.books;
  }
}
