/**
 * The Order document (src/models/orderModel.js): customer fields, the list of
 * ordered books, and the defaults for status and orderDate.
 */
module OrderModel {
  import opened Options
  import opened BookModel

  /** The identifier MongoDB assigns to an order document. */
  type OrderId = nat

  /**
   * One entry of an order's books list: a reference to a Book (which the
   * schema does not check for existence) and a quantity, which is required but
   * may be any number, zero, negative or fractional included.
   */
  datatype BookRef = BookRef(bookId: BookId, quantity: Option<real>)

  /** A stored order. Dates are instants on an integer clock. */
  datatype Order = Order(
    customerName: string,
    customerEmail: string,
    books: seq<BookRef>,
    status: string,
    orderDate: int,
    createdAt: int,
    updatedAt: int)

  /** The schema's default status. */
  const DefaultStatus: string := "Pending"

  /** What the schema demands of an order before it is first saved. */
  predicate SchemaValid(customerName: string, customerEmail: string, books: seq<BookRef>) {
    && RequiredString(customerName)
    && RequiredString(customerEmail)
    && forall i :: 0 <= i < |books| ==> books[i].quantity.Some?
  }

  /**
   * `after` is what updateOrder makes of `before` for the request fields
   * `status` ("" when absent or empty) and `books` at time `now`: a non-empty
   * status replaces the stored one, a books list replaces the stored list
   * whole, the customer fields, orderDate and creation time stay, and the
   * modification time is refreshed.
   */
  predicate UpdateApplied(before: Order, status: string, books: Option<seq<BookRef>>, now: int, after: Order) {
    && after.status == (if status != "" then status else before.status)
    && after.books == (if books.Some? then books.value else before.books)
    && after.customerName == before.customerName
    && after.customerEmail == before.customerEmail
    && after.orderDate == before.orderDate
    && after.createdAt == before.createdAt
    && after.updatedAt == now
  }

  /**
   * What holds of every stored order, whatever updates it went through: the
   * customer fields are present and the status is non-empty. (The quantities
   * are checked only at creation, since updates run no validators.)
   */
  predicate Stored(o: Order) {
    RequiredString(o.customerName) && RequiredString(o.customerEmail) && o.status != ""
  }
}
