/**
 * The filter of getOrders (src/controllers/orderController.js): the query
 * document, its evaluation, and the case-insensitive name match that the
 * `$regex` with option 'i' performs, taken here as plain substring search
 * under ASCII case folding.
 */
module OrderQueries {
  import opened Options
  import opened OrderModel

  /** ASCII upper case to lower case; every other character is kept. */
  function LowerChar(c: char): char {
    if 'A' <= c <= 'Z' then (c as int - 'A' as int + 'a' as int) as char else c
  }

  /** ASCII lower case to upper case; every other character is kept. */
  function UpperChar(c: char): char {
    if 'a' <= c <= 'z' then (c as int - 'a' as int + 'A' as int) as char else c
  }

  function Lower(s: string): string {
    seq(|s|, i requires 0 <= i < |s| => LowerChar(s[i]))
  }

  function Upper(s: string): string {
    seq(|s|, i requires 0 <= i < |s| => UpperChar(s[i]))
  }

  /** `needle` occurs in `hay` at position `at`, letters compared without case. */
  predicate OccursAt(hay: string, needle: string, at: nat) {
    at + |needle| <= |hay| && Lower(hay[at..at + |needle|]) == Lower(needle)
  }

  /** `{ $regex: needle, $options: 'i' }` read as a case-insensitive "contains". */
  predicate ContainsIgnoringCase(hay: string, needle: string) {
    exists at: nat :: at <= |hay| && OccursAt(hay, needle, at)
  }

  /** `{ $gte: start, $lte: end }` on orderDate, either bound optional. */
  datatype DateRange = DateRange(start: Option<int>, end: Option<int>)

  /** The query document of getOrders. */
  datatype OrderQuery = OrderQuery(customerName: Option<string>, status: Option<string>, orderDate: Option<DateRange>)

  /** `{}`: matches every order. */
  const EmptyQuery: OrderQuery := OrderQuery(None, None, None)

  /** The database's evaluation of a query document against one order. */
  predicate Matches(o: Order, q: OrderQuery) {
    && (q.customerName.Some? ==> ContainsIgnoringCase(o.customerName, q.customerName.value))
    && (q.status.Some? ==> o.status == q.status.value)
    && (q.orderDate.Some? ==>
         && (q.orderDate.value.start.Some? ==> q.orderDate.value.start.value <= o.orderDate)
         && (q.orderDate.value.end.Some? ==> o.orderDate <= q.orderDate.value.end.value))
  }

  /** `Order.find(query)`: the orders of the store that match. */
  function Find(orders: map<OrderId, Order>, q: OrderQuery): map<OrderId, Order> {
    map id | id in orders && Matches(orders[id], q) :: orders[id]
  }

  /**
   * What the parameters of getOrders select: "" or None is an absent (falsy)
   * parameter; the date bounds are inclusive.
   */
  predicate Selected(o: Order, customerName: string, status: string, startDate: Option<int>, endDate: Option<int>) {
    && (customerName != "" ==> ContainsIgnoringCase(o.customerName, customerName))
    && (status != "" ==> o.status == status)
    && (startDate.Some? ==> startDate.value <= o.orderDate)
    && (endDate.Some? ==> o.orderDate <= endDate.value)
  }

  lemma LowerOfUpper(s: string)
    ensures Lower(Upper(s)) == Lower(s)
  {
  }

  /**
   * The name filter does not care about the case of the filter text: writing
   * it in upper case selects the same names.
   */
  lemma {:induction false} NameFilterIgnoresCase(hay: string, needle: string)
    ensures ContainsIgnoringCase(hay, Upper(needle)) <==> ContainsIgnoringCase(hay, needle)
  {
    LowerOfUpper(needle);
    if ContainsIgnoringCase(hay, needle) {
      var at: nat :| at <= |hay| && OccursAt(hay, needle, at);
      assert OccursAt(hay, Upper(needle), at);
    }
    if ContainsIgnoringCase(hay, Upper(needle)) {
      var at: nat :| at <= |hay| && OccursAt(hay, Upper(needle), at);
      assert OccursAt(hay, needle, at);
    }
  }

  /** Nor about the case of the stored name: a name matches in any spelling. */
  lemma {:induction false} NameFilterIgnoresStoredCase(hay: string, needle: string)
    ensures ContainsIgnoringCase(Upper(hay), needle) <==> ContainsIgnoringCase(hay, needle)
  {
    if ContainsIgnoringCase(hay, needle) {
      var at: nat :| at <= |hay| && OccursAt(hay, needle, at);
      UpperSliceLower(hay, at, at + |needle|);
      assert OccursAt(Upper(hay), needle, at);
    }
    if ContainsIgnoringCase(Upper(hay), needle) {
      var at: nat :| at <= |hay| && OccursAt(Upper(hay), needle, at);
      UpperSliceLower(hay, at, at + |needle|);
      assert OccursAt(hay, needle, at);
    }
  }

  lemma UpperSliceLower(s: string, i: nat, j: nat)
    requires i <= j <= |s|
    ensures Lower(Upper(s)[i..j]) == Lower(s[i..j])
  {
  }

  /** Every name matches itself, and so a full name filter finds its customer. */
  lemma NameMatchesItself(name: string)
    ensures ContainsIgnoringCase(name, name)
  {
    assert name[0..|name|] == name;
    assert OccursAt(name, name, 0);
  }
}
