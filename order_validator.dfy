/**
 * The check that createOrder and updateOrder make before writing a books list
 * (src/controllers/orderController.js): the catalog is asked for every book
 * whose id is among the requested ones, and the request passes when the
 * number of books found equals the number of requested ENTRIES. A query with
 * `$in` returns each matching book once, so an entry repeated in the request
 * makes the counts differ.
 */
module OrderValidator {
  import opened BookModel
  import opened OrderModel

  /** The ids the request names: `books.map((book) => book.bookId)` as a set. */
  function RequestedIds(refs: seq<BookRef>): set<BookId> {
    set i | 0 <= i < |refs| :: refs[i].bookId
  }

  /** The books `Book.find({ _id: { $in: bookIds } })` returns, by id. */
  function FoundIds(catalog: map<BookId, Book>, refs: seq<BookRef>): set<BookId> {
    RequestedIds(refs) * catalog.Keys
  }

  /** `foundBooks.length`: never more than the number of requested entries. */
  function FoundCount(catalog: map<BookId, Book>, refs: seq<BookRef>): (n: nat)
    ensures n <= |refs|
  {
    RequestedIdsBound(refs);
    SubsetSize(FoundIds(catalog, refs), RequestedIds(refs));
    |FoundIds(catalog, refs)|
  }

  /** The validator passes: `foundBooks.length === books.length`. */
  predicate AllBooksExist(catalog: map<BookId, Book>, refs: seq<BookRef>) {
    FoundCount(catalog, refs) == |refs|
  }

  /** Every requested entry names a book of the catalog. */
  predicate AllReferenced(catalog: map<BookId, Book>, refs: seq<BookRef>) {
    forall i :: 0 <= i < |refs| ==> refs[i].bookId in catalog
  }

  /** No book is named by two entries of the request. */
  predicate DistinctBookIds(refs: seq<BookRef>) {
    forall i, j :: 0 <= i < j < |refs| ==> refs[i].bookId != refs[j].bookId
  }

  lemma RequestedIdsCons(refs: seq<BookRef>)
    requires refs != []
    ensures RequestedIds(refs) == {refs[0].bookId} + RequestedIds(refs[1..])
  {
    var rest := refs[1..];
    forall x | x in RequestedIds(refs) ensures x in {refs[0].bookId} + RequestedIds(rest) {
      var i :| 0 <= i < |refs| && refs[i].bookId == x;
      if i > 0 { assert rest[i - 1].bookId == x; }
    }
    forall x | x in RequestedIds(rest) ensures x in RequestedIds(refs) {
      var i :| 0 <= i < |rest| && rest[i].bookId == x;
      assert refs[i + 1].bookId == x;
    }
  }

  /**
   * A request names at most as many ids as it has entries, and exactly as
   * many when no id is repeated.
   */
  lemma {:induction false} RequestedIdsBound(refs: seq<BookRef>)
    ensures |RequestedIds(refs)| <= |refs|
    ensures |RequestedIds(refs)| == |refs| <==> DistinctBookIds(refs)
  {
    if refs == [] {
      assert RequestedIds(refs) == {};
    } else {
      var rest := refs[1..];
      RequestedIdsCons(refs);
      RequestedIdsBound(rest);
      var h := refs[0].bookId;
      if h in RequestedIds(rest) {
        assert RequestedIds(refs) == RequestedIds(rest);
        var i :| 0 <= i < |rest| && rest[i].bookId == h;
        assert refs[0].bookId == refs[i + 1].bookId;
      } else {
        assert |RequestedIds(refs)| == |RequestedIds(rest)| + 1;
        if DistinctBookIds(rest) {
          forall i, j | 0 <= i < j < |refs| ensures refs[i].bookId != refs[j].bookId {
            if i == 0 {
              assert refs[j].bookId == rest[j - 1].bookId;
            } else {
              assert refs[i].bookId == rest[i - 1].bookId && refs[j].bookId == rest[j - 1].bookId;
            }
          }
        } else {
          var i, j :| 0 <= i < j < |rest| && rest[i].bookId == rest[j].bookId;
          assert refs[i + 1].bookId == refs[j + 1].bookId;
        }
      }
    }
  }

  /** A subset of a finite set is no larger, and only as large when it is the set itself. */
  lemma SubsetSize<T>(a: set<T>, b: set<T>)
    requires a <= b
    ensures |a| <= |b|
    ensures |a| == |b| ==> a == b
  {
    assert b == a + (b - a);
    assert |b| == |a| + |b - a|;
  }

  /**
   * The validator passes exactly when every entry names a catalog book and no
   * book is named twice.
   */
  lemma {:induction false} AllBooksExistIff(catalog: map<BookId, Book>, refs: seq<BookRef>)
    ensures AllBooksExist(catalog, refs) <==> AllReferenced(catalog, refs) && DistinctBookIds(refs)
  {
    var req := RequestedIds(refs);
    var found := FoundIds(catalog, refs);
    RequestedIdsBound(refs);
    SubsetSize(found, req);
    if AllBooksExist(catalog, refs) {
      assert |req| == |refs|;
      forall i | 0 <= i < |refs| ensures refs[i].bookId in catalog {
        assert refs[i].bookId in req;
      }
    }
    if AllReferenced(catalog, refs) && DistinctBookIds(refs) {
      forall x | x in req ensures x in found {
        var i :| 0 <= i < |refs| && refs[i].bookId == x;
      }
      assert found == req;
    }
  }

  /**
   * The duplicate quirk: a request that names the same book in two entries is
   * rejected, even when that book exists.
   */
  lemma DuplicateEntryRejected(catalog: map<BookId, Book>, refs: seq<BookRef>, i: nat, j: nat)
    requires i < j < |refs| && refs[i].bookId == refs[j].bookId
    ensures !AllBooksExist(catalog, refs)
  {
    AllBooksExistIff(catalog, refs);
  }

  /** A request naming a book the catalog lacks is rejected. */
  lemma MissingBookRejected(catalog: map<BookId, Book>, refs: seq<BookRef>, i: nat)
    requires i < |refs| && refs[i].bookId !in catalog
    ensures !AllBooksExist(catalog, refs)
  {
    AllBooksExistIff(catalog, refs);
  }

  /** An empty books list passes: no book is asked for and none is found. */
  lemma EmptyRequestPasses(catalog: map<BookId, Book>)
    ensures AllBooksExist(catalog, [])
  {
  }

  /** Quantities play no part in the check; only the ids do. */
  lemma {:induction false} QuantitiesIgnored(catalog: map<BookId, Book>, refs: seq<BookRef>, refs': seq<BookRef>)
    requires |refs| == |refs'|
    requires forall i :: 0 <= i < |refs| ==> refs[i].bookId == refs'[i].bookId
    ensures AllBooksExist(catalog, refs) == AllBooksExist(catalog, refs')
  {
    AllBooksExistIff(catalog, refs);
    AllBooksExistIff(catalog, refs');
  }
}
