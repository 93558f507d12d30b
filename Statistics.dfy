/** What display_statistics computes before printing it. */
module Statistics {
  import opened Books
  import opened Filters

  /** Total number of books, number marked read, and the percentage read. */
  datatype Stats = Stats(total: nat, readBooks: nat, percentage: real)

  /**
   * The counts of a library: the percentage is the read fraction times 100,
   * and 0 for an empty library instead of a division by zero.
   */
  function Summarize(books: seq<Book>): (r: Stats)
    ensures r.total == |books|
    ensures r.readBooks <= r.total
    ensures r.readBooks + Rejected(books, IsRead) == r.total
    ensures 0.0 <= r.percentage <= 100.0
    ensures r.total == 0 ==> r.percentage == 0.0
    ensures r.total > 0 ==> r.percentage * (r.total as real) == (r.readBooks as real) * 100.0
  {
    FilterLength(books, IsRead);
    var total := |books|;
    var readBooks := |Filter(books, IsRead)|;
    assert total > 0 ==> readBooks as real / total as real <= 1.0 by {
      if total > 0 {
        assert readBooks as real <= total as real;
        assert (readBooks as real / total as real) * (total as real) == readBooks as real;
      }
    }
    var percentage := if total > 0 then (readBooks as real / total as real) * 100.0 else 0.0;
    Stats(total, readBooks, percentage)
  }

  /** Adding a book raises the total by one and the read count by one exactly when it is read. */
  lemma SummarizeAfterAdd(books: seq<Book>, b: Book)
    ensures Summarize(books + [b]).total == Summarize(books).total + 1
    ensures Summarize(books + [b]).readBooks == Summarize(books).readBooks + (if b.read then 1 else 0)
  {
    FilterSnoc(books, IsRead, b);
  }

  /** Every book is read exactly when the percentage is 100, in a library that is not empty. */
  lemma AllReadIffHundred(books: seq<Book>)
    requires books != []
    ensures Summarize(books).percentage == 100.0 <==> forall i :: 0 <= i < |books| ==> books[i].read
  {
    var r := Summarize(books);
    assert r.percentage * (r.total as real) == (r.readBooks as real) * 100.0;
    assert r.percentage == 100.0 <==> r.readBooks == r.total by {
      if r.percentage == 100.0 {
        assert (r.total as real) * 100.0 == (r.readBooks as real) * 100.0;
      }
    }
    RejectedNone(books, IsRead);
  }
}
