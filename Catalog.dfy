/**
 * The in-memory library PLM.py threads through its operations: an ordered
 * list of book records that add_book and remove_book change in place.
 * Persisting the list is not modelled; each mutating operation reports
 * instead whether it would save.
 */
module Catalog {
  import opened Text
  import opened Books
  import opened Filters
  import opened Statistics

  class Library {
    /** The records in insertion order; duplicate titles are allowed. */
    var books: seq<Book>

    /** A library holding what was loaded at start-up. */
    constructor (loaded: seq<Book>)
      ensures books == loaded
    {
      books := loaded;
    }

    /**
     * add_book: append the new record at the end, without any uniqueness
     * check, and save.
     */
    method Add(title: string, author: string, year: string, genre: string, readAnswer: string)
      returns (saved: bool)
      modifies this
      ensures books == old(books) + [NewBook(title, author, year, genre, readAnswer)]
      ensures |books| == |old(books)| + 1
      ensures books[..|old(books)|] == old(books)
      ensures books[|books| - 1] == Book(title, author, year, genre, ReadAnswer(readAnswer))
      ensures saved
    {
      var newBook := NewBook(title, author, year, genre, readAnswer);
      books := books + [newBook];
      assert books[..|old(books)|] == old(books);
      saved := true;
    }

    /**
     * remove_book: keep only the books whose title differs from the given one
     * ignoring case, and save exactly when the list became shorter.
     */
    method Remove(title: string) returns (saved: bool)
      modifies this
      ensures books == Filter(old(books), TitleDiffers(title))
      ensures forall b :: b in books <==> b in old(books) && Lower(b.title) != Lower(title)
      ensures IsSubsequence(books, old(books))
      ensures |old(books)| - |books| == Rejected(old(books), TitleDiffers(title))
      ensures saved <==> |books| < |old(books)|
      ensures saved <==> exists i :: 0 <= i < |old(books)| && Lower(old(books)[i].title) == Lower(title)
      ensures !saved ==> books == old(books)
    {
      var initialLength := |books|;
      ghost var before := books;
      books := Filter(books, TitleDiffers(title));
      forall b
        ensures b in books <==> b in before && Lower(b.title) != Lower(title)
      {
        FilterMembership(before, TitleDiffers(title), b);
      }
      FilterSubsequence(before, TitleDiffers(title));
      FilterLength(before, TitleDiffers(title));
      RejectedNone(before, TitleDiffers(title));
      if Rejected(before, TitleDiffers(title)) == 0 {
        FilterKeepsAll(before, TitleDiffers(title));
      }
      saved := |books| < initialLength;
    }

    /**
     * search_library: lower-case the field name and the term, then collect,
     * in library order, every book that has that field and whose lower-cased
     * value contains the term. The library is not changed.
     */
    method Search(searchBy: string, searchTerm: string) returns (results: seq<Book>)
      ensures results == Filter(books, FieldContains(Lower(searchBy), Lower(searchTerm)))
      ensures IsSubsequence(results, books)
      ensures forall b :: b in results <==>
        b in books && Field(b, Lower(searchBy)).Some? &&
        Contains(Lower(searchTerm), Lower(Field(b, Lower(searchBy)).value))
      ensures Lower(searchBy) !in FieldNames ==> results == []
    {
      var key := Lower(searchBy);
      var term := Lower(searchTerm);
      results := [];
      var i := 0;
      while i < |books|
        invariant 0 <= i <= |books|
        invariant results == Filter(books[..i], FieldContains(key, term))
      {
        var b := books[i];
        var hit := false;
        match Field(b, key) {
          case Some(v) => hit := Contains(term, Lower(v));
          case None =>
        }
        if hit {
          results := results + [b];
        }
        assert books[..i + 1] == books[..i] + [b];
        FilterSnoc(books[..i], FieldContains(key, term), b);
        i := i + 1;
      }
      assert books[..i] == books;
      forall b
        ensures b in results <==> b in books && Accepts(FieldContains(key, term), b)
      {
        FilterMembership(books, FieldContains(key, term), b);
      }
      FilterSubsequence(books, FieldContains(key, term));
      if key !in FieldNames {
        SearchUnknownField(books, key, term);
      }
    }

    /** display_statistics: the counts of the current library, which is left unchanged. */
    method Statistics() returns (stats: Stats)
      ensures stats == Summarize(books)
      ensures stats.total == |books| && stats.readBooks <= stats.total
      ensures 0.0 <= stats.percentage <= 100.0
    {
      stats := Summarize(books);
    }
  }
}
