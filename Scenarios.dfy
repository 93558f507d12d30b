/**
 * A two-book walk-through: a library of "Dune" (read) and "Hobbit"
 * (unread), its statistics, two searches by author and a case-insensitive
 * removal.
 */
module Scenarios {
  import opened Text
  import opened Books
  import opened Filters
  import opened Statistics

  const Dune: Book := Book("Dune", "Herbert", "1965", "Sci-Fi", true)
  const Hobbit: Book := Book("Hobbit", "Tolkien", "1937", "Fantasy", false)

  /** The two books added in turn, the first answered "yes" and the second "no". */
  lemma TwoAdds()
    ensures [NewBook("Dune", "Herbert", "1965", "Sci-Fi", "yes")] + [NewBook("Hobbit", "Tolkien", "1937", "Fantasy", "no")]
      == [Dune, Hobbit]
  {
    assert Lower("yes") == "yes";
    assert Lower("no") == "no";
  }

  /** Two books, one read: total 2, read 1, 50 percent. */
  lemma TwoBookStatistics()
    ensures Summarize([Dune, Hobbit]) == Stats(2, 1, 50.0)
  {
    SummarizeAfterAdd([Dune], Hobbit);
    SummarizeAfterAdd([], Dune);
    assert [Dune] == [] + [Dune];
    assert [Dune, Hobbit] == [Dune] + [Hobbit];
    assert Dune.read && !Hobbit.read;
  }

  /** Filtering two books where only the second is accepted keeps just the second. */
  lemma FilterSecondOfTwo(c: Criterion, x: Book, y: Book)
    requires !Accepts(c, x) && Accepts(c, y)
    ensures Filter([x, y], c) == [y]
  {
    FilterSnoc([x], c, y);
    FilterSnoc([], c, x);
    assert [x] == [] + [x];
    assert [x, y] == [x] + [y];
  }

  /** Filtering two books where neither is accepted keeps nothing. */
  lemma FilterNeitherOfTwo(c: Criterion, x: Book, y: Book)
    requires !Accepts(c, x) && !Accepts(c, y)
    ensures Filter([x, y], c) == []
  {
    FilterSnoc([x], c, y);
    FilterSnoc([], c, x);
    assert [x] == [] + [x];
    assert [x, y] == [x] + [y];
  }

  lemma HobbitByTolkien()
    ensures Accepts(FieldContains("author", "tolkien"), Hobbit)
  {
    assert Lower("Tolkien") == "tolkien";
    assert StartsWith("tolkien", "tolkien");
  }

  lemma DuneNotByTolkien()
    ensures !Accepts(FieldContains("author", "tolkien"), Dune)
  {
    assert Lower("Herbert") == "herbert";
    MissingCharNotContained("tolkien", "herbert", 'k');
  }

  /** Searching authors for "tolkien" finds only the Hobbit. */
  lemma SearchTolkien()
    ensures Filter([Dune, Hobbit], FieldContains(Lower("author"), Lower("tolkien"))) == [Hobbit]
  {
    assert Lower("author") == "author" && Lower("tolkien") == "tolkien";
    HobbitByTolkien();
    DuneNotByTolkien();
    FilterSecondOfTwo(FieldContains("author", "tolkien"), Dune, Hobbit);
  }

  lemma DuneNotByAsimov()
    ensures !Accepts(FieldContains("author", "asimov"), Dune)
  {
    assert Lower("Herbert") == "herbert";
    MissingCharNotContained("asimov", "herbert", 'a');
  }

  lemma HobbitNotByAsimov()
    ensures !Accepts(FieldContains("author", "asimov"), Hobbit)
  {
    assert Lower("Tolkien") == "tolkien";
    MissingCharNotContained("asimov", "tolkien", 'a');
  }

  /** Searching authors for "asimov" finds nothing. */
  lemma SearchAsimov()
    ensures Filter([Dune, Hobbit], FieldContains(Lower("author"), Lower("asimov"))) == []
  {
    assert Lower("author") == "author" && Lower("asimov") == "asimov";
    DuneNotByAsimov();
    HobbitNotByAsimov();
    FilterNeitherOfTwo(FieldContains("author", "asimov"), Dune, Hobbit);
  }

  /** Removing "dune" in lower case removes the stored "Dune" and leaves one book. */
  lemma RemoveDuneIgnoringCase()
    ensures Filter([Dune, Hobbit], TitleDiffers("dune")) == [Hobbit]
  {
    assert Lower("Dune") == "dune";
    assert Lower("Hobbit") == "hobbit";
    assert Lower("dune") == "dune";
    FilterSnoc([Dune], TitleDiffers("dune"), Hobbit);
    FilterSnoc([], TitleDiffers("dune"), Dune);
    assert [Dune] == [] + [Dune];
  }
}
