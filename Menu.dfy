/**
 * One iteration of main's loop: the choice typed at the menu selects a
 * command by exact string comparison, the command runs on the library with
 * the answers its prompts would read, and the loop goes on unless the choice
 * was "6".
 */
module Menu {
  import opened Text
  import opened Books
  import opened Filters
  import opened Statistics
  import opened Catalog

  datatype Command = AddBook | RemoveBook | FindBooks | ShowAll | ShowStatistics | Quit | Invalid

  /** The menu entries, in the order the menu lists them. */
  const MenuChoices: seq<string> := ["1", "2", "3", "4", "5", "6"]

  /** The choice string main compares against for each command. */
  function MenuKey(c: Command): (key: string)
    requires c != Invalid
    ensures key in MenuChoices
  {
    match c
    case AddBook => "1"
    case RemoveBook => "2"
    case FindBooks => "3"
    case ShowAll => "4"
    case ShowStatistics => "5"
    case Quit => "6"
  }

  /** main's if/elif chain: an exact match on "1" to "6", anything else is invalid. */
  function Dispatch(choice: string): (c: Command)
    ensures c == Quit <==> choice == "6"
    ensures c == Invalid <==> choice !in MenuChoices
    ensures c != Invalid ==> MenuKey(c) == choice
  {
    if choice == "1" then AddBook
    else if choice == "2" then RemoveBook
    else if choice == "3" then FindBooks
    else if choice == "4" then ShowAll
    else if choice == "5" then ShowStatistics
    else if choice == "6" then Quit
    else Invalid
  }

  /** Every command other than Invalid is selected by its own menu key. */
  lemma DispatchMenuKey(c: Command)
    requires c != Invalid
    ensures Dispatch(MenuKey(c)) == c
  {
    match c
    case AddBook =>
    case RemoveBook =>
    case FindBooks =>
    case ShowAll =>
    case ShowStatistics =>
    case Quit =>
  }

  /** The lines the prompts of a command would read. */
  datatype Answers = Answers(
    title: string, author: string, year: string, genre: string, readAnswer: string, // add_book
    removeTitle: string,                                                          // remove_book
    searchBy: string, searchTerm: string)                                         // search_library

  /** What the command reports to the user, in place of its printed text. */
  datatype Reply =
    | Added(title: string)
    | Removed(title: string)
    | NotFound(title: string)
    | Found(results: seq<Book>)
    | NoMatches(key: string, term: string)
    | Listing(books: seq<Book>)
    | LibraryEmpty
    | Report(stats: Stats)
    | Goodbye
    | InvalidChoice

  /**
   * One pass through main's loop body. `saved` says whether the library
   * would be written back to its file; `running` whether the loop goes on.
   */
  method Step(lib: Library, choice: string, answers: Answers) returns (reply: Reply, saved: bool, running: bool)
    modifies lib
    ensures running <==> choice != "6"
    ensures saved ==> Dispatch(choice) == AddBook || Dispatch(choice) == RemoveBook
    ensures Dispatch(choice) != AddBook && Dispatch(choice) != RemoveBook ==> lib.books == old(lib.books)
    ensures Dispatch(choice) == AddBook ==>
      saved && reply == Added(answers.title) &&
      lib.books == old(lib.books) + [NewBook(answers.title, answers.author, answers.year, answers.genre, answers.readAnswer)]
    ensures Dispatch(choice) == RemoveBook ==>
      lib.books == Filter(old(lib.books), TitleDiffers(answers.removeTitle)) &&
      (saved <==> |lib.books| < |old(lib.books)|) &&
      reply == (if saved then Removed(answers.removeTitle) else NotFound(answers.removeTitle))
    ensures Dispatch(choice) == FindBooks ==>
      var found := Filter(lib.books, FieldContains(Lower(answers.searchBy), Lower(answers.searchTerm)));
      reply == (if found == [] then NoMatches(Lower(answers.searchBy), Lower(answers.searchTerm)) else Found(found))
    ensures Dispatch(choice) == ShowAll ==>
      reply == (if lib.books == [] then LibraryEmpty else Listing(lib.books))
    ensures Dispatch(choice) == ShowStatistics ==> reply == Report(Summarize(lib.books))
    ensures Dispatch(choice) == Quit ==> reply == Goodbye
    ensures Dispatch(choice) == Invalid ==> reply == InvalidChoice && !saved
  {
    saved := false;
    running := true;
    match Dispatch(choice) {
      case AddBook =>
        saved := lib.Add(answers.title, answers.author, answers.year, answers.genre, answers.readAnswer);
        reply := Added(answers.title);
      case RemoveBook =>
        saved := lib.Remove(answers.removeTitle);
        reply := if saved then Removed(answers.removeTitle) else NotFound(answers.removeTitle);
      case FindBooks =>
        var results := lib.Search(answers.searchBy, answers.searchTerm);
        reply := if results == [] then NoMatches(Lower(answers.searchBy), Lower(answers.searchTerm)) else Found(results);
      case ShowAll =>
        reply := if lib.books == [] then LibraryEmpty else Listing(lib.books);
      case ShowStatistics =>
        var stats := lib.Statistics();
        reply := Report(stats);
      case Quit =>
        reply := Goodbye;
        running := false;
      case Invalid =>
        reply := InvalidChoice;
    }
  }
}
