/**
 * One catalogue record: the dictionary with keys title, author, year, genre
 * and read that PLM.py stores for each book, and the lookups the program
 * performs on it.
 */
module Books {
  import opened Wrappers
  import opened Text

  /** A book record. The year is free text, never interpreted as a number. */
  datatype Book = Book(title: string, author: string, year: string, genre: string, read: bool)

  /** The keys every record carries. */
  const FieldNames: set<string> := {"title", "author", "year", "genre", "read"}

  /** Python's `str()` of a boolean. */
  function BoolText(b: bool): (r: string)
    ensures Lower(r) == (if b then "true" else "false")
  {
    if b then "True" else "False"
  }

  /**
   * `str(book[key])` guarded by `key in book`: the stringified value stored
   * under an exact key, or None when the record has no such key.
   */
  function Field(b: Book, key: string): (r: Option<string>)
    ensures r.Some? <==> key in FieldNames
  {
    if key == "title" then Some(b.title)
    else if key == "author" then Some(b.author)
    else if key == "year" then Some(b.year)
    else if key == "genre" then Some(b.genre)
    else if key == "read" then Some(BoolText(b.read))
    else None
  }

  /** The answer to "Have you read the book? (yes/no)" means read when it lower-cases to "yes". */
  predicate ReadAnswer(answer: string)
    ensures ReadAnswer(answer) ==> |answer| == 3
  {
    Lower(answer) == "yes"
  }

  /** A yes answer is "yes" in any mixture of upper and lower case, and nothing else. */
  lemma ReadAnswerSpelling(answer: string)
    ensures ReadAnswer(answer) <==>
      |answer| == 3 && answer[0] in "yY" && answer[1] in "eE" && answer[2] in "sS"
  {
    if |answer| == 3 {
      var l := Lower(answer);
      assert l[0] == LowerChar(answer[0]) && l[1] == LowerChar(answer[1]) && l[2] == LowerChar(answer[2]);
      assert l == "yes" <==> l[0] == 'y' && l[1] == 'e' && l[2] == 's';
    }
  }

  /** The record add_book builds from the four free-text answers and the yes/no answer. */
  function NewBook(title: string, author: string, year: string, genre: string, readAnswer: string): (r: Book)
    ensures r.read <==>
      |readAnswer| == 3 && readAnswer[0] in "yY" && readAnswer[1] in "eE" && readAnswer[2] in "sS"
  {
    ReadAnswerSpelling(readAnswer);
    Book(title, author, year, genre, ReadAnswer(readAnswer))
  }
}
