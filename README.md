# Personal Library Manager — verified model

PLM.py is a single-user book catalogue driven by a text menu. The library is
an ordered list of book records (title, author, year, genre, read flag) that
lives in memory and is written back to a JSON file after every change. This
project models the list logic PLM.py runs between its prompts and prints:

- `Books`: the record, its five keys, `str(book[key])` as an optional
  lookup, and how the yes/no answer becomes the read flag.
- `Text`: ASCII `str.lower()` and Python's substring test `needle in hay`.
- `Filters`: the three filters over the list, all order-preserving: the
  `remove_book` comprehension, the loop that collects search results, and
  the comprehension that counts read books. They are one `Filter` over a
  `Criterion`, and its properties are proved once: exact membership,
  multiplicities, subsequence order, and the count of books turned away.
- `Statistics`: total, read count and guarded percentage.
- `Catalog.Library`: a class whose `books` field is the list that
  `add_book` appends to and `remove_book` overwrites in place. It has methods
  for add, remove, search (a loop with invariants) and statistics. The
  mutating methods return `saved`, which says whether the file would be
  rewritten.
- `Menu`: the exact-string dispatch of `main`, and one pass through its loop
  body (`Step`).
- `Scenarios`: the two-book walk-through (Dune read, Hobbit unread).

The answers the prompts would read come in as parameters (`Menu.Answers`).
Messages come out as a `Menu.Reply` value, not as printed text.

The search prompt and docstring (PLM.py:47-48) say "title or author", but
`search_library` accepts any record key, so year, genre and read work too,
and the model follows the code. The read flag is
searched through its stringified form "True"/"False", lower-cased.

## Model

| member | source | states |
|---|---|---|
| Text.Lower | PLM.py:28 | lower-casing keeps length and lower-cases each character where it stands (ASCII stand-in for `str.lower()`) |
| Text.Contains | PLM.py:53 | Python's `needle in hay`, recursively: a prefix match or a match in the tail; a match needs the needle no longer than the text; properties in Text.ContainsIffOccurs and the rows below |
| Text.ContainsIffOccurs | PLM.py:53 | the substring test holds exactly when the needle occurs at some position of the text |
| Text.EmptyContainedEverywhere | PLM.py:53 | the empty term occurs in every string |
| Text.MissingCharNotContained | PLM.py:53 | a term with a character the text lacks is not contained in it |
| Books.Field | PLM.py:53 | a lookup yields a value exactly for the keys title, author, year, genre and read |
| Books.BoolText | PLM.py:53 | `str()` of the read flag; lower-cased it is "true" exactly for a read book and "false" otherwise |
| Books.ReadAnswer | PLM.py:28 | definition of `answer.lower() == 'yes'`; a yes answer has exactly three characters; full characterisation in Books.ReadAnswerSpelling |
| Books.NewBook | PLM.py:28-30 | the record add_book builds; its read flag is set exactly when the answer is "yes" in any case; appended by Catalog.Library.Add |
| Books.ReadAnswerSpelling | PLM.py:28 | the read flag is set exactly when the answer is "yes" in any mix of upper and lower case |
| Filters.Accepts | PLM.py:39 | the three filter conditions: differing lower-cased title (PLM.py:39), field present and containing the term (PLM.py:53), read flag set (PLM.py:75); a search on a name that is not a key accepts nothing |
| Filters.Filter | PLM.py:51-54 | definition of the order-preserving filter used by remove_book (PLM.py:39), search_library (PLM.py:51-54) and the read count (PLM.py:75); never longer than its input; properties in the Filters lemma rows |
| Filters.Rejected | PLM.py:38-40 | the number of books a filter turns away (for remove_book, the books it drops); at most the list length; tied to Filter in Filters.FilterLength |
| Filters.FilterMembership | PLM.py:39 | a book survives a filter exactly when it was in the list and the criterion accepts it |
| Filters.FilterMultiplicity | PLM.py:38-39 | every copy of an accepted book is kept and every copy of a rejected book (each duplicate title) goes |
| Filters.FilterSubsequence | PLM.py:51-54 | the filter result is an order-preserving subsequence of the list |
| Filters.FilterLength | PLM.py:38-40 | kept plus rejected equals the original length, so the length never grows |
| Filters.RejectedNone | PLM.py:40-44 | nothing is rejected exactly when the criterion accepts every book |
| Filters.FilterKeepsAll | PLM.py:43-44 | when every book is accepted the list comes back identical |
| Filters.FilterDropsAll | PLM.py:60-61 | when no book is accepted the result is empty |
| Filters.FilterSnoc | PLM.py:52-54 | filtering a list with one more book appends that book exactly when it is accepted |
| Filters.SearchUnknownField | PLM.py:53 | a search on a name that is not a record key finds nothing |
| Filters.SearchEmptyTerm | PLM.py:53 | an empty search term on a record key finds every book |
| Statistics.Summarize | PLM.py:74-76 | total is the length, 0 <= read <= total, read plus unread is total, the percentage is 0 for an empty library and read*100/total otherwise, always within 0..100 |
| Statistics.SummarizeAfterAdd | PLM.py:74-75 | adding a book raises the total by one and the read count by one exactly when the book is read |
| Statistics.AllReadIffHundred | PLM.py:75-76 | in a non-empty library the percentage is 100 exactly when every book is read |
| Catalog.Library.constructor | PLM.py:84 | the library starts with the loaded list |
| Catalog.Library.Add | PLM.py:22-32 | appends exactly one record at the end (length + 1, earlier books unchanged, no uniqueness check) built from the answers, and saves |
| Catalog.Library.Remove | PLM.py:35-44 | the new list is the filter by differing lower-cased title; nothing left matches; order kept; removed count equals the matches; saves exactly when the length dropped, i.e. exactly when some title matched; otherwise the list is identical |
| Catalog.Library.Search | PLM.py:46-54 | the loop returns, in library order, exactly the books that have the lower-cased key and whose lower-cased value contains the lower-cased term; nothing for an unknown key |
| Catalog.Library.Statistics | PLM.py:72-76 | returns the summary of the current list and changes nothing |
| Menu.Dispatch | PLM.py:94-110 | "6" and only "6" quits; exactly the strings outside "1".."6" are invalid; each choice selects the command whose key it is |
| Menu.MenuKey | PLM.py:96-106 | main's table of literal choices; every key is one of "1".."6"; inverse of Menu.Dispatch by Menu.DispatchMenuKey |
| Menu.DispatchMenuKey | PLM.py:96-106 | each command is selected by its own menu key |
| Menu.Step | PLM.py:94-110 | one loop pass: only add and remove change or save the list, each as its operation says; search, listing and statistics report on the unchanged list; "6" stops; anything else is invalid and changes nothing |
| Scenarios.TwoAdds | PLM.py:28-31 | adding Dune ("yes") then Hobbit ("no") gives the two records in that order |
| Scenarios.TwoBookStatistics | PLM.py:74-76 | two books, one read: total 2, read 1, 50 percent |
| Scenarios.SearchTolkien | PLM.py:51-54 | searching author for "tolkien" returns exactly the Hobbit |
| Scenarios.SearchAsimov | PLM.py:51-54 | searching author for "asimov" returns nothing |
| Scenarios.RemoveDuneIgnoringCase | PLM.py:39 | removing "dune" removes the stored "Dune" and leaves one book |

## Left out

- `load_library` and `save_library` (PLM.py:6-20): file I/O and JSON through library calls. The starting list is the constructor's argument, and a save is the `saved` result of Add, Remove and Step.
- Records loaded from a file are assumed well formed: exactly the five keys title, author, year, genre and read, four strings and a boolean. A hand-edited record with an extra key would let `search_by in book` (PLM.py:53) match that key, which Books.Field never does. A hand-edited file with a missing `title` would make `remove_book` raise, and that is not modelled.
- All `input()` prompts and `print` output, including the menu text and the line format of listed books. Answers are parameters; messages are `Menu.Reply` values.
- `display_all_books` (PLM.py:63-70) only prints. `Step` models its empty/non-empty decision as `LibraryEmpty` or `Listing(books)`.
- Statistics.Summarize: the percentage is an exact real, not a Python float, and the two-decimal formatting is not modelled.
- Text.Lower: ASCII only. Python's `str.lower()` also lower-cases non-ASCII letters, which this model leaves unchanged.
- The endless `while True` loop of `main` (PLM.py:85) is not modelled as a loop. `Menu.Step` is one pass through it, and its `running` result says whether another pass follows.
