/**
 * The five catalog entities as stored rows, the request payloads (`AuthorIn`,
 * `BookIn`, ...) and the two hand-built response shapes (`BookOut`,
 * `BookInstanceOut`). `AuthorOut`, `GenreOut` and `LanguageOut` list exactly
 * the columns of their rows, so a response carries the row itself.
 */
module Schemas {
  import opened Wrappers
  import opened IsoDate

  /** Author dates are kept as the strings the schema declares. */
  datatype Author = Author(id: int, firstName: string, lastName: string,
                           dateOfBirth: Option<string>, dateOfDeath: Option<string>)

  datatype Genre = Genre(id: int, name: string)

  datatype Language = Language(id: int, name: string)

  /** A book row; its genres live in the separate book-genre association. */
  datatype Book = Book(id: int, title: string, authorId: int, summary: string,
                       isbn: string, languageId: int)

  /** A lendable copy, identified by the canonical text of its UUID. */
  datatype BookInstance = BookInstance(id: string, bookId: int, imprint: string,
                                       dueBack: Option<Date>, status: string)

  datatype AuthorIn = AuthorIn(firstName: string, lastName: string,
                               dateOfBirth: Option<string>, dateOfDeath: Option<string>)
  {
    /** The row this payload describes once stored under `id`. */
    function Row(id: int): Author {
      Author(id, firstName, lastName, dateOfBirth, dateOfDeath)
    }
  }

  datatype GenreIn = GenreIn(name: string) {
    function Row(id: int): Genre { Genre(id, name) }
  }

  datatype LanguageIn = LanguageIn(name: string) {
    function Row(id: int): Language { Language(id, name) }
  }

  datatype BookIn = BookIn(title: string, authorId: int, summary: string, isbn: string,
                           genreIds: seq<int>, languageId: int)
  {
    /** The book row: every field but `genre_ids`, which is no column. */
    function Row(id: int): Book { Book(id, title, authorId, summary, isbn, languageId) }
  }

  datatype BookInstanceIn = BookInstanceIn(bookId: int, imprint: string,
                                           dueBack: Option<Date>, status: string)
  {
    function Row(id: string): BookInstance { BookInstance(id, bookId, imprint, dueBack, status) }
  }

  datatype BookOut = BookOut(id: int, title: string, authorId: int, summary: string,
                             isbn: string, genreIds: seq<int>, languageId: int)

  datatype BookInstanceOut = BookInstanceOut(id: string, bookId: int, imprint: string,
                                             dueBack: Option<string>, status: string)
}
