/**
 * The catalog endpoints other than the list endpoints, each a transition of
 * the store that also yields the response. Mutating endpoints take the
 * `X-API-Key` header value and answer 401 before doing anything else when it
 * is not the secret; `get_object_or_404` answers 404 for an unknown id.
 * Fresh primary keys and UUIDs come from the caller (the database's
 * autoincrement and `uuid.uuid4()`), as ids absent from their table.
 */
module Handlers {
  import opened Wrappers
  import opened Schemas
  import opened Attrs
  import opened Auth
  import opened Store
  import opened Projection

  datatype Response =
    | Unauthorized
    | NotFound
    | ServerError
    | AuthorBody(author: Author)
    | GenreBody(genre: Genre)
    | LanguageBody(language: Language)
    | BookBody(book: BookOut)
    | BookInstanceBody(instance: BookInstanceOut)
    | AuthorList(authors: seq<Author>)
    | GenreList(genres: seq<Genre>)
    | LanguageList(languages: seq<Language>)
    | BookList(books: seq<BookOut>)
    | BookInstanceList(instances: seq<BookInstanceOut>)
    | Success(success: bool)
    | Greeting(text: string)

  datatype Reply = Reply(store: Store, response: Response)

  // Authors

  function GetAuthor(s: Store, authorId: int): (r: Reply)
    ensures r.store == s
    ensures authorId !in s.authors ==> r.response == NotFound
    ensures authorId in s.authors ==> r.response == AuthorBody(s.authors[authorId])
  {
    if authorId in s.authors then Reply(s, AuthorBody(s.authors[authorId])) else Reply(s, NotFound)
  }

  function CreateAuthor(s: Store, key: Option<string>, p: AuthorIn, newId: int): (r: Reply)
    requires newId !in s.authors
    ensures !Admitted(key) ==> r == Reply(s, Unauthorized)
    ensures Consistent(s) ==> Consistent(r.store)
    ensures Admitted(key) ==>
      && r.store == s.(authors := s.authors[newId := p.Row(newId)])
      && r.response == AuthorBody(p.Row(newId))
  {
    if !Admitted(key) then Reply(s, Unauthorized)
    else
      ConstructAuthor(newId, p);
      match Construct(BlankAuthor(newId), AuthorDict(p), AuthorColumns, SetAuthorAttr)
      case None => Reply(s, ServerError)
      case Some(a) => Reply(s.(authors := s.authors[newId := a]), AuthorBody(a))
  }

  function UpdateAuthor(s: Store, key: Option<string>, authorId: int, p: AuthorIn): (r: Reply)
    ensures !Admitted(key) ==> r == Reply(s, Unauthorized)
    ensures Consistent(s) ==> Consistent(r.store)
    ensures Admitted(key) && authorId !in s.authors ==> r == Reply(s, NotFound)
    ensures Admitted(key) && authorId in s.authors ==>
      var updated := p.Row(s.authors[authorId].id);
      && r.store == s.(authors := s.authors[authorId := updated])
      && r.response == AuthorBody(updated)
  {
    if !Admitted(key) then Reply(s, Unauthorized)
    else if authorId !in s.authors then Reply(s, NotFound)
    else
      var a := Overwrite(s.authors[authorId], AuthorDict(p), SetAuthorAttr);
      OverwriteAuthor(s.authors[authorId], p);
      Reply(s.(authors := s.authors[authorId := a]), AuthorBody(a))
  }

  function DeleteAuthor(s: Store, key: Option<string>, authorId: int): (r: Reply)
    ensures !Admitted(key) ==> r == Reply(s, Unauthorized)
    ensures Consistent(s) ==> Consistent(r.store)
    ensures Admitted(key) && authorId !in s.authors ==> r == Reply(s, NotFound)
    ensures Admitted(key) && authorId in s.authors ==>
      && r.store == s.(authors := r.store.authors)
      && r.store.authors.Keys == s.authors.Keys - {authorId}
      && (forall k :: k in r.store.authors ==> r.store.authors[k] == s.authors[k])
      && r.response == Success(true)
  {
    if !Admitted(key) then Reply(s, Unauthorized)
    else if authorId !in s.authors then Reply(s, NotFound)
    else Reply(s.(authors := s.authors - {authorId}), Success(true))
  }

  // Genres

  function GetGenre(s: Store, genreId: int): (r: Reply)
    ensures r.store == s
    ensures genreId !in s.genres ==> r.response == NotFound
    ensures genreId in s.genres ==> r.response == GenreBody(s.genres[genreId])
  {
    if genreId in s.genres then Reply(s, GenreBody(s.genres[genreId])) else Reply(s, NotFound)
  }

  function CreateGenre(s: Store, key: Option<string>, p: GenreIn, newId: int): (r: Reply)
    requires newId !in s.genres
    ensures !Admitted(key) ==> r == Reply(s, Unauthorized)
    ensures Consistent(s) ==> Consistent(r.store)
    ensures Admitted(key) ==>
      && r.store == s.(genres := s.genres[newId := p.Row(newId)])
      && r.response == GenreBody(p.Row(newId))
  {
    if !Admitted(key) then Reply(s, Unauthorized)
    else
      ConstructGenre(newId, p);
      match Construct(BlankGenre(newId), GenreDict(p), GenreColumns, SetGenreAttr)
      case None => Reply(s, ServerError)
      case Some(g) => Reply(s.(genres := s.genres[newId := g]), GenreBody(g))
  }

  function UpdateGenre(s: Store, key: Option<string>, genreId: int, p: GenreIn): (r: Reply)
    ensures !Admitted(key) ==> r == Reply(s, Unauthorized)
    ensures Consistent(s) ==> Consistent(r.store)
    ensures Admitted(key) && genreId !in s.genres ==> r == Reply(s, NotFound)
    ensures Admitted(key) && genreId in s.genres ==>
      var updated := p.Row(s.genres[genreId].id);
      && r.store == s.(genres := s.genres[genreId := updated])
      && r.response == GenreBody(updated)
  {
    if !Admitted(key) then Reply(s, Unauthorized)
    else if genreId !in s.genres then Reply(s, NotFound)
    else
      var g := Overwrite(s.genres[genreId], GenreDict(p), SetGenreAttr);
      OverwriteGenre(s.genres[genreId], p);
      Reply(s.(genres := s.genres[genreId := g]), GenreBody(g))
  }

  /** Deleting a genre also deletes its link rows, so no book lists it afterwards. */
  function DeleteGenre(s: Store, key: Option<string>, genreId: int): (r: Reply)
    ensures !Admitted(key) ==> r == Reply(s, Unauthorized)
    ensures Consistent(s) ==> Consistent(r.store)
    ensures Admitted(key) && genreId !in s.genres ==> r == Reply(s, NotFound)
    ensures Admitted(key) && genreId in s.genres ==>
      && r.store == s.(genres := r.store.genres, bookGenres := r.store.bookGenres)
      && r.store.genres.Keys == s.genres.Keys - {genreId}
      && (forall k :: k in r.store.genres ==> r.store.genres[k] == s.genres[k])
      && r.store.bookGenres == UnlinkGenre(s.bookGenres, genreId)
      && r.response == Success(true)
  {
    if !Admitted(key) then Reply(s, Unauthorized)
    else if genreId !in s.genres then Reply(s, NotFound)
    else Reply(s.(genres := s.genres - {genreId}, bookGenres := UnlinkGenre(s.bookGenres, genreId)),
               Success(true))
  }

  // Languages

  function GetLanguage(s: Store, languageId: int): (r: Reply)
    ensures r.store == s
    ensures languageId !in s.languages ==> r.response == NotFound
    ensures languageId in s.languages ==> r.response == LanguageBody(s.languages[languageId])
  {
    if languageId in s.languages then Reply(s, LanguageBody(s.languages[languageId]))
    else Reply(s, NotFound)
  }

  function CreateLanguage(s: Store, key: Option<string>, p: LanguageIn, newId: int): (r: Reply)
    requires newId !in s.languages
    ensures !Admitted(key) ==> r == Reply(s, Unauthorized)
    ensures Consistent(s) ==> Consistent(r.store)
    ensures Admitted(key) ==>
      && r.store == s.(languages := s.languages[newId := p.Row(newId)])
      && r.response == LanguageBody(p.Row(newId))
  {
    if !Admitted(key) then Reply(s, Unauthorized)
    else
      ConstructLanguage(newId, p);
      match Construct(BlankLanguage(newId), LanguageDict(p), LanguageColumns, SetLanguageAttr)
      case None => Reply(s, ServerError)
      case Some(l) => Reply(s.(languages := s.languages[newId := l]), LanguageBody(l))
  }

  function UpdateLanguage(s: Store, key: Option<string>, languageId: int, p: LanguageIn): (r: Reply)
    ensures !Admitted(key) ==> r == Reply(s, Unauthorized)
    ensures Consistent(s) ==> Consistent(r.store)
    ensures Admitted(key) && languageId !in s.languages ==> r == Reply(s, NotFound)
    ensures Admitted(key) && languageId in s.languages ==>
      var updated := p.Row(s.languages[languageId].id);
      && r.store == s.(languages := s.languages[languageId := updated])
      && r.response == LanguageBody(updated)
  {
    if !Admitted(key) then Reply(s, Unauthorized)
    else if languageId !in s.languages then Reply(s, NotFound)
    else
      var l := Overwrite(s.languages[languageId], LanguageDict(p), SetLanguageAttr);
      OverwriteLanguage(s.languages[languageId], p);
      Reply(s.(languages := s.languages[languageId := l]), LanguageBody(l))
  }

  function DeleteLanguage(s: Store, key: Option<string>, languageId: int): (r: Reply)
    ensures !Admitted(key) ==> r == Reply(s, Unauthorized)
    ensures Consistent(s) ==> Consistent(r.store)
    ensures Admitted(key) && languageId !in s.languages ==> r == Reply(s, NotFound)
    ensures Admitted(key) && languageId in s.languages ==>
      && r.store == s.(languages := r.store.languages)
      && r.store.languages.Keys == s.languages.Keys - {languageId}
      && (forall k :: k in r.store.languages ==> r.store.languages[k] == s.languages[k])
      && r.response == Success(true)
  {
    if !Admitted(key) then Reply(s, Unauthorized)
    else if languageId !in s.languages then Reply(s, NotFound)
    else Reply(s.(languages := s.languages - {languageId}), Success(true))
  }

  // Books

  /** The Book response for a stored book: its row and its linked genre ids. */
  function BookOutOf(s: Store, bookId: int): (o: BookOut)
    requires bookId in s.books
    ensures FromBookOut(o) == (s.books[bookId], GenreIdsOf(s, bookId))
  {
    ToBookOut(s.books[bookId], GenreIdsOf(s, bookId))
  }

  function GetBook(s: Store, bookId: int): (r: Reply)
    ensures r.store == s
    ensures bookId !in s.books ==> r.response == NotFound
    ensures bookId in s.books ==> r.response == BookBody(BookOutOf(s, bookId))
  {
    if bookId in s.books then Reply(s, BookBody(BookOutOf(s, bookId))) else Reply(s, NotFound)
  }

  /**
   * `create_book` with the payload split as `update_book` splits it: the row
   * from every field but `genre_ids`, then the links replaced by `genre_ids`.
   * The response echoes the payload's list, duplicates included.
   */
  function CreateBook(s: Store, key: Option<string>, p: BookIn, newId: int): (r: Reply)
    requires newId !in s.books
    ensures !Admitted(key) ==> r == Reply(s, Unauthorized)
    ensures Consistent(s) ==> Consistent(r.store)
    ensures Admitted(key) ==>
      && r.store == s.(books := s.books[newId := p.Row(newId)],
                       bookGenres := SetGenres(s.bookGenres, newId, p.genreIds))
      && r.response == BookBody(ToBookOut(p.Row(newId), p.genreIds))
  {
    if !Admitted(key) then Reply(s, Unauthorized)
    else
      var (data, genreIds) := SplitBook(p);
      ConstructBook(newId, p);
      match Construct(BlankBook(newId), data, BookColumns, SetBookAttr)
      case None => Reply(s, ServerError)
      case Some(b) =>
        Reply(s.(books := s.books[newId := b], bookGenres := SetGenres(s.bookGenres, newId, genreIds)),
              BookBody(ToBookOut(b, genreIds)))
  }

  function UpdateBook(s: Store, key: Option<string>, bookId: int, p: BookIn): (r: Reply)
    ensures !Admitted(key) ==> r == Reply(s, Unauthorized)
    ensures Consistent(s) ==> Consistent(r.store)
    ensures Admitted(key) && bookId !in s.books ==> r == Reply(s, NotFound)
    ensures Admitted(key) && bookId in s.books ==>
      var updated := p.Row(s.books[bookId].id);
      && r.store == s.(books := s.books[bookId := updated],
                       bookGenres := SetGenres(s.bookGenres, bookId, p.genreIds))
      && r.response == BookBody(ToBookOut(updated, p.genreIds))
  {
    if !Admitted(key) then Reply(s, Unauthorized)
    else if bookId !in s.books then Reply(s, NotFound)
    else
      var (data, genreIds) := SplitBook(p);
      var b := Overwrite(s.books[bookId], data, SetBookAttr);
      OverwriteBook(s.books[bookId], p);
      Reply(s.(books := s.books[bookId := b], bookGenres := SetGenres(s.bookGenres, bookId, genreIds)),
            BookBody(ToBookOut(b, genreIds)))
  }

  /** Deleting a book also deletes its link rows. */
  function DeleteBook(s: Store, key: Option<string>, bookId: int): (r: Reply)
    ensures !Admitted(key) ==> r == Reply(s, Unauthorized)
    ensures Consistent(s) ==> Consistent(r.store)
    ensures Admitted(key) && bookId !in s.books ==> r == Reply(s, NotFound)
    ensures Admitted(key) && bookId in s.books ==>
      && r.store == s.(books := r.store.books, bookGenres := r.store.bookGenres)
      && r.store.books.Keys == s.books.Keys - {bookId}
      && (forall k :: k in r.store.books ==> r.store.books[k] == s.books[k])
      && r.store.bookGenres.Keys == s.bookGenres.Keys - {bookId}
      && (forall k :: k in r.store.bookGenres ==> r.store.bookGenres[k] == s.bookGenres[k])
      && r.response == Success(true)
  {
    if !Admitted(key) then Reply(s, Unauthorized)
    else if bookId !in s.books then Reply(s, NotFound)
    else Reply(s.(books := s.books - {bookId}, bookGenres := s.bookGenres - {bookId}), Success(true))
  }

  // BookInstances

  function GetBookInstance(s: Store, instanceId: string): (r: Reply)
    ensures r.store == s
    ensures instanceId !in s.instances ==> r.response == NotFound
    ensures instanceId in s.instances ==>
      r.response == BookInstanceBody(ToBookInstanceOut(s.instances[instanceId]))
  {
    if instanceId in s.instances then Reply(s, BookInstanceBody(ToBookInstanceOut(s.instances[instanceId])))
    else Reply(s, NotFound)
  }

  /**
   * `create_bookinstance`: the copy is stored under a fresh UUID with the
   * payload's `book_id`, `imprint`, `due_back` and `status` as given.
   */
  function CreateBookInstance(s: Store, key: Option<string>, p: BookInstanceIn, newId: string): (r: Reply)
    requires newId !in s.instances
    ensures !Admitted(key) ==> r == Reply(s, Unauthorized)
    ensures Consistent(s) ==> Consistent(r.store)
    ensures Admitted(key) ==>
      && r.store == s.(instances := s.instances[newId := p.Row(newId)])
      && r.response == BookInstanceBody(ToBookInstanceOut(p.Row(newId)))
  {
    if !Admitted(key) then Reply(s, Unauthorized)
    else
      var bi := BookInstance(newId, p.bookId, p.imprint, p.dueBack, p.status);
      Reply(s.(instances := s.instances[newId := bi]), BookInstanceBody(ToBookInstanceOut(bi)))
  }

  function UpdateBookInstance(s: Store, key: Option<string>, instanceId: string, p: BookInstanceIn): (r: Reply)
    ensures !Admitted(key) ==> r == Reply(s, Unauthorized)
    ensures Consistent(s) ==> Consistent(r.store)
    ensures Admitted(key) && instanceId !in s.instances ==> r == Reply(s, NotFound)
    ensures Admitted(key) && instanceId in s.instances ==>
      var updated := p.Row(s.instances[instanceId].id);
      && r.store == s.(instances := s.instances[instanceId := updated])
      && r.response == BookInstanceBody(ToBookInstanceOut(updated))
  {
    if !Admitted(key) then Reply(s, Unauthorized)
    else if instanceId !in s.instances then Reply(s, NotFound)
    else
      var bi := Overwrite(s.instances[instanceId], BookInstanceDict(p), SetBookInstanceAttr);
      OverwriteBookInstance(s.instances[instanceId], p);
      Reply(s.(instances := s.instances[instanceId := bi]), BookInstanceBody(ToBookInstanceOut(bi)))
  }

  function DeleteBookInstance(s: Store, key: Option<string>, instanceId: string): (r: Reply)
    ensures !Admitted(key) ==> r == Reply(s, Unauthorized)
    ensures Consistent(s) ==> Consistent(r.store)
    ensures Admitted(key) && instanceId !in s.instances ==> r == Reply(s, NotFound)
    ensures Admitted(key) && instanceId in s.instances ==>
      && r.store == s.(instances := r.store.instances)
      && r.store.instances.Keys == s.instances.Keys - {instanceId}
      && (forall k :: k in r.store.instances ==> r.store.instances[k] == s.instances[k])
      && r.response == Success(true)
  {
    if !Admitted(key) then Reply(s, Unauthorized)
    else if instanceId !in s.instances then Reply(s, NotFound)
    else Reply(s.(instances := s.instances - {instanceId}), Success(true))
  }
}
