/**
 * The endpoint surface as one dispatcher: a request names the endpoint and
 * carries its path parameter, its body and, for the mutating endpoints, the
 * `X-API-Key` header value. `Serve` states the rules common to all of them.
 */
module Api {
  import opened Wrappers
  import opened Schemas
  import opened Auth
  import opened Store
  import H = Handlers
  import L = Listing

  datatype Request =
    | ListAuthors
    | GetAuthor(authorId: int)
    | CreateAuthor(key: Option<string>, author: AuthorIn)
    | UpdateAuthor(key: Option<string>, authorId: int, author: AuthorIn)
    | DeleteAuthor(key: Option<string>, authorId: int)
    | ListGenres
    | GetGenre(genreId: int)
    | CreateGenre(key: Option<string>, genre: GenreIn)
    | UpdateGenre(key: Option<string>, genreId: int, genre: GenreIn)
    | DeleteGenre(key: Option<string>, genreId: int)
    | ListLanguages
    | GetLanguage(languageId: int)
    | CreateLanguage(key: Option<string>, language: LanguageIn)
    | UpdateLanguage(key: Option<string>, languageId: int, language: LanguageIn)
    | DeleteLanguage(key: Option<string>, languageId: int)
    | ListBooks
    | GetBook(bookId: int)
    | CreateBook(key: Option<string>, book: BookIn)
    | UpdateBook(key: Option<string>, bookId: int, book: BookIn)
    | DeleteBook(key: Option<string>, bookId: int)
    | ListBookInstances
    | GetBookInstance(instanceId: string)
    | CreateBookInstance(key: Option<string>, instance: BookInstanceIn)
    | UpdateBookInstance(key: Option<string>, instanceId: string, instance: BookInstanceIn)
    | DeleteBookInstance(key: Option<string>, instanceId: string)
    | Hello
  {
    /** The POST, PUT and DELETE endpoints: the ones registered with `auth=auth`. */
    predicate Mutating() {
      || CreateAuthor? || UpdateAuthor? || DeleteAuthor?
      || CreateGenre? || UpdateGenre? || DeleteGenre?
      || CreateLanguage? || UpdateLanguage? || DeleteLanguage?
      || CreateBook? || UpdateBook? || DeleteBook?
      || CreateBookInstance? || UpdateBookInstance? || DeleteBookInstance?
    }
  }

  /** The id the database hands a created row is not yet in its table. */
  predicate AllocatorFresh(s: Store, req: Request, newId: int, newInstanceId: string) {
    match req
    case CreateAuthor(_, _) => newId !in s.authors
    case CreateGenre(_, _) => newId !in s.genres
    case CreateLanguage(_, _) => newId !in s.languages
    case CreateBook(_, _) => newId !in s.books
    case CreateBookInstance(_, _) => newInstanceId !in s.instances
    case _ => true
  }

  /** The request's path names an id its table does not hold. */
  predicate TargetMissing(s: Store, req: Request) {
    match req
    case GetAuthor(id) => id !in s.authors
    case UpdateAuthor(_, id, _) => id !in s.authors
    case DeleteAuthor(_, id) => id !in s.authors
    case GetGenre(id) => id !in s.genres
    case UpdateGenre(_, id, _) => id !in s.genres
    case DeleteGenre(_, id) => id !in s.genres
    case GetLanguage(id) => id !in s.languages
    case UpdateLanguage(_, id, _) => id !in s.languages
    case DeleteLanguage(_, id) => id !in s.languages
    case GetBook(id) => id !in s.books
    case UpdateBook(_, id, _) => id !in s.books
    case DeleteBook(_, id) => id !in s.books
    case GetBookInstance(id) => id !in s.instances
    case UpdateBookInstance(_, id, _) => id !in s.instances
    case DeleteBookInstance(_, id) => id !in s.instances
    case _ => false
  }

  /**
   * One request against the store. Reads need no key and change nothing; a
   * mutating request without the exact secret is refused with the store
   * untouched; an unknown id is answered with not-found and the store
   * untouched; and every request keeps the store consistent.
   */
  method Serve(s: Store, req: Request, newId: int, newInstanceId: string) returns (s': Store, resp: H.Response)
    requires AllocatorFresh(s, req, newId, newInstanceId)
    ensures !req.Mutating() ==> s' == s
    ensures req.Mutating() && !Admitted(req.key) ==> s' == s && resp == H.Unauthorized
    ensures TargetMissing(s, req) && (req.Mutating() ==> Admitted(req.key)) ==> s' == s && resp == H.NotFound
    ensures Consistent(s) ==> Consistent(s')
  {
    if req.Mutating() {
      var r := Mutate(s, req, newId, newInstanceId);
      s', resp := r.store, r.response;
    } else {
      resp := Read(s, req);
      s' := s;
    }
  }

  /** The GET endpoints: they see the store and answer. */
  method Read(s: Store, req: Request) returns (resp: H.Response)
    requires !req.Mutating()
    ensures TargetMissing(s, req) ==> resp == H.NotFound
  {
    match req {
      case ListAuthors =>
        var rows := L.ListAuthors(s);
        resp := H.AuthorList(rows);
      case ListGenres =>
        var rows := L.ListGenres(s);
        resp := H.GenreList(rows);
      case ListLanguages =>
        var rows := L.ListLanguages(s);
        resp := H.LanguageList(rows);
      case ListBooks =>
        var rows := L.ListBooks(s);
        resp := H.BookList(rows);
      case ListBookInstances =>
        var rows := L.ListBookInstances(s);
        resp := H.BookInstanceList(rows);
      case GetAuthor(id) => resp := H.GetAuthor(s, id).response;
      case GetGenre(id) => resp := H.GetGenre(s, id).response;
      case GetLanguage(id) => resp := H.GetLanguage(s, id).response;
      case GetBook(id) => resp := H.GetBook(s, id).response;
      case GetBookInstance(id) => resp := H.GetBookInstance(s, id).response;
      case Hello => resp := H.Greeting("Hello world");
    }
  }

  /** The POST, PUT and DELETE endpoints, each a transition of the store. */
  function Mutate(s: Store, req: Request, newId: int, newInstanceId: string): (r: H.Reply)
    requires req.Mutating() && AllocatorFresh(s, req, newId, newInstanceId)
    ensures !Admitted(req.key) ==> r == H.Reply(s, H.Unauthorized)
    ensures TargetMissing(s, req) && Admitted(req.key) ==> r == H.Reply(s, H.NotFound)
    ensures Consistent(s) ==> Consistent(r.store)
  {
    if req.CreateBook? || req.UpdateBook? || req.DeleteBook? then MutateBooks(s, req, newId)
    else if req.CreateBookInstance? || req.UpdateBookInstance? || req.DeleteBookInstance? then
      MutateBookInstances(s, req, newInstanceId)
    else MutateCatalog(s, req, newId)
  }

  /** Writes to the authors, genres and languages tables. */
  function MutateCatalog(s: Store, req: Request, newId: int): (r: H.Reply)
    requires req.Mutating() && AllocatorFresh(s, req, newId, "")
    requires !(req.CreateBook? || req.UpdateBook? || req.DeleteBook?)
    requires !(req.CreateBookInstance? || req.UpdateBookInstance? || req.DeleteBookInstance?)
    ensures !Admitted(req.key) ==> r == H.Reply(s, H.Unauthorized)
    ensures TargetMissing(s, req) && Admitted(req.key) ==> r == H.Reply(s, H.NotFound)
    ensures Consistent(s) ==> Consistent(r.store)
  {
    match req
    case CreateAuthor(key, p) => H.CreateAuthor(s, key, p, newId)
    case UpdateAuthor(key, id, p) => H.UpdateAuthor(s, key, id, p)
    case DeleteAuthor(key, id) => H.DeleteAuthor(s, key, id)
    case CreateGenre(key, p) => H.CreateGenre(s, key, p, newId)
    case UpdateGenre(key, id, p) => H.UpdateGenre(s, key, id, p)
    case DeleteGenre(key, id) => H.DeleteGenre(s, key, id)
    case CreateLanguage(key, p) => H.CreateLanguage(s, key, p, newId)
    case UpdateLanguage(key, id, p) => H.UpdateLanguage(s, key, id, p)
    case DeleteLanguage(key, id) => H.DeleteLanguage(s, key, id)
  }

  /** Writes to the books table and its genre links. */
  function MutateBooks(s: Store, req: Request, newId: int): (r: H.Reply)
    requires AllocatorFresh(s, req, newId, "")
    requires req.CreateBook? || req.UpdateBook? || req.DeleteBook?
    ensures !Admitted(req.key) ==> r == H.Reply(s, H.Unauthorized)
    ensures TargetMissing(s, req) && Admitted(req.key) ==> r == H.Reply(s, H.NotFound)
    ensures Consistent(s) ==> Consistent(r.store)
  {
    match req
    case CreateBook(key, p) => H.CreateBook(s, key, p, newId)
    case UpdateBook(key, id, p) => H.UpdateBook(s, key, id, p)
    case DeleteBook(key, id) => H.DeleteBook(s, key, id)
  }

  /** Writes to the copies table. */
  function MutateBookInstances(s: Store, req: Request, newInstanceId: string): (r: H.Reply)
    requires AllocatorFresh(s, req, 0, newInstanceId)
    requires req.CreateBookInstance? || req.UpdateBookInstance? || req.DeleteBookInstance?
    ensures !Admitted(req.key) ==> r == H.Reply(s, H.Unauthorized)
    ensures TargetMissing(s, req) && Admitted(req.key) ==> r == H.Reply(s, H.NotFound)
    ensures Consistent(s) ==> Consistent(r.store)
  {
    match req
    case CreateBookInstance(key, p) => H.CreateBookInstance(s, key, p, newInstanceId)
    case UpdateBookInstance(key, id, p) => H.UpdateBookInstance(s, key, id, p)
    case DeleteBookInstance(key, id) => H.DeleteBookInstance(s, key, id)
  }
}
