/**
 * Endpoints as their text stands, next to the intended versions the rest of
 * the model uses, with the django-ninja response handling they rely on.
 *
 * `create_book`: `payload.dict().pop("genre_ids")` pops
 * from a dictionary that is thrown away; `Book.objects.create(**payload.dict())`
 * builds a second one that still holds `genre_ids`, a keyword that names no
 * column of Book, so the model constructor raises and the endpoint fails
 * before anything is stored. `Handlers.CreateBook` is the intended version.
 *
 * `create_bookinstance` and `update_bookinstance`: the response calls
 * `.isoformat()` on the `due_back` text as assigned, which fails after the
 * row is saved. `Handlers.CreateBookInstance` and
 * `Handlers.UpdateBookInstance` are the intended versions.
 *
 * The five delete endpoints: the declared `response={"success": bool}` gives
 * no schema for the status the result is sent with, so the answer fails
 * after the row is deleted. `Handlers.DeleteAuthor` and its siblings are the
 * intended versions.
 */
module AsWritten {
  import opened Wrappers
  import opened IsoDate
  import opened Schemas
  import opened Attrs
  import opened Auth
  import opened Store
  import opened Projection
  import opened Handlers

  /** The keyword arguments `create_book` hands to `Book.objects.create`. */
  function CreateBookKwargs(p: BookIn): (kwargs: seq<Field>)
    ensures Mentions(kwargs, "genre_ids")
    ensures |kwargs| == |SplitBook(p).0| + 1
  {
    var _ := Pop(BookDict(p), "genre_ids");
    assert BookDict(p)[4].0 == "genre_ids";
    BookDict(p)
  }

  function CreateBookAsWritten(s: Store, key: Option<string>, p: BookIn, newId: int): (r: Reply)
    requires newId !in s.books
    ensures !Admitted(key) ==> r == Reply(s, Unauthorized)
    ensures Admitted(key) ==> r == Reply(s, ServerError)
  {
    if !Admitted(key) then Reply(s, Unauthorized)
    else
      var genreIds := AsIds(Pop(BookDict(p), "genre_ids").0);
      var kwargs := CreateBookKwargs(p);
      assert kwargs[4].0 !in BookColumns;
      match Construct(BlankBook(newId), kwargs, BookColumns, SetBookAttr)
      case None => Reply(s, ServerError)
      case Some(b) =>
        Reply(s.(books := s.books[newId := b], bookGenres := SetGenres(s.bookGenres, newId, genreIds)),
              BookBody(ToBookOut(b, genreIds)))
  }

  /**
   * Every admitted `create_book` request fails as written, while the
   * intended version stores the book and answers with it.
   */
  lemma CreateBookDiscrepancy(s: Store, key: Option<string>, p: BookIn, newId: int)
    requires newId !in s.books
    requires Admitted(key)
    ensures CreateBookAsWritten(s, key, p, newId).store == s
    ensures CreateBookAsWritten(s, key, p, newId).response == ServerError
    ensures CreateBook(s, key, p, newId).store.books[newId] == p.Row(newId)
    ensures CreateBook(s, key, p, newId).response.BookBody?
  {
  }

  // The BookInstance echo. The schema declares `due_back` as text, and
  // assigning text to a date column leaves the text in the attribute: the
  // database parses it when the row is saved, but the response is then built
  // from the attribute, and `.isoformat()` on a non-empty string raises.

  /** `BookInstanceIn` as the schema declares it, `due_back` as text. */
  datatype BookInstanceTextIn = BookInstanceTextIn(bookId: int, imprint: string, dueBack: Option<string>, status: string)
  {
    /** The same payload with `due_back` already a date. */
    function Typed(dueBack: Option<Date>): BookInstanceIn {
      BookInstanceIn(bookId, imprint, dueBack, status)
    }
  }

  /**
   * `x.isoformat() if x else None` on the Python value `x`: None where it
   * raises, which happens for every truthy value that is not a date.
   */
  function EchoDueBack(x: Value): (r: Option<Option<string>>)
    ensures x.DateValue? ==> r == Some(RenderDueBack(Some(x.date)))
    ensures x.Null? || x == Str("") ==> r == Some(None)
    ensures x.Str? && x.str != "" ==> r.None?
  {
    match x
    case DateValue(d) => Some(RenderDueBack(Some(d)))
    case Null => Some(None)
    case Str(t) => if t == "" then Some(None) else None
    case Int(n) => if n == 0 then Some(None) else None
    case Ints(ns) => if ns == [] then Some(None) else None
  }

  /** The response the source assembles from a copy whose `due_back` attribute is `x`. */
  function EchoInstance(id: string, p: BookInstanceTextIn, x: Value): Response {
    match EchoDueBack(x)
    case None => ServerError
    case Some(due) => BookInstanceBody(BookInstanceOut(id, p.bookId, p.imprint, due, p.status))
  }

  /**
   * `create_bookinstance` as written. `parseDate` is the date column's
   * conversion on save (None where saving raises). A row that saves stays
   * saved when the response then fails: each ORM write commits on its own.
   */
  function CreateBookInstanceAsWritten(s: Store, key: Option<string>, p: BookInstanceTextIn, newId: string,
                                       parseDate: string -> Option<Date>): (r: Reply)
    requires newId !in s.instances
    ensures !Admitted(key) ==> r == Reply(s, Unauthorized)
    ensures Admitted(key) && p.dueBack.None? ==> r == CreateBookInstance(s, key, p.Typed(None), newId)
    ensures Admitted(key) && p.dueBack.Some? && parseDate(p.dueBack.value).None? ==> r == Reply(s, ServerError)
    ensures Admitted(key) && p.dueBack.Some? && p.dueBack.value != "" && parseDate(p.dueBack.value).Some? ==>
      && r.store == CreateBookInstance(s, key, p.Typed(parseDate(p.dueBack.value)), newId).store
      && r.response == ServerError
  {
    if !Admitted(key) then Reply(s, Unauthorized)
    else
      var attr := OptionalStr(p.dueBack);
      var saved := if p.dueBack.None? then Some(None) else
        (match parseDate(p.dueBack.value) case None => None case Some(d) => Some(Some(d)));
      match saved
      case None => Reply(s, ServerError)
      case Some(due) =>
        Reply(s.(instances := s.instances[newId := BookInstance(newId, p.bookId, p.imprint, due, p.status)]),
              EchoInstance(newId, p, attr))
  }

  /** `update_bookinstance` as written: the setattr loop assigns the text, as in `create_bookinstance`. */
  function UpdateBookInstanceAsWritten(s: Store, key: Option<string>, instanceId: string, p: BookInstanceTextIn,
                                       parseDate: string -> Option<Date>): (r: Reply)
    ensures !Admitted(key) ==> r == Reply(s, Unauthorized)
    ensures Admitted(key) && instanceId !in s.instances ==> r == Reply(s, NotFound)
    ensures Admitted(key) && p.dueBack.None? ==> r == UpdateBookInstance(s, key, instanceId, p.Typed(None))
    ensures Admitted(key) && instanceId in s.instances && p.dueBack.Some? && parseDate(p.dueBack.value).None? ==>
      r == Reply(s, ServerError)
    ensures Admitted(key) && instanceId in s.instances && p.dueBack.Some? && p.dueBack.value != ""
            && parseDate(p.dueBack.value).Some? ==>
      && r.store == UpdateBookInstance(s, key, instanceId, p.Typed(parseDate(p.dueBack.value))).store
      && r.response == ServerError
  {
    if !Admitted(key) then Reply(s, Unauthorized)
    else if instanceId !in s.instances then Reply(s, NotFound)
    else
      var prior := s.instances[instanceId];
      var attr := OptionalStr(p.dueBack);
      var saved := if p.dueBack.None? then Some(None) else
        (match parseDate(p.dueBack.value) case None => None case Some(d) => Some(Some(d)));
      match saved
      case None => Reply(s, ServerError)
      case Some(due) =>
        var updated := BookInstance(prior.id, p.bookId, p.imprint, due, p.status);
        Reply(s.(instances := s.instances[instanceId := updated]), EchoInstance(prior.id, p, attr))
  }

  /**
   * A copy sent with a `due_back` the database accepts is saved, yet the
   * response fails; the intended endpoints answer with the saved copy, its
   * date in ISO form.
   */
  lemma DueBackEchoDiscrepancy(s: Store, key: Option<string>, p: BookInstanceTextIn, newId: string,
                               parseDate: string -> Option<Date>)
    requires newId !in s.instances && Admitted(key)
    requires p.dueBack.Some? && p.dueBack.value != "" && parseDate(p.dueBack.value).Some?
    ensures CreateBookInstanceAsWritten(s, key, p, newId, parseDate).response == ServerError
    ensures var intended := CreateBookInstance(s, key, p.Typed(parseDate(p.dueBack.value)), newId);
      && CreateBookInstanceAsWritten(s, key, p, newId, parseDate).store == intended.store
      && intended.response.BookInstanceBody?
      && intended.response.instance.dueBack == Some(ToIso(parseDate(p.dueBack.value).value))
  {
  }

  // The delete answer. Each delete route declares `response={"success": bool}`.
  // django-ninja reads the keys of a `response` dictionary as status codes,
  // and an iterable key as one code per element: the string "success" stands
  // for its characters, four distinct ones. A result is sent with the only
  // declared code when exactly one is declared, and with 200 otherwise; here
  // neither has a schema, so sending `{"success": True}` fails after the row
  // is gone.

  /** A key of a route's `response={...}` dictionary: a status code or a string. */
  datatype ResponseKey = CodeKey(code: int) | TextKey(text: string)

  /** The status codes django-ninja takes from the keys: a string key gives one per character. */
  function StatusKeys(keys: seq<ResponseKey>): (r: set<ResponseKey>)
    ensures forall n :: CodeKey(n) in r <==> CodeKey(n) in keys
    ensures forall k :: k in r && k.TextKey? ==> |k.text| == 1
    ensures forall t, i :: TextKey(t) in keys && 0 <= i < |t| ==> TextKey([t[i]]) in r
    ensures forall k :: k in r && k.TextKey? ==>
      exists t, i :: TextKey(t) in keys && 0 <= i < |t| && k.text == [t[i]]
  {
    if |keys| == 0 then {}
    else
      var first := match keys[0]
        case CodeKey(n) => {CodeKey(n)}
        case TextKey(t) => set i | 0 <= i < |t| :: TextKey([t[i]]);
      var rest := StatusKeys(keys[1..]);
      assert forall k :: k in keys <==> k == keys[0] || k in keys[1..];
      first + rest
  }

  /** The keys of `response={"success": bool}`. */
  const DeleteResponse: seq<ResponseKey> := [TextKey("success")]

  /**
   * Sending an endpoint's result through the declared schemas. With exactly
   * one declared code the result goes out under it; otherwise under 200.
   * A status with no schema is a configuration error, and a status that is
   * not a number cannot make a response; the client sees either as a 500.
   */
  function Send(keys: seq<ResponseKey>, body: Response): (r: Response)
    ensures CodeKey(200) in keys ==> r == body
    ensures forall n :: keys == [CodeKey(n)] ==> r == body
    ensures (forall n :: CodeKey(n) !in keys) ==> r == ServerError
    ensures CodeKey(200) !in keys && |StatusKeys(keys)| != 1 ==> r == ServerError
  {
    var codes := StatusKeys(keys);
    if CodeKey(200) in codes then body
    else if |codes| == 1 && (forall k | k in codes :: k.CodeKey?) then body
    else ServerError
  }

  /**
   * A delete as written, given the intended one's reply: the deletion stands
   * (the row is assumed committed under autocommit before the reply fails),
   * a success is sent through the declared schemas, and the 401 and 404
   * answers, raised rather than returned, skip them.
   */
  function SendDeleted(d: Reply): Reply {
    if d.response.Success? then Reply(d.store, Send(DeleteResponse, d.response)) else d
  }

  function DeleteAuthorAsWritten(s: Store, key: Option<string>, authorId: int): (r: Reply)
    ensures !Admitted(key) ==> r == Reply(s, Unauthorized)
    ensures Admitted(key) && authorId !in s.authors ==> r == Reply(s, NotFound)
    ensures Admitted(key) && authorId in s.authors ==>
      r.store.authors.Keys == s.authors.Keys - {authorId} && r.response == ServerError
  {
    SendDeleted(DeleteAuthor(s, key, authorId))
  }

  function DeleteGenreAsWritten(s: Store, key: Option<string>, genreId: int): (r: Reply)
    ensures !Admitted(key) ==> r == Reply(s, Unauthorized)
    ensures Admitted(key) && genreId !in s.genres ==> r == Reply(s, NotFound)
    ensures Admitted(key) && genreId in s.genres ==>
      r.store.genres.Keys == s.genres.Keys - {genreId} && r.response == ServerError
  {
    SendDeleted(DeleteGenre(s, key, genreId))
  }

  function DeleteLanguageAsWritten(s: Store, key: Option<string>, languageId: int): (r: Reply)
    ensures !Admitted(key) ==> r == Reply(s, Unauthorized)
    ensures Admitted(key) && languageId !in s.languages ==> r == Reply(s, NotFound)
    ensures Admitted(key) && languageId in s.languages ==>
      r.store.languages.Keys == s.languages.Keys - {languageId} && r.response == ServerError
  {
    SendDeleted(DeleteLanguage(s, key, languageId))
  }

  function DeleteBookAsWritten(s: Store, key: Option<string>, bookId: int): (r: Reply)
    ensures !Admitted(key) ==> r == Reply(s, Unauthorized)
    ensures Admitted(key) && bookId !in s.books ==> r == Reply(s, NotFound)
    ensures Admitted(key) && bookId in s.books ==>
      r.store.books.Keys == s.books.Keys - {bookId} && r.response == ServerError
  {
    SendDeleted(DeleteBook(s, key, bookId))
  }

  function DeleteBookInstanceAsWritten(s: Store, key: Option<string>, instanceId: string): (r: Reply)
    ensures !Admitted(key) ==> r == Reply(s, Unauthorized)
    ensures Admitted(key) && instanceId !in s.instances ==> r == Reply(s, NotFound)
    ensures Admitted(key) && instanceId in s.instances ==>
      r.store.instances.Keys == s.instances.Keys - {instanceId} && r.response == ServerError
  {
    SendDeleted(DeleteBookInstance(s, key, instanceId))
  }

  /**
   * Every delete of a stored row fails as written although the row is gone
   * (under autocommit);
   * the intended endpoints leave the same store and answer `{"success": true}`.
   */
  lemma DeleteDiscrepancy(s: Store, key: Option<string>, authorId: int, genreId: int, languageId: int,
                          bookId: int, instanceId: string)
    requires Admitted(key)
    ensures authorId in s.authors ==>
      var (w, i) := (DeleteAuthorAsWritten(s, key, authorId), DeleteAuthor(s, key, authorId));
      w.store == i.store && w.response == ServerError && i.response == Success(true)
    ensures genreId in s.genres ==>
      var (w, i) := (DeleteGenreAsWritten(s, key, genreId), DeleteGenre(s, key, genreId));
      w.store == i.store && w.response == ServerError && i.response == Success(true)
    ensures languageId in s.languages ==>
      var (w, i) := (DeleteLanguageAsWritten(s, key, languageId), DeleteLanguage(s, key, languageId));
      w.store == i.store && w.response == ServerError && i.response == Success(true)
    ensures bookId in s.books ==>
      var (w, i) := (DeleteBookAsWritten(s, key, bookId), DeleteBook(s, key, bookId));
      w.store == i.store && w.response == ServerError && i.response == Success(true)
    ensures instanceId in s.instances ==>
      var (w, i) := (DeleteBookInstanceAsWritten(s, key, instanceId), DeleteBookInstance(s, key, instanceId));
      w.store == i.store && w.response == ServerError && i.response == Success(true)
  {
  }

  /**
   * With the codes declared as intended, `{200: ...}` (or any single code),
   * the same result is sent unchanged; declared as `{"success": ...}` it fails.
   */
  lemma DeclaredCodeSends(body: Response, code: int)
    ensures Send([CodeKey(200)], body) == body
    ensures Send([CodeKey(code)], body) == body
    ensures Send(DeleteResponse, body) == ServerError
  {
  }
}
