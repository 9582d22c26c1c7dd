# Catalog API of the local library, modelled in Dafny

The library's catalog offers a JSON API with five resources: authors, genres,
languages, books and book instances (the lendable copies of a book). Each
resource has five endpoints: list, get, create, update and delete. There is
also a `hello` endpoint. Reads are open to anyone. Creating, updating or
deleting needs an `X-API-Key` header whose value is exactly `your_secret_key`.

The model puts every row into one immutable `Store`:
- one map per table, keyed by primary key;
- book instances keyed by the text of their UUID;
- each book's list of linked genre ids.

Every endpoint except the list endpoints is a pure function from a store and a
request to a new store and a response. The list endpoints are methods that pick
an unspecified order for the rows. `Api.Serve` and `Api.Read` are methods for
the same reason. `Api.Serve` dispatches a request to the right endpoint.

Django's dynamic attribute handling is modelled explicitly:
- `payload.dict()` is an ordered list of `(name, value)` items;
- `setattr` changes a row one field at a time;
- `Model(**kwargs)` refuses a keyword that names no column;
- `dict.pop` removes one item.

The update endpoints are therefore proved to overwrite rows, not assumed to.

Modules, one per file:

| module | file | contents |
|---|---|---|
| `Wrappers` | `wrappers.dfy` | `Option` |
| `IsoDate` | `isodate.dfy` | calendar dates, `date.isoformat()` and the parser that inverts it |
| `Schemas` | `schemas.dfy` | the rows, the request payloads and the `BookOut` and `BookInstanceOut` responses |
| `Attrs` | `attrs.dfy` | payload dictionaries, `setattr`, the overwrite loop, `Model(**kwargs)` and `pop` |
| `Auth` | `auth.dfy` | the API-key check |
| `Store` | `store.dfy` | the tables, the book-genre links and the `Consistent` invariant |
| `Projection` | `projection.dfy` | the hand-built Book and BookInstance responses, and how to read them back |
| `Handlers` | `handlers.dfy` | get, create, update and delete for every resource |
| `Listing` | `listing.dfy` | the list endpoints |
| `Api` | `api.dfy` | the request type and the dispatcher |
| `Properties` | `properties.dfy` | laws that relate several calls |
| `AsWritten` | `as_written.dfy` | the endpoints named under Findings as their text stands, with the django-ninja response handling they rely on |

## Model

| member | source | states |
|---|---|---|
| Auth.AdmittedIffSecret | locallibrary/catalog/api.py:11-17 | a request gets past the key check exactly when the `X-API-Key` value is the secret `your_secret_key`; a missing header or any other value is refused |
| Api.Serve | locallibrary/catalog/api.py:80-312 | a read never changes the store. A write with a wrong or missing key answers 401 and leaves the store as it was. A get, update or delete on an unknown id answers 404 and leaves the store as it was. Every endpoint keeps the store consistent |
| Api.Read | locallibrary/catalog/api.py:80-312 | the GET endpoints need no key; an unknown id answers 404 |
| Api.Mutate | locallibrary/catalog/api.py:88-307 | the POST, PUT and DELETE endpoints check the key before anything else, answer 404 for an unknown id, and keep the store consistent |
| Api.MutateCatalog | locallibrary/catalog/api.py:88-161 | the same rules for the author, genre and language writes |
| Api.MutateBooks | locallibrary/catalog/api.py:193-234 | the same rules for the book writes |
| Api.MutateBookInstances | locallibrary/catalog/api.py:262-307 | the same rules for the book-instance writes |
| Handlers.GetAuthor | locallibrary/catalog/api.py:84-86 | the stored author, or 404 when there is none; the store is unchanged |
| Handlers.CreateAuthor | locallibrary/catalog/api.py:88-91 | with the key, the payload's author is stored under a fresh id and returned; other tables are unchanged; without the key, 401 and nothing stored |
| Handlers.UpdateAuthor | locallibrary/catalog/api.py:93-99 | the author becomes exactly the payload's fields under its old id; nothing else changes; 401 or 404 leave the store as it was |
| Handlers.DeleteAuthor | locallibrary/catalog/api.py:101-105 | only that author is removed and every other row is left as it was (referring rows included, see Left out); the intended answer is `{"success": true}`; 401 or 404 otherwise |
| Handlers.GetGenre | locallibrary/catalog/api.py:112-114 | the stored genre, or 404; the store is unchanged |
| Handlers.CreateGenre | locallibrary/catalog/api.py:116-119 | with the key, the payload's genre is stored under a fresh id and returned; 401 otherwise |
| Handlers.UpdateGenre | locallibrary/catalog/api.py:121-127 | the genre becomes the payload's name under its old id; nothing else changes |
| Handlers.DeleteGenre | locallibrary/catalog/api.py:129-133 | only that genre is removed, and its link rows go with it, so no book lists it afterwards; books are untouched; the intended answer is `{"success": true}` |
| Handlers.GetLanguage | locallibrary/catalog/api.py:140-142 | the stored language, or 404; the store is unchanged |
| Handlers.CreateLanguage | locallibrary/catalog/api.py:144-147 | with the key, the payload's language is stored under a fresh id and returned; 401 otherwise |
| Handlers.UpdateLanguage | locallibrary/catalog/api.py:149-155 | the language becomes the payload's name under its old id; nothing else changes |
| Handlers.DeleteLanguage | locallibrary/catalog/api.py:157-161 | only that language is removed, other rows left as they were; the intended answer is `{"success": true}` |
| Handlers.BookOutOf | locallibrary/catalog/api.py:183-191 | the Book response carries exactly the stored row and the book's linked genre ids |
| Handlers.GetBook | locallibrary/catalog/api.py:180-191 | the book with its linked genre ids, or 404; the store is unchanged |
| Handlers.CreateBook | locallibrary/catalog/api.py:193-206 | the intended `create_book`: the row is built from every payload field except `genre_ids`; the links become `genre_ids`; the response echoes `genre_ids` as sent |
| Handlers.UpdateBook | locallibrary/catalog/api.py:208-228 | the book becomes the payload's fields under its old id; its links are replaced by the payload's `genre_ids`, not merged with the old ones; the response echoes that list; other books' links are unchanged |
| Handlers.DeleteBook | locallibrary/catalog/api.py:230-234 | only that book and its link rows are removed, other rows left as they were; the intended answer is `{"success": true}` |
| Handlers.GetBookInstance | locallibrary/catalog/api.py:251-260 | the copy's response dictionary, or 404; the store is unchanged |
| Handlers.CreateBookInstance | locallibrary/catalog/api.py:262-283 | with the key, a copy under a fresh UUID holds the payload's `book_id`, `imprint`, `due_back` and `status` as given, and is echoed |
| Handlers.UpdateBookInstance | locallibrary/catalog/api.py:285-301 | the copy takes the payload's four fields and keeps its UUID; nothing else changes |
| Handlers.DeleteBookInstance | locallibrary/catalog/api.py:303-307 | only that copy is removed; the intended answer is `{"success": true}` |
| Listing.ListAuthors | locallibrary/catalog/api.py:80-82 | as many rows as authors; every stored author appears, and only stored authors; no id repeats |
| Listing.ListGenres | locallibrary/catalog/api.py:108-110 | the same for genres |
| Listing.ListLanguages | locallibrary/catalog/api.py:136-138 | the same for languages |
| Listing.ListBooks | locallibrary/catalog/api.py:164-178 | one Book response per stored book, each with that book's linked genre ids; no id repeats |
| Listing.ListBookInstances | locallibrary/catalog/api.py:237-249 | one response per stored copy; no id repeats |
| Listing.Enumerate | locallibrary/catalog/api.py:166-168 | the loop over `Book.objects.all()` visits every key exactly once, in some order |
| Projection.ToBookOut | locallibrary/catalog/api.py:169-177 | the Book response can be split back into the exact row and genre list it came from |
| Projection.RenderDueBack | locallibrary/catalog/api.py:246 | `due_back` is rendered as None exactly when it is absent, and otherwise as a 10-character ISO text that parses back to the same date |
| Projection.ToBookInstanceOut | locallibrary/catalog/api.py:242-248 | the id is rendered as text; `book_id`, `imprint` and `status` are copied; the whole response reads back to the stored copy |
| Projection.BookInstanceOutInjective | locallibrary/catalog/api.py:254-260 | two copies have the same response exactly when they are the same copy |
| IsoDate.IsoRoundTrip | locallibrary/catalog/api.py:258 | parsing the `isoformat()` text of a date gives the date back |
| IsoDate.ToIsoInjective | locallibrary/catalog/api.py:246 | different dates render as different texts |
| IsoDate.ParsePadded | locallibrary/catalog/api.py:246 | a zero-padded number parses back to that number |
| Attrs.SplitBook | locallibrary/catalog/api.py:211-212 | popping `genre_ids` from the payload dictionary yields the payload's genre list and the five other items, none of them named `genre_ids` and each naming a Book column |
| Attrs.PopFirst | locallibrary/catalog/api.py:212 | `pop` returns the value of the named item and removes exactly that item, keeping the order of the rest |
| Attrs.OverwriteAuthor | locallibrary/catalog/api.py:96-98 | the setattr loop over an author payload yields exactly the payload's author, keeping the id |
| Attrs.OverwriteGenre | locallibrary/catalog/api.py:124-126 | the same for a genre |
| Attrs.OverwriteLanguage | locallibrary/catalog/api.py:152-154 | the same for a language |
| Attrs.OverwriteBook | locallibrary/catalog/api.py:214-217 | the setattr loop over the split book payload yields exactly the payload's book, keeping the id |
| Attrs.OverwriteBookInstance | locallibrary/catalog/api.py:290-293 | the setattr loop over a copy's payload yields exactly the payload's copy, keeping the UUID |
| Attrs.ConstructAuthor | locallibrary/catalog/api.py:90 | `Author.objects.create(**payload.dict())` accepts every keyword and yields the payload's author |
| Attrs.ConstructGenre | locallibrary/catalog/api.py:118 | the same for a genre |
| Attrs.ConstructLanguage | locallibrary/catalog/api.py:146 | the same for a language |
| Attrs.ConstructBook | locallibrary/catalog/api.py:196 | once `genre_ids` is split off, `Book.objects.create` accepts the remaining keywords and yields the payload's book |
| Store.Dedup | locallibrary/catalog/api.py:197 | `book.genre.set(ids)` keeps each listed id once: it gives the same ids, no repeats, and leaves a list without repeats unchanged |
| Store.SetGenres | locallibrary/catalog/api.py:218 | afterwards the book links exactly the given ids, each once, and every other book's links are unchanged |
| Store.UnlinkGenre | locallibrary/catalog/api.py:132 | deleting a genre removes it from every book's links, keeps every other link, and keeps lists free of repeats |
| Store.Drop | locallibrary/catalog/api.py:132 | one book's links without the deleted genre, and no others removed |
| Properties.CreateThenGetAuthor | locallibrary/catalog/api.py:84-91 | getting a created author returns the same response as the create did |
| Properties.CreateThenGetGenre | locallibrary/catalog/api.py:112-119 | the same for a genre |
| Properties.CreateThenGetLanguage | locallibrary/catalog/api.py:140-147 | the same for a language |
| Properties.CreateThenGetBookInstance | locallibrary/catalog/api.py:251-283 | the same for a copy |
| Properties.DedupKeepsLengthIffNoDup | locallibrary/catalog/api.py:197 | `set()` keeps as many links as ids were listed exactly when the list has no repeats |
| Properties.DedupKeepsAllIffNoDup | locallibrary/catalog/api.py:197 | the stored links hold the listed ids with the same counts, in whatever order, exactly when the list has no repeats |
| Properties.CreateThenGetBook | locallibrary/catalog/api.py:180-206 | a created book reads back with the payload's row and the payload's genre ids, each once. The create response echoes the sent list. Ignoring order, the two genre lists hold the same ids with the same counts exactly when the payload repeats no genre id |
| Properties.UpdateThenGetAuthor | locallibrary/catalog/api.py:84-99 | after an update, get returns the payload's author under the old id |
| Properties.UpdateThenGetBookInstance | locallibrary/catalog/api.py:251-301 | after an update, get returns the payload's copy under the old UUID |
| Properties.UpdateAuthorOverwrites | locallibrary/catalog/api.py:93-99 | two updates in a row end as the second update alone: nothing of the first payload survives |
| Properties.UpdateBookOverwrites | locallibrary/catalog/api.py:208-228 | the same for books, genre links included |
| Properties.UpdateBookReplacesGenres | locallibrary/catalog/api.py:211-226 | the links after `update_book` do not depend on the links before; they hold exactly the payload's ids, and the response echoes the payload's list |
| Properties.DeleteThenGetAuthor | locallibrary/catalog/api.py:84-105 | a deleted author is then not found |
| Properties.DeleteThenGetGenre | locallibrary/catalog/api.py:112-133 | a deleted genre is then not found |
| Properties.DeleteThenGetLanguage | locallibrary/catalog/api.py:140-161 | a deleted language is then not found |
| Properties.DeleteThenGetBook | locallibrary/catalog/api.py:180-234 | a deleted book is then not found |
| Properties.DeleteThenGetBookInstance | locallibrary/catalog/api.py:251-307 | a deleted copy is then not found |
| Properties.DeleteGenreUnlinks | locallibrary/catalog/api.py:129-191 | after a genre is deleted, every book is still there and none lists that genre |
| Properties.CreateBookInstanceTwice | locallibrary/catalog/api.py:266-275 | given two fresh UUIDs (the second is required to be absent after the first creation, so the two differ), both copies are stored as sent, and the first copy is unchanged by the second |
| AsWritten.CreateBookKwargs | locallibrary/catalog/api.py:195-196 | the keywords `create_book` passes to `Book.objects.create` still include `genre_ids` |
| AsWritten.CreateBookAsWritten | locallibrary/catalog/api.py:193-206 | as written, every request that passes the key check fails with a server error and stores nothing |
| AsWritten.CreateBookDiscrepancy | locallibrary/catalog/api.py:195-196 | the as-written endpoint fails where the intended one stores the payload's book and answers with it |
| AsWritten.EchoDueBack | locallibrary/catalog/api.py:281 | `x.isoformat() if x else None` renders a date, gives None for a falsy value, and raises for a non-empty string |
| AsWritten.CreateBookInstanceAsWritten | locallibrary/catalog/api.py:262-283 | as written: without `due_back` it behaves as intended. With a `due_back` the database rejects, the row is not saved and the answer is a server error. With one it accepts, the row is saved and the answer is still a server error |
| AsWritten.UpdateBookInstanceAsWritten | locallibrary/catalog/api.py:285-301 | the same for the update: a non-empty `due_back` that saves leaves the updated row stored and the response fails |
| AsWritten.StatusKeys | locallibrary/catalog/api.py:101 | the status codes read from a `response` dictionary: an integer key is its own code; a string key contributes each of its characters as a key of its own, and nothing else; no integer code appears that was not declared |
| AsWritten.Send | locallibrary/catalog/api.py:105 | a result is sent unchanged when 200 is declared or when a single integer code is declared; it fails with a server error when no integer code is declared, or when 200 is absent and the declaration does not give exactly one key |
| AsWritten.DeleteAuthorAsWritten | locallibrary/catalog/api.py:101-105 | as written: 401 and 404 as intended; deleting a stored author removes it and then answers with a server error |
| AsWritten.DeleteGenreAsWritten | locallibrary/catalog/api.py:129-133 | the same for a genre |
| AsWritten.DeleteLanguageAsWritten | locallibrary/catalog/api.py:157-161 | the same for a language |
| AsWritten.DeleteBookAsWritten | locallibrary/catalog/api.py:230-234 | the same for a book |
| AsWritten.DeleteBookInstanceAsWritten | locallibrary/catalog/api.py:303-307 | the same for a copy |
| AsWritten.DeleteDiscrepancy | locallibrary/catalog/api.py:101-105 | for each of the five resources, deleting a stored row as written leaves the same store as the intended delete (under autocommit), but answers with a server error instead of `{"success": true}` |
| AsWritten.DeclaredCodeSends | locallibrary/catalog/api.py:303 | declared as `{200: ...}`, or with any single code, the result is sent unchanged; declared as `{"success": ...}` it fails |
| AsWritten.DueBackEchoDiscrepancy | locallibrary/catalog/api.py:273-281 | a copy sent with an accepted `due_back` is saved, but the as-written response fails, while the intended endpoint answers with the date in ISO form |

## Left out

- Django's ORM and database:
  - Transactions and autoincrement are not modelled.
  - New integer ids are a parameter that is required to be absent from its table.
  - New UUIDs are a parameter that is required to be absent from the copies table; `uuid.uuid4()` randomness is not modelled.
  - A UUID is kept as its canonical text. A lookup by a differently written but equal UUID is not modelled.
- Foreign keys:
  - No foreign key is checked. `author_id`, `language_id`, `book_id` and the ids in `genre_ids` may name missing rows. For `genre_ids`, the link table's foreign key would make `book.genre.set` raise in the source after the book is saved; the model links the id.
  - Each foreign key's `on_delete` is not modelled; it lives in `catalog/models.py`, which is not part of this model. That setting decides whether rows referring to a deleted row are removed, nulled, kept, or block the delete.
  - The only exception is the many-to-many link rows, which are always removed with either end.
  - Nothing in the catalog API checks a status value or a foreign key.
- django-ninja:
  - Routing, request parsing, schema validation and JSON serialisation are not modelled.
  - A request reaches an endpoint with a well-typed payload.
  - 401, 404 and 500 are response constants.
- Handlers.DeleteAuthor, Handlers.DeleteLanguage, Handlers.DeleteBook: keep every row that refers to the deleted one, because `on_delete` is not modelled (see above). They answer `{"success": true}`, which is the evidently intended answer; the routes as written fail to send it (see Findings).
- Handlers.GetBookInstance, Handlers.UpdateBookInstance, Handlers.DeleteBookInstance, Api.Serve: answer 404 for any path text that is not a stored key. Path text that is not a UUID is not modelled. Django converts the path text through the UUID column before the lookup; text that is no UUID raises a validation error that `get_object_or_404` does not catch, so the source answers with a server error there.
- Order of genre links: `values_list` on the link table returns the linked ids in an order the database chooses. The model keeps them in order of first appearance in the payload.
- Handlers.CreateBookInstance, Handlers.UpdateBookInstance: take `due_back` as a date that has already been parsed. The source text echoes the string as assigned; see Findings.
- Author dates are kept as the strings the schema declares. `catalog/models.py` is not part of this model, so the model treats them as text end to end.
- Handlers.GetAuthor, Listing.ListAuthors, Properties.CreateThenGetAuthor, Properties.UpdateThenGetAuthor: reading back an author with a date is not modelled. If the columns are date columns, a row read back holds a date. `AuthorOut` declares the dates as `Optional[str]` (api.py:32-33) and would reject it, so the source would answer with a server error there. Create and update still echo the sent text.
- Handlers.CreateAuthor, Handlers.CreateGenre, Handlers.CreateLanguage, Handlers.CreateBook: the `Model(**kwargs)` branch that fails on an unknown keyword is in the body, but the intended payloads never reach it.
- Api.Read: states only the 404 answer itself. The contracts of the Handlers and Listing members it calls state the bodies.
- `locallibrary/catalog/urls.py` is not part of this model: it only wires routes. The HTML views are not part of this model either.
- AsWritten.CreateBookInstanceAsWritten, AsWritten.UpdateBookInstanceAsWritten:
  - The date column's conversion on save is a parameter, not Django's date parser.
  - A saved row is assumed to stay saved when the response then fails, as under Django's default autocommit. The project settings are not part of this model.
- AsWritten.DeleteAuthorAsWritten, AsWritten.DeleteGenreAsWritten, AsWritten.DeleteLanguageAsWritten, AsWritten.DeleteBookAsWritten, AsWritten.DeleteBookInstanceAsWritten, AsWritten.DeleteDiscrepancy: a deleted row is assumed to stay deleted when the response then fails, as under Django's default autocommit. With `ATOMIC_REQUESTS` on, the exception raised while sending would roll the delete back, and the source would answer 500 with the store unchanged. The project settings are not part of this model.

## Findings

| source | as written | input that shows it | evidently intended | confidence | as-written member | corrected member |
|---|---|---|---|---|---|---|
| locallibrary/catalog/api.py:195-196 | `payload.dict().pop("genre_ids")` pops from a copy that is thrown away. `Book.objects.create(**payload.dict())` then receives `genre_ids`, which names no column of Book, so the model constructor raises | any `POST /books` with a valid key, e.g. `{"title": "T", "author_id": 1, "summary": "S", "isbn": "I", "genre_ids": [1], "language_id": 1}` | split the dictionary once, as `update_book` does at lines 211-212: create the row from the other fields, then set the genres | high (not executed) | AsWritten.CreateBookAsWritten | Handlers.CreateBook |
| locallibrary/catalog/api.py:281 | the response calls `instance.due_back.isoformat()` on the attribute as assigned from the payload. That value is still the schema's `str`, so a non-empty `due_back` raises after the row is saved. The same holds at line 299 for the update | `POST /bookinstances` with a valid key and `{"book_id": 1, "imprint": "I", "due_back": "2024-01-01", "status": "a"}` | answer with the saved date in ISO form | medium (not executed) | AsWritten.CreateBookInstanceAsWritten | Handlers.CreateBookInstance |
| locallibrary/catalog/api.py:101 | each delete route declares `response={"success": bool}`. django-ninja reads the keys of that dictionary as status codes, and a string key as one code per character, so four one-character codes are declared and no schema exists for status 200. Sending `{"success": True}` then raises a configuration error after the row is deleted (under autocommit). The same holds at lines 129, 157, 230 and 303 | `DELETE /authors/1` with a valid key while author 1 exists | answer `{"success": true}`, with the codes declared as `{200: ...}` | medium (not executed) | AsWritten.DeleteAuthorAsWritten | Handlers.DeleteAuthor |
