/**
 * The dynamic attribute handling the endpoints rely on: `payload.dict()` as an
 * ordered list of items, `setattr(row, attr, value)` per entity, the
 * overwrite loop `for attr, value in data.items(): setattr(...)`,
 * `Model(**kwargs)` (which refuses a keyword naming no column) and `dict.pop`.
 */
module Attrs {
  import opened Wrappers
  import opened IsoDate
  import opened Schemas

  /** The values a payload dictionary can hold. */
  datatype Value = Str(str: string) | Int(num: int) | Ints(nums: seq<int>) | DateValue(date: Date) | Null

  /** One `(attr, value)` item of a payload dictionary. */
  type Field = (string, Value)

  function OptionalStr(o: Option<string>): Value {
    match o
    case Some(v) => Str(v)
    case None => Null
  }

  function OptionalDate(o: Option<Date>): Value {
    match o
    case Some(d) => DateValue(d)
    case None => Null
  }

  predicate Mentions(items: seq<Field>, name: string) {
    exists i :: 0 <= i < |items| && items[i].0 == name
  }

  // payload.dict(): the schema's fields in declaration order

  function AuthorDict(p: AuthorIn): seq<Field> {
    [("first_name", Str(p.firstName)), ("last_name", Str(p.lastName)),
     ("date_of_birth", OptionalStr(p.dateOfBirth)), ("date_of_death", OptionalStr(p.dateOfDeath))]
  }

  function GenreDict(p: GenreIn): seq<Field> {
    [("name", Str(p.name))]
  }

  function LanguageDict(p: LanguageIn): seq<Field> {
    [("name", Str(p.name))]
  }

  function BookDict(p: BookIn): seq<Field> {
    [("title", Str(p.title)), ("author_id", Int(p.authorId)), ("summary", Str(p.summary)),
     ("isbn", Str(p.isbn)), ("genre_ids", Ints(p.genreIds)), ("language_id", Int(p.languageId))]
  }

  function BookInstanceDict(p: BookInstanceIn): seq<Field> {
    [("book_id", Int(p.bookId)), ("imprint", Str(p.imprint)),
     ("due_back", OptionalDate(p.dueBack)), ("status", Str(p.status))]
  }

  // Column names the model constructors accept as keywords

  const AuthorColumns: set<string> := {"id", "first_name", "last_name", "date_of_birth", "date_of_death"}
  const GenreColumns: set<string> := {"id", "name"}
  const LanguageColumns: set<string> := {"id", "name"}
  const BookColumns: set<string> := {"id", "title", "author_id", "summary", "isbn", "language_id"}

  // setattr(row, attr, value). A name that is no column (or a value of the
  // wrong shape, which the schemas never produce) leaves the row's columns
  // as they were: Python stores it as a plain attribute that save() ignores.

  function SetAuthorAttr(a: Author, f: Field): Author {
    var (name, v) := f;
    if name == "id" && v.Int? then a.(id := v.num)
    else if name == "first_name" && v.Str? then a.(firstName := v.str)
    else if name == "last_name" && v.Str? then a.(lastName := v.str)
    else if name == "date_of_birth" && v.Str? then a.(dateOfBirth := Some(v.str))
    else if name == "date_of_birth" && v.Null? then a.(dateOfBirth := None)
    else if name == "date_of_death" && v.Str? then a.(dateOfDeath := Some(v.str))
    else if name == "date_of_death" && v.Null? then a.(dateOfDeath := None)
    else a
  }

  function SetGenreAttr(g: Genre, f: Field): Genre {
    var (name, v) := f;
    if name == "id" && v.Int? then g.(id := v.num)
    else if name == "name" && v.Str? then g.(name := v.str)
    else g
  }

  function SetLanguageAttr(l: Language, f: Field): Language {
    var (name, v) := f;
    if name == "id" && v.Int? then l.(id := v.num)
    else if name == "name" && v.Str? then l.(name := v.str)
    else l
  }

  function SetBookAttr(b: Book, f: Field): Book {
    var (name, v) := f;
    if name == "id" && v.Int? then b.(id := v.num)
    else if name == "title" && v.Str? then b.(title := v.str)
    else if name == "author_id" && v.Int? then b.(authorId := v.num)
    else if name == "summary" && v.Str? then b.(summary := v.str)
    else if name == "isbn" && v.Str? then b.(isbn := v.str)
    else if name == "language_id" && v.Int? then b.(languageId := v.num)
    else b
  }

  function SetBookInstanceAttr(bi: BookInstance, f: Field): BookInstance {
    var (name, v) := f;
    if name == "book_id" && v.Int? then bi.(bookId := v.num)
    else if name == "imprint" && v.Str? then bi.(imprint := v.str)
    else if name == "due_back" && v.DateValue? then bi.(dueBack := Some(v.date))
    else if name == "due_back" && v.Null? then bi.(dueBack := None)
    else if name == "status" && v.Str? then bi.(status := v.str)
    else bi
  }

  /** `for attr, value in items: setattr(r, attr, value)`. */
  function Overwrite<R>(r: R, items: seq<Field>, setAttr: (R, Field) -> R): R
    decreases |items|
  {
    if |items| == 0 then r else Overwrite(setAttr(r, items[0]), items[1..], setAttr)
  }

  /** `Model(**kwargs)`: a keyword naming no column raises; otherwise each keyword is assigned in turn. */
  function Construct<R>(blank: R, kwargs: seq<Field>, columns: set<string>,
                        setAttr: (R, Field) -> R): Option<R>
  {
    if forall i :: 0 <= i < |kwargs| ==> kwargs[i].0 in columns
    then Some(Overwrite(blank, kwargs, setAttr))
    else None
  }

  /** `d.pop(name)`: the value under `name` (None where Python raises KeyError) and the remaining items. */
  function Pop(items: seq<Field>, name: string): (Option<Value>, seq<Field>) {
    if |items| == 0 then (None, [])
    else if items[0].0 == name then (Some(items[0].1), items[1..])
    else
      var (v, rest) := Pop(items[1..], name);
      (v, [items[0]] + rest)
  }

  /** Popping returns the value of the first item with that name and removes exactly that item. */
  lemma {:induction false} PopFirst(items: seq<Field>, name: string, i: nat)
    requires i < |items| && items[i].0 == name && !Mentions(items[..i], name)
    ensures Pop(items, name) == (Some(items[i].1), items[..i] + items[i + 1..])
  {
    if i == 0 {
      assert items[..0] + items[1..] == items[1..];
    } else {
      assert items[0] == items[..i][0];
      assert items[1..][i - 1] == items[i];
      var tail := items[1..][..i - 1];
      forall j | 0 <= j < |tail| ensures tail[j].0 != name {
        assert tail[j] == items[..i][j + 1];
      }
      PopFirst(items[1..], name, i - 1);
      assert [items[0]] + (items[1..][..i - 1] + items[1..][i..]) == items[..i] + items[i + 1..];
    }
  }

  /** The genre id list a popped `genre_ids` value holds. */
  function AsIds(v: Option<Value>): seq<int> {
    if v.Some? && v.value.Ints? then v.value.nums else []
  }

  /**
   * The split `update_book` performs: `data = payload.dict()`,
   * `genre_ids = data.pop("genre_ids")`. Yields the row items and the genre ids.
   */
  function SplitBook(p: BookIn): (split: (seq<Field>, seq<int>))
    ensures split.1 == p.genreIds
    ensures split.0 == BookDict(p)[..4] + BookDict(p)[5..]
    ensures !Mentions(split.0, "genre_ids")
    ensures forall i :: 0 <= i < |split.0| ==> split.0[i].0 in BookColumns - {"id"}
  {
    var d := BookDict(p);
    assert !Mentions(d[..4], "genre_ids");
    PopFirst(d, "genre_ids", 4);
    var (popped, data) := Pop(d, "genre_ids");
    assert data == [d[0], d[1], d[2], d[3], d[5]];
    (data, AsIds(popped))
  }

  /** One turn of the overwrite loop, at position `k` of the items. */
  lemma OverwriteAt<R>(r: R, items: seq<Field>, k: nat, setAttr: (R, Field) -> R)
    requires k < |items|
    ensures Overwrite(r, items[k..], setAttr) == Overwrite(setAttr(r, items[k]), items[k + 1..], setAttr)
  {
    assert items[k..][0] == items[k];
    assert items[k..][1..] == items[k + 1..];
  }

  // The overwrite loop over a payload's items sets every column the payload
  // names to the payload's value and, since no schema has an `id` field,
  // keeps the row's id.

  lemma OverwriteAuthor(a: Author, p: AuthorIn)
    ensures Overwrite(a, AuthorDict(p), SetAuthorAttr) == p.Row(a.id)
  {
    var d := AuthorDict(p);
    var a1 := SetAuthorAttr(a, d[0]);
    var a2 := SetAuthorAttr(a1, d[1]);
    var a3 := SetAuthorAttr(a2, d[2]);
    OverwriteAt(a, d, 0, SetAuthorAttr);
    OverwriteAt(a1, d, 1, SetAuthorAttr);
    OverwriteAt(a2, d, 2, SetAuthorAttr);
    OverwriteAt(a3, d, 3, SetAuthorAttr);
    assert d[0..] == d;
  }

  lemma OverwriteGenre(g: Genre, p: GenreIn)
    ensures Overwrite(g, GenreDict(p), SetGenreAttr) == p.Row(g.id)
  {
  }

  lemma OverwriteLanguage(l: Language, p: LanguageIn)
    ensures Overwrite(l, LanguageDict(p), SetLanguageAttr) == p.Row(l.id)
  {
  }

  lemma OverwriteBook(b: Book, p: BookIn)
    ensures Overwrite(b, SplitBook(p).0, SetBookAttr) == p.Row(b.id)
  {
    var d := SplitBook(p).0;
    assert d == [("title", Str(p.title)), ("author_id", Int(p.authorId)), ("summary", Str(p.summary)),
                 ("isbn", Str(p.isbn)), ("language_id", Int(p.languageId))];
    var b1 := SetBookAttr(b, d[0]);
    var b2 := SetBookAttr(b1, d[1]);
    var b3 := SetBookAttr(b2, d[2]);
    var b4 := SetBookAttr(b3, d[3]);
    OverwriteAt(b, d, 0, SetBookAttr);
    OverwriteAt(b1, d, 1, SetBookAttr);
    OverwriteAt(b2, d, 2, SetBookAttr);
    OverwriteAt(b3, d, 3, SetBookAttr);
    OverwriteAt(b4, d, 4, SetBookAttr);
    assert d[0..] == d;
  }

  lemma OverwriteBookInstance(bi: BookInstance, p: BookInstanceIn)
    ensures Overwrite(bi, BookInstanceDict(p), SetBookInstanceAttr) == p.Row(bi.id)
  {
    var d := BookInstanceDict(p);
    var b1 := SetBookInstanceAttr(bi, d[0]);
    var b2 := SetBookInstanceAttr(b1, d[1]);
    var b3 := SetBookInstanceAttr(b2, d[2]);
    OverwriteAt(bi, d, 0, SetBookInstanceAttr);
    OverwriteAt(b1, d, 1, SetBookInstanceAttr);
    OverwriteAt(b2, d, 2, SetBookInstanceAttr);
    OverwriteAt(b3, d, 3, SetBookInstanceAttr);
    assert d[0..] == d;
  }

  // Rows as a model constructor starts them, before the keywords are assigned

  function BlankAuthor(id: int): Author { Author(id, "", "", None, None) }
  function BlankGenre(id: int): Genre { Genre(id, "") }
  function BlankLanguage(id: int): Language { Language(id, "") }
  function BlankBook(id: int): Book { Book(id, "", 0, "", "", 0) }

  // `Model.objects.create(**kwargs)` with a schema's own fields succeeds and
  // yields the payload's row.

  lemma ConstructAuthor(id: int, p: AuthorIn)
    ensures Construct(BlankAuthor(id), AuthorDict(p), AuthorColumns, SetAuthorAttr) == Some(p.Row(id))
  {
    OverwriteAuthor(BlankAuthor(id), p);
  }

  lemma ConstructGenre(id: int, p: GenreIn)
    ensures Construct(BlankGenre(id), GenreDict(p), GenreColumns, SetGenreAttr) == Some(p.Row(id))
  {
    OverwriteGenre(BlankGenre(id), p);
  }

  lemma ConstructLanguage(id: int, p: LanguageIn)
    ensures Construct(BlankLanguage(id), LanguageDict(p), LanguageColumns, SetLanguageAttr) == Some(p.Row(id))
  {
    OverwriteLanguage(BlankLanguage(id), p);
  }

  lemma ConstructBook(id: int, p: BookIn)
    ensures Construct(BlankBook(id), SplitBook(p).0, BookColumns, SetBookAttr) == Some(p.Row(id))
  {
    OverwriteBook(BlankBook(id), p);
  }
}
