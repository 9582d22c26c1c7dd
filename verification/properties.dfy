/**
 * Properties that relate several endpoint calls: a created or updated entity
 * reads back as written, a deleted one is gone, an update leaves nothing of
 * the previous payload, and the book-genre links are replaced, not merged.
 */
module Properties {
  import opened Wrappers
  import opened Schemas
  import opened Auth
  import opened Store
  import opened Projection
  import opened Handlers

  // Create, then get the assigned id: the entity reads back as the create response

  lemma CreateThenGetAuthor(s: Store, key: Option<string>, p: AuthorIn, newId: int)
    requires newId !in s.authors && Admitted(key)
    ensures var c := CreateAuthor(s, key, p, newId);
      GetAuthor(c.store, newId).response == c.response == AuthorBody(p.Row(newId))
  {
  }

  lemma CreateThenGetGenre(s: Store, key: Option<string>, p: GenreIn, newId: int)
    requires newId !in s.genres && Admitted(key)
    ensures var c := CreateGenre(s, key, p, newId);
      GetGenre(c.store, newId).response == c.response == GenreBody(p.Row(newId))
  {
  }

  lemma CreateThenGetLanguage(s: Store, key: Option<string>, p: LanguageIn, newId: int)
    requires newId !in s.languages && Admitted(key)
    ensures var c := CreateLanguage(s, key, p, newId);
      GetLanguage(c.store, newId).response == c.response == LanguageBody(p.Row(newId))
  {
  }

  lemma CreateThenGetBookInstance(s: Store, key: Option<string>, p: BookInstanceIn, newId: string)
    requires newId !in s.instances && Admitted(key)
    ensures var c := CreateBookInstance(s, key, p, newId);
      GetBookInstance(c.store, newId).response == c.response
  {
  }

  /** Dropping repeats loses an element exactly when the list has repeats. */
  lemma {:induction false} DedupKeepsLengthIffNoDup(xs: seq<int>)
    ensures |Dedup(xs)| == |xs| <==> NoDup(xs)
  {
    if |xs| > 0 && |Dedup(xs)| == |xs| {
      var init := xs[..|xs| - 1];
      var last := xs[|xs| - 1];
      var rest := Dedup(init);
      assert Dedup(xs) == if last in rest then rest else rest + [last];
      assert last !in rest && |rest| == |init|;
      DedupKeepsLengthIffNoDup(init);
      assert NoDup(init) && last !in init;
      forall i, j | 0 <= i < j < |xs| ensures xs[i] != xs[j] {
        assert xs[i] == init[i];
        if j < |xs| - 1 {
          assert xs[j] == init[j];
        }
      }
    }
  }

  /**
   * The same without reference to order: the stored links hold the listed
   * ids with the same counts exactly when the list has no repeats.
   */
  lemma DedupKeepsAllIffNoDup(xs: seq<int>)
    ensures multiset(Dedup(xs)) == multiset(xs) <==> NoDup(xs)
  {
    DedupKeepsLengthIffNoDup(xs);
    if multiset(Dedup(xs)) == multiset(xs) {
      assert |multiset(Dedup(xs))| == |Dedup(xs)|;
    }
  }

  /**
   * A created book reads back with the payload's row and genre ids, each
   * once. The create response echoes the payload's list as sent, so the two
   * genre lists hold the same ids with the same counts exactly when the
   * payload repeats none.
   */
  lemma CreateThenGetBook(s: Store, key: Option<string>, p: BookIn, newId: int)
    requires newId !in s.books && Admitted(key)
    ensures var c := CreateBook(s, key, p, newId);
      var g := GetBook(c.store, newId).response;
      && g.BookBody? && c.response.BookBody?
      && FromBookOut(g.book).0 == FromBookOut(c.response.book).0 == p.Row(newId)
      && c.response.book.genreIds == p.genreIds
      && (forall x :: x in g.book.genreIds <==> x in p.genreIds)
      && NoDup(g.book.genreIds)
      && (multiset(g.book.genreIds) == multiset(c.response.book.genreIds) <==> NoDup(p.genreIds))
  {
    var c := CreateBook(s, key, p, newId);
    assert GenreIdsOf(c.store, newId) == Dedup(p.genreIds);
    DedupKeepsAllIffNoDup(p.genreIds);
  }

  // Update, then get: the payload's fields under the unchanged id

  lemma UpdateThenGetAuthor(s: Store, key: Option<string>, authorId: int, p: AuthorIn)
    requires Consistent(s) && authorId in s.authors && Admitted(key)
    ensures GetAuthor(UpdateAuthor(s, key, authorId, p).store, authorId).response == AuthorBody(p.Row(authorId))
  {
  }

  lemma UpdateThenGetBookInstance(s: Store, key: Option<string>, instanceId: string, p: BookInstanceIn)
    requires Consistent(s) && instanceId in s.instances && Admitted(key)
    ensures GetBookInstance(UpdateBookInstance(s, key, instanceId, p).store, instanceId).response
            == BookInstanceBody(ToBookInstanceOut(p.Row(instanceId)))
  {
  }

  /** A second update leaves no trace of the first: full overwrite, no merge. */
  lemma UpdateAuthorOverwrites(s: Store, key: Option<string>, authorId: int, p1: AuthorIn, p2: AuthorIn)
    ensures UpdateAuthor(UpdateAuthor(s, key, authorId, p1).store, key, authorId, p2)
            == UpdateAuthor(s, key, authorId, p2)
  {
  }

  /** The same for books, genre links included: the later genre list replaces the earlier one. */
  lemma UpdateBookOverwrites(s: Store, key: Option<string>, bookId: int, p1: BookIn, p2: BookIn)
    ensures UpdateBook(UpdateBook(s, key, bookId, p1).store, key, bookId, p2)
            == UpdateBook(s, key, bookId, p2)
  {
    if Admitted(key) && bookId in s.books {
      var s1 := UpdateBook(s, key, bookId, p1).store;
      var id := s.books[bookId].id;
      assert s1.books[bookId].id == id;
      var final := UpdateBook(s1, key, bookId, p2).store;
      assert final.books == s.books[bookId := p2.Row(id)];
      assert final.bookGenres == SetGenres(s.bookGenres, bookId, p2.genreIds);
    }
  }

  /**
   * The links after `update_book` depend only on the payload: two stores that
   * differ only in their links end equal.
   */
  lemma UpdateBookReplacesGenres(s1: Store, s2: Store, key: Option<string>, bookId: int, p: BookIn)
    requires s1.(bookGenres := s2.bookGenres) == s2
    requires bookId in s1.books && Admitted(key)
    ensures UpdateBook(s1, key, bookId, p).store.bookGenres[bookId]
            == UpdateBook(s2, key, bookId, p).store.bookGenres[bookId]
    ensures forall x :: x in GenreIdsOf(UpdateBook(s1, key, bookId, p).store, bookId) <==> x in p.genreIds
    ensures UpdateBook(s1, key, bookId, p).response.book.genreIds == p.genreIds
  {
  }

  // Delete, then get: not found

  lemma DeleteThenGetAuthor(s: Store, key: Option<string>, authorId: int)
    requires authorId in s.authors && Admitted(key)
    ensures var d := DeleteAuthor(s, key, authorId);
      d.response == Success(true) && GetAuthor(d.store, authorId).response == NotFound
  {
  }

  lemma DeleteThenGetGenre(s: Store, key: Option<string>, genreId: int)
    requires genreId in s.genres && Admitted(key)
    ensures var d := DeleteGenre(s, key, genreId);
      d.response == Success(true) && GetGenre(d.store, genreId).response == NotFound
  {
  }

  lemma DeleteThenGetLanguage(s: Store, key: Option<string>, languageId: int)
    requires languageId in s.languages && Admitted(key)
    ensures var d := DeleteLanguage(s, key, languageId);
      d.response == Success(true) && GetLanguage(d.store, languageId).response == NotFound
  {
  }

  lemma DeleteThenGetBook(s: Store, key: Option<string>, bookId: int)
    requires bookId in s.books && Admitted(key)
    ensures var d := DeleteBook(s, key, bookId);
      d.response == Success(true) && GetBook(d.store, bookId).response == NotFound
  {
  }

  lemma DeleteThenGetBookInstance(s: Store, key: Option<string>, instanceId: string)
    requires instanceId in s.instances && Admitted(key)
    ensures var d := DeleteBookInstance(s, key, instanceId);
      d.response == Success(true) && GetBookInstance(d.store, instanceId).response == NotFound
  {
  }

  /** After a genre is deleted no book response lists it; the books themselves stay. */
  lemma DeleteGenreUnlinks(s: Store, key: Option<string>, genreId: int, bookId: int)
    requires genreId in s.genres && Admitted(key) && bookId in s.books
    ensures var g := GetBook(DeleteGenre(s, key, genreId).store, bookId).response;
      g.BookBody? && genreId !in g.book.genreIds
  {
  }

  /** Two creations in a row store two distinct copies, the first left as it was. */
  lemma CreateBookInstanceTwice(s: Store, key: Option<string>, p1: BookInstanceIn, p2: BookInstanceIn,
                                id1: string, id2: string)
    requires Admitted(key) && id1 !in s.instances
    requires id2 !in CreateBookInstance(s, key, p1, id1).store.instances
    ensures id1 != id2
    ensures var s2 := CreateBookInstance(CreateBookInstance(s, key, p1, id1).store, key, p2, id2).store;
      s2.instances[id1] == p1.Row(id1) && s2.instances[id2] == p2.Row(id2)
  {
  }
}
