/**
 * The abstract store the endpoints read and write: one table per entity
 * keyed by primary key, BookInstances keyed by their UUID text, and the
 * book-genre association as each book's list of linked genre ids.
 */
module Store {
  import opened Schemas

  datatype Store = Store(
    authors: map<int, Author>,
    genres: map<int, Genre>,
    languages: map<int, Language>,
    books: map<int, Book>,
    bookGenres: map<int, seq<int>>,
    instances: map<string, BookInstance>)

  predicate NoDup(xs: seq<int>) {
    forall i, j :: 0 <= i < j < |xs| ==> xs[i] != xs[j]
  }

  /**
   * Every row sits under its own id, only stored books have genre links, and
   * a book links a genre at most once.
   */
  predicate Consistent(s: Store) {
    && (forall k :: k in s.authors ==> s.authors[k].id == k)
    && (forall k :: k in s.genres ==> s.genres[k].id == k)
    && (forall k :: k in s.languages ==> s.languages[k].id == k)
    && (forall k :: k in s.books ==> s.books[k].id == k)
    && (forall k :: k in s.instances ==> s.instances[k].id == k)
    && s.bookGenres.Keys <= s.books.Keys
    && (forall k :: k in s.bookGenres ==> NoDup(s.bookGenres[k]))
  }

  /** `book.genre.values_list('id', flat=True)`: the genre ids linked to a book. */
  function GenreIdsOf(s: Store, bookId: int): seq<int> {
    if bookId in s.bookGenres then s.bookGenres[bookId] else []
  }

  /**
   * The links `book.genre.set(ids)` leaves: each listed id once, in order of
   * first appearance.
   */
  function Dedup(xs: seq<int>): (r: seq<int>)
    ensures NoDup(r)
    ensures forall x :: x in r <==> x in xs
    ensures NoDup(xs) ==> r == xs
    ensures |r| <= |xs|
  {
    if |xs| == 0 then []
    else
      var init := xs[..|xs| - 1];
      var rest := Dedup(init);
      assert xs == init + [xs[|xs| - 1]];
      if xs[|xs| - 1] in rest then rest else rest + [xs[|xs| - 1]]
  }

  /** The links left once genre `g` is deleted. */
  function Drop(xs: seq<int>, g: int): (r: seq<int>)
    ensures forall x :: x in r <==> x in xs && x != g
    ensures NoDup(xs) ==> NoDup(r)
  {
    if |xs| == 0 then []
    else if xs[0] == g then Drop(xs[1..], g)
    else
      var rest := Drop(xs[1..], g);
      assert NoDup(xs) ==> NoDup(xs[1..]) && xs[0] !in xs[1..] by {
        if NoDup(xs) {
          forall i, j | 0 <= i < j < |xs[1..]| ensures xs[1..][i] != xs[1..][j] {
            assert xs[1..][i] == xs[i + 1] && xs[1..][j] == xs[j + 1];
          }
          forall j | 0 <= j < |xs[1..]| ensures xs[1..][j] != xs[0] {
            assert xs[1..][j] == xs[j + 1];
          }
        }
      }
      [xs[0]] + rest
  }

  /** `book.genre.set(ids)`: the book's links become exactly `ids`, whatever they were. */
  function SetGenres(links: map<int, seq<int>>, bookId: int, ids: seq<int>): (r: map<int, seq<int>>)
    ensures r.Keys == links.Keys + {bookId}
    ensures forall x :: x in r[bookId] <==> x in ids
    ensures NoDup(r[bookId])
    ensures forall k :: k in links && k != bookId ==> r[k] == links[k]
  {
    links[bookId := Dedup(ids)]
  }

  /** Deleting genre `g` removes its link rows from every book. */
  function UnlinkGenre(links: map<int, seq<int>>, g: int): (r: map<int, seq<int>>)
    ensures r.Keys == links.Keys
    ensures forall k :: k in r ==> g !in r[k]
    ensures forall k, x :: k in r && x != g ==> (x in r[k] <==> x in links[k])
    ensures forall k :: k in links && NoDup(links[k]) ==> NoDup(r[k])
  {
    map k | k in links :: Drop(links[k], g)
  }
}
