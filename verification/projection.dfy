/**
 * The response dictionaries the Book and BookInstance endpoints assemble by
 * hand, and the reading direction of each, which shows that a response
 * determines the stored data it was built from.
 */
module Projection {
  import opened Wrappers
  import opened IsoDate
  import opened Schemas

  /** The Book response: the row's columns plus the genre id list. */
  function ToBookOut(b: Book, genreIds: seq<int>): (o: BookOut)
    ensures o.id == b.id && o.genreIds == genreIds
    ensures FromBookOut(o) == (b, genreIds)
  {
    BookOut(b.id, b.title, b.authorId, b.summary, b.isbn, genreIds, b.languageId)
  }

  /** Splits a BookOut into the book row and the genre ids. */
  function FromBookOut(o: BookOut): (Book, seq<int>) {
    (Book(o.id, o.title, o.authorId, o.summary, o.isbn, o.languageId), o.genreIds)
  }

  /** `d.isoformat() if d else None`; a stored date is always truthy. */
  function RenderDueBack(d: Option<Date>): (r: Option<string>)
    ensures r.None? <==> d.None?
    ensures d.Some? ==> |r.value| == 10 && ParseIso(r.value) == d
  {
    match d
    case None => None
    case Some(day) =>
      IsoRoundTrip(day);
      Some(ToIso(day))
  }

  /** The BookInstance response: id as text, due date in ISO form, other columns as stored. */
  function ToBookInstanceOut(bi: BookInstance): (o: BookInstanceOut)
    ensures o.id == bi.id && o.bookId == bi.bookId && o.imprint == bi.imprint && o.status == bi.status
    ensures o.dueBack.None? <==> bi.dueBack.None?
    ensures FromBookInstanceOut(o) == Some(bi)
  {
    BookInstanceOut(bi.id, bi.bookId, bi.imprint, RenderDueBack(bi.dueBack), bi.status)
  }

  /** Reads a BookInstance back from its response; None when `due_back` is not an ISO date. */
  function FromBookInstanceOut(o: BookInstanceOut): Option<BookInstance> {
    match o.dueBack
    case None => Some(BookInstance(o.id, o.bookId, o.imprint, None, o.status))
    case Some(text) =>
      match ParseIso(text)
      case None => None
      case Some(d) => Some(BookInstance(o.id, o.bookId, o.imprint, Some(d), o.status))
  }

  /** Two stored copies with the same response are the same copy. */
  lemma BookInstanceOutInjective(a: BookInstance, b: BookInstance)
    ensures ToBookInstanceOut(a) == ToBookInstanceOut(b) <==> a == b
  {
  }
}
