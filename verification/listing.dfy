/**
 * The list endpoints. The model fixes no order for `Model.objects.all()`:
 * the keys are drawn one at a time in an unspecified order, and the
 * contracts say only that every stored row appears exactly once.
 */
module Listing {
  import opened Schemas
  import opened Store
  import opened Projection
  import opened Handlers

  /** Some enumeration of `keys`, each exactly once. */
  method Enumerate<K(==)>(keys: set<K>) returns (order: seq<K>)
    ensures |order| == |keys|
    ensures forall k :: k in order <==> k in keys
    ensures forall i, j :: 0 <= i < j < |order| ==> order[i] != order[j]
  {
    order := [];
    var rest := keys;
    while rest != {}
      invariant rest <= keys
      invariant forall k :: k in keys <==> k in order || k in rest
      invariant forall k :: k in order ==> k !in rest
      invariant |order| + |rest| == |keys|
      invariant forall i, j :: 0 <= i < j < |order| ==> order[i] != order[j]
      decreases |rest|
    {
      var k :| k in rest;
      order := order + [k];
      rest := rest - {k};
    }
  }

  /** The rows of one table in enumeration order, with the key each came from. */
  method Rows<K(==), R>(m: map<K, R>) returns (keys: seq<K>, rows: seq<R>)
    ensures |keys| == |rows| == |m|
    ensures forall k :: k in keys <==> k in m
    ensures forall i, j :: 0 <= i < j < |keys| ==> keys[i] != keys[j]
    ensures forall i :: 0 <= i < |rows| ==> keys[i] in m && rows[i] == m[keys[i]]
  {
    keys := Enumerate(m.Keys);
    rows := seq(|keys|, i requires 0 <= i < |keys| => m[keys[i]]);
  }

  method ListAuthors(s: Store) returns (rows: seq<Author>)
    ensures |rows| == |s.authors|
    ensures forall k :: k in s.authors ==> s.authors[k] in rows
    ensures forall i :: 0 <= i < |rows| ==> exists k :: k in s.authors && rows[i] == s.authors[k]
    ensures Consistent(s) ==> forall i, j :: 0 <= i < j < |rows| ==> rows[i].id != rows[j].id
  {
    var ids;
    ids, rows := Rows(s.authors);
    forall k | k in s.authors ensures s.authors[k] in rows {
      var i :| 0 <= i < |ids| && ids[i] == k;
    }
    forall i | 0 <= i < |rows| ensures exists k :: k in s.authors && rows[i] == s.authors[k] {
      var k := ids[i];
      assert k in s.authors && rows[i] == s.authors[k];
    }
    if Consistent(s) {
      assert forall i :: 0 <= i < |rows| ==> rows[i].id == ids[i];
    }
  }

  method ListGenres(s: Store) returns (rows: seq<Genre>)
    ensures |rows| == |s.genres|
    ensures forall k :: k in s.genres ==> s.genres[k] in rows
    ensures forall i :: 0 <= i < |rows| ==> exists k :: k in s.genres && rows[i] == s.genres[k]
    ensures Consistent(s) ==> forall i, j :: 0 <= i < j < |rows| ==> rows[i].id != rows[j].id
  {
    var ids;
    ids, rows := Rows(s.genres);
    forall k | k in s.genres ensures s.genres[k] in rows {
      var i :| 0 <= i < |ids| && ids[i] == k;
    }
    forall i | 0 <= i < |rows| ensures exists k :: k in s.genres && rows[i] == s.genres[k] {
      var k := ids[i];
      assert k in s.genres && rows[i] == s.genres[k];
    }
    if Consistent(s) {
      assert forall i :: 0 <= i < |rows| ==> rows[i].id == ids[i];
    }
  }

  method ListLanguages(s: Store) returns (rows: seq<Language>)
    ensures |rows| == |s.languages|
    ensures forall k :: k in s.languages ==> s.languages[k] in rows
    ensures forall i :: 0 <= i < |rows| ==> exists k :: k in s.languages && rows[i] == s.languages[k]
    ensures Consistent(s) ==> forall i, j :: 0 <= i < j < |rows| ==> rows[i].id != rows[j].id
  {
    var ids;
    ids, rows := Rows(s.languages);
    forall k | k in s.languages ensures s.languages[k] in rows {
      var i :| 0 <= i < |ids| && ids[i] == k;
    }
    forall i | 0 <= i < |rows| ensures exists k :: k in s.languages && rows[i] == s.languages[k] {
      var k := ids[i];
      assert k in s.languages && rows[i] == s.languages[k];
    }
    if Consistent(s) {
      assert forall i :: 0 <= i < |rows| ==> rows[i].id == ids[i];
    }
  }

  /** The response of every row of one table, in enumeration order. */
  method Project<K(==), R, O>(m: map<K, R>, render: (K, R) -> O) returns (rows: seq<O>)
    ensures |rows| == |m|
    ensures forall k :: k in m ==> render(k, m[k]) in rows
    ensures forall i :: 0 <= i < |rows| ==> exists k :: k in m && rows[i] == render(k, m[k])
    ensures forall i, j :: 0 <= i < j < |rows| ==> exists k1, k2 :: k1 in m && k2 in m && k1 != k2 && rows[i] == render(k1, m[k1]) && rows[j] == render(k2, m[k2])
  {
    var keys, values := Rows(m);
    rows := seq(|keys|, i requires 0 <= i < |keys| && keys[i] in m => render(keys[i], m[keys[i]]));
    forall k | k in m ensures render(k, m[k]) in rows {
      var i :| 0 <= i < |keys| && keys[i] == k;
      assert rows[i] == render(k, m[k]);
    }
    forall i | 0 <= i < |rows| ensures exists k :: k in m && rows[i] == render(k, m[k]) {
      assert rows[i] == render(keys[i], m[keys[i]]);
    }
    forall i, j | 0 <= i < j < |rows|
      ensures exists k1, k2 :: k1 in m && k2 in m && k1 != k2 && rows[i] == render(k1, m[k1]) && rows[j] == render(k2, m[k2])
    {
      assert rows[i] == render(keys[i], m[keys[i]]) && rows[j] == render(keys[j], m[keys[j]]);
    }
  }

  /** `list_books`: each stored book's response dictionary, genre ids included. */
  method ListBooks(s: Store) returns (rows: seq<BookOut>)
    ensures |rows| == |s.books|
    ensures forall k :: k in s.books ==> BookOutOf(s, k) in rows
    ensures forall i :: 0 <= i < |rows| ==> exists k :: k in s.books && rows[i] == BookOutOf(s, k)
    ensures Consistent(s) ==> forall i, j :: 0 <= i < j < |rows| ==> rows[i].id != rows[j].id
  {
    rows := Project(s.books, (k, b) => ToBookOut(b, GenreIdsOf(s, k)));
  }

  /** `list_bookinstances`: each stored copy's response dictionary. */
  method ListBookInstances(s: Store) returns (rows: seq<BookInstanceOut>)
    ensures |rows| == |s.instances|
    ensures forall k :: k in s.instances ==> ToBookInstanceOut(s.instances[k]) in rows
    ensures forall i :: 0 <= i < |rows| ==> exists k :: k in s.instances && rows[i] == ToBookInstanceOut(s.instances[k])
    ensures Consistent(s) ==> forall i, j :: 0 <= i < j < |rows| ==> rows[i].id != rows[j].id
  {
    rows := Project(s.instances, (k, bi) => ToBookInstanceOut(bi));
  }
}
