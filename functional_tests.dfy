/**
 Client scenarios built on the functional tests, some of them extended beyond
 what the tests check. Each works on any valid store, since the suite runs
 against one shared table that earlier requests have already filled.
 */
module FunctionalTests {
  import opened Api

  /** A created book can be fetched by the id its creation reply carries. */
  method CreateThenGet(store: BookStore, title: string, x: BookId) returns (created: Reply, fetched: Reply)
    requires store.Valid()
    requires !HasId(store.books, x)
    requires title != ""
    modifies store
    ensures store.Valid()
    ensures created == Ok(Created(x, title))
    ensures fetched == Ok(Detail(x, title, []))
  {
    created := store.Create(Some(title), x);
    assert store.books[|store.books| - 1] == Book(x, title, []);
    fetched := store.Get(x);
  }

  /** A created book shows up at the end of the listing with no comments. */
  method CreateThenList(store: BookStore, title: string, x: BookId) returns (created: Reply, listed: Reply)
    requires store.Valid()
    requires !HasId(store.books, x)
    requires title != ""
    modifies store
    ensures store.Valid()
    ensures created == Ok(Created(x, title))
    ensures listed.Ok? && listed.payload.Listing?
    ensures |listed.payload.items| == |old(store.books)| + 1
    ensures listed.payload.items[|old(store.books)|] == Summary(x, title, 0)
  {
    created := store.Create(Some(title), x);
    listed := store.List();
  }

  /** A body without a title, or with an empty one, is refused and nothing is stored. */
  method CreateWithoutTitle(store: BookStore, x: BookId) returns (absent: Reply, empty: Reply)
    requires store.Valid()
    requires !HasId(store.books, x)
    modifies store
    ensures store.Valid()
    ensures absent == Msg(MissingTitle) && empty == Msg(MissingTitle)
    ensures store.books == old(store.books)
  {
    absent := store.Create(None, x);
    empty := store.Create(Some(""), x);
  }

  /** Two comments on a new book accumulate in the order they were posted. */
  method CommentTwice(store: BookStore, title: string, x: BookId) returns (first: Reply, second: Reply)
    requires store.Valid()
    requires !HasId(store.books, x)
    requires title != ""
    modifies store
    ensures store.Valid()
    ensures first == Ok(Detail(x, title, ["nice"]))
    ensures second == Ok(Detail(x, title, ["nice", "great"]))
  {
    var _ := store.Create(Some(title), x);
    ghost var n := |store.books| - 1;
    assert store.books[n].id == x;
    first := store.AddComment(x, Some("nice"));
    assert store.books[n] == Book(x, title, ["nice"]);
    second := store.AddComment(x, Some("great"));
    assert store.books[n] == Book(x, title, ["nice", "great"]);
  }

  /** A missing comment is reported even for an id that exists nowhere. */
  method CommentMissing(store: BookStore, id: BookId) returns (absent: Reply, empty: Reply)
    requires store.Valid()
    modifies store
    ensures store.Valid()
    ensures absent == Msg(MissingComment) && empty == Msg(MissingComment)
    ensures store.books == old(store.books)
  {
    absent := store.AddComment(id, None);
    empty := store.AddComment(id, Some(""));
  }

  /** An unknown id is reported by every by-id route, and the table stays as it was. */
  method UnknownId(store: BookStore, id: BookId) returns (get: Reply, comment: Reply, delete: Reply)
    requires store.Valid()
    requires !HasId(store.books, id)
    modifies store
    ensures store.Valid()
    ensures get == Msg(NoBook) && comment == Msg(NoBook) && delete == Msg(NoBook)
    ensures store.books == old(store.books)
  {
    get := store.Get(id);
    comment := store.AddComment(id, Some("This comment won't be added"));
    delete := store.Delete(id);
  }

  /** After a successful delete, the id is gone: get and a second delete both report it missing. */
  method DeleteThenGet(store: BookStore, title: string, x: BookId) returns (deleted: Reply, fetched: Reply, again: Reply)
    requires store.Valid()
    requires !HasId(store.books, x)
    requires title != ""
    modifies store
    ensures store.Valid()
    ensures deleted == Msg(Deleted)
    ensures fetched == Msg(NoBook) && again == Msg(NoBook)
    ensures store.books == old(store.books)
  {
    ghost var before := store.books;
    var _ := store.Create(Some(title), x);
    assert store.books[|before|].id == x;
    deleted := store.Delete(x);
    WithoutAbsent(before, x);
    assert store.books == before by {
      SpliceIsWithout(before + [Book(x, title, [])], |before|);
      assert (before + [Book(x, title, [])])[..|before|] == before;
    }
    fetched := store.Get(x);
    again := store.Delete(x);
  }

  /** Clearing the table leaves an empty listing. */
  method DeleteAllThenList(store: BookStore) returns (cleared: Reply, listed: Reply)
    modifies store
    ensures store.Valid()
    ensures cleared == Msg(AllDeleted)
    ensures listed == Ok(Listing([]))
  {
    cleared := store.DeleteAll();
    listed := store.List();
  }
}
