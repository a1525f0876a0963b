/**
 The in-memory book store behind the `/api/books` routes: one ordered table of
 books, six request handlers over it, and the replies they send back.
 Replies that the service sends as a bare JSON string (error messages and
 acknowledgements alike) are `Msg`; replies that carry an object or an array
 are `Ok`.
 */
module Api {

  type BookId = string

  /** A field of a request body: absent, or given with some string value. */
  datatype Option<+T> = None | Some(value: T)

  /** A stored record `{_id, title, comments}`. */
  datatype Book = Book(id: BookId, title: string, comments: seq<string>)

  /** One entry of the listing `{_id, title, commentcount}`. */
  datatype Summary = Summary(id: BookId, title: string, commentcount: nat)

  datatype Payload =
    | Listing(items: seq<Summary>)
    | Created(id: BookId, title: string)
    | Detail(id: BookId, title: string, comments: seq<string>)

  datatype Reply = Ok(payload: Payload) | Msg(text: string)

  const MissingTitle: string := "missing required field title"
  const MissingComment: string := "missing required field comment"
  const NoBook: string := "no book exists"
  const Deleted: string := "delete successful"
  const AllDeleted: string := "complete delete successful"

  /** A request field counts as given when it is present and not the empty string. */
  predicate Present(f: Option<string>)
  {
    f.Some? && f.value != ""
  }

  ghost predicate HasId(s: seq<Book>, id: BookId)
  {
    exists k :: 0 <= k < |s| && s[k].id == id
  }

  ghost predicate DistinctIds(s: seq<Book>)
  {
    forall i, j :: 0 <= i < j < |s| ==> s[i].id != s[j].id
  }

  ghost predicate TitlesPresent(s: seq<Book>)
  {
    forall k :: 0 <= k < |s| ==> s[k].title != ""
  }

  function Summarize(b: Book): (r: Summary)
  {
    Summary(b.id, b.title, |b.comments|)
  }

  /** The listing: one summary per stored book, in store order. */
  function Summaries(s: seq<Book>): (r: seq<Summary>)
    ensures |r| == |s|
    ensures forall k :: 0 <= k < |s| ==>
      r[k].id == s[k].id && r[k].title == s[k].title && r[k].commentcount == |s[k].comments|
  {
    if s == [] then [] else [Summarize(s[0])] + Summaries(s[1..])
  }

  /** Reference definition of removal: every book whose id is `id` is dropped, the rest keep their order. */
  function Without(s: seq<Book>, id: BookId): (r: seq<Book>)
    ensures |r| <= |s|
    ensures forall b :: b in r <==> b in s && b.id != id
  {
    if s == [] then []
    else if s[0].id == id then Without(s[1..], id)
    else [s[0]] + Without(s[1..], id)
  }

  /** Removing an id that no book carries changes nothing. */
  lemma {:induction false} WithoutAbsent(s: seq<Book>, id: BookId)
    requires !HasId(s, id)
    ensures Without(s, id) == s
  {
    if s != [] {
      assert s[0].id != id;
      assert !HasId(s[1..], id) by {
        forall k | 0 <= k < |s[1..]| ensures s[1..][k].id != id {
          assert s[1..][k] == s[k + 1];
        }
      }
      WithoutAbsent(s[1..], id);
      assert s == [s[0]] + s[1..];
    }
  }

  /** The tail of a table with distinct ids has distinct ids, none equal to the head's. */
  lemma DistinctTail(s: seq<Book>)
    requires DistinctIds(s)
    requires s != []
    ensures DistinctIds(s[1..])
    ensures !HasId(s[1..], s[0].id)
  {
    var t := s[1..];
    forall a, b | 0 <= a < b < |t| ensures t[a].id != t[b].id {
      assert t[a] == s[a + 1] && t[b] == s[b + 1];
    }
    forall k | 0 <= k < |t| ensures t[k].id != s[0].id {
      assert t[k] == s[k + 1];
    }
  }

  /** With distinct ids, splicing out the book at index i is exactly removing its id. */
  lemma {:induction false} SpliceIsWithout(s: seq<Book>, i: nat)
    requires DistinctIds(s)
    requires i < |s|
    ensures s[..i] + s[i + 1..] == Without(s, s[i].id)
  {
    var t := s[1..];
    DistinctTail(s);
    if i == 0 {
      WithoutAbsent(t, s[0].id);
      assert s[..0] + s[1..] == t;
    } else {
      var id := s[i].id;
      assert t[i - 1] == s[i];
      calc {
        s[..i] + s[i + 1..];
        == { assert s[..i] == [s[0]] + t[..i - 1]; assert s[i + 1..] == t[i..]; }
        [s[0]] + (t[..i - 1] + t[i..]);
        == { SpliceIsWithout(t, i - 1); }
        [s[0]] + Without(t, id);
        == { assert s[0].id != id; }
        Without(s, id);
      }
    }
  }

  /** Splicing one book out keeps the remaining ids distinct and removes that id. */
  lemma SpliceKeepsDistinct(s: seq<Book>, i: nat)
    requires DistinctIds(s)
    requires i < |s|
    ensures DistinctIds(s[..i] + s[i + 1..])
    ensures !HasId(s[..i] + s[i + 1..], s[i].id)
  {
    var r := s[..i] + s[i + 1..];
    assert forall k :: 0 <= k < |r| ==> r[k] == if k < i then s[k] else s[k + 1];
  }

  class BookStore {
    var books: seq<Book>

    /** Ids are unique across the table and no stored book has an empty title. */
    ghost predicate Valid()
      reads this
    {
      DistinctIds(books) && TitlesPresent(books)
    }

    constructor ()
      ensures Valid()
      ensures books == []
    {
      books := [];
    }

    /** Position of the first book whose id is `id`, or -1 when there is none. */
    method FindIndex(id: BookId) returns (i: int)
      ensures -1 <= i < |books|
      ensures i == -1 <==> !HasId(books, id)
      ensures 0 <= i ==> books[i].id == id && forall k :: 0 <= k < i ==> books[k].id != id
    {
      i := 0;
      while i < |books|
        invariant 0 <= i <= |books|
        invariant forall k :: 0 <= k < i ==> books[k].id != id
      {
        if books[i].id == id {
          return;
        }
        i := i + 1;
      }
      i := -1;
    }

    /** GET /api/books: the summaries of all books, in store order. */
    method List() returns (r: Reply)
      ensures r.Ok? && r.payload.Listing?
      ensures |r.payload.items| == |books|
      ensures forall k :: 0 <= k < |books| ==>
        r.payload.items[k] == Summary(books[k].id, books[k].title, |books[k].comments|)
    {
      r := Ok(Listing(Summaries(books)));
    }

    /** POST /api/books: `freshId` stands for the generated id, which no stored book carries. */
    method Create(title: Option<string>, freshId: BookId) returns (r: Reply)
      requires Valid()
      requires !HasId(books, freshId)
      modifies this
      ensures Valid()
      ensures !Present(title) ==> r == Msg(MissingTitle) && books == old(books)
      ensures Present(title) ==>
        r == Ok(Created(freshId, title.value)) &&
        books == old(books) + [Book(freshId, title.value, [])]
    {
      if !Present(title) {
        return Msg(MissingTitle);
      }
      var book := Book(freshId, title.value, []);
      books := books + [book];
      r := Ok(Created(book.id, book.title));
    }

    /** DELETE /api/books. */
    method DeleteAll() returns (r: Reply)
      modifies this
      ensures Valid()
      ensures books == []
      ensures r == Msg(AllDeleted)
    {
      books := [];
      r := Msg(AllDeleted);
    }

    /** GET /api/books/:id. */
    method Get(id: BookId) returns (r: Reply)
      requires Valid()
      ensures !HasId(books, id) ==> r == Msg(NoBook)
      ensures forall k :: 0 <= k < |books| && books[k].id == id ==>
        r == Ok(Detail(id, books[k].title, books[k].comments))
    {
      var i := FindIndex(id);
      if i == -1 {
        return Msg(NoBook);
      }
      var book := books[i];
      r := Ok(Detail(book.id, book.title, book.comments));
    }

    /** POST /api/books/:id: the comment is checked before the id is looked up. */
    method AddComment(id: BookId, comment: Option<string>) returns (r: Reply)
      requires Valid()
      modifies this
      ensures Valid()
      ensures !Present(comment) ==> r == Msg(MissingComment) && books == old(books)
      ensures Present(comment) && !HasId(old(books), id) ==> r == Msg(NoBook) && books == old(books)
      ensures Present(comment) && HasId(old(books), id) ==>
        |books| == |old(books)| &&
        forall k :: 0 <= k < |books| ==>
          if old(books)[k].id == id then
            books[k] == old(books)[k].(comments := old(books)[k].comments + [comment.value]) &&
            r == Ok(Detail(id, books[k].title, books[k].comments))
          else
            books[k] == old(books)[k]
    {
      if !Present(comment) {
        return Msg(MissingComment);
      }
      var i := FindIndex(id);
      if i == -1 {
        return Msg(NoBook);
      }
      var book := books[i];
      var updated := book.(comments := book.comments + [comment.value]);
      books := books[i := updated];
      r := Ok(Detail(updated.id, updated.title, updated.comments));
    }

    /** DELETE /api/books/:id: the matching book is spliced out of the table. */
    method Delete(id: BookId) returns (r: Reply)
      requires Valid()
      modifies this
      ensures Valid()
      ensures !HasId(books, id)
      ensures !HasId(old(books), id) ==> r == Msg(NoBook) && books == old(books)
      ensures HasId(old(books), id) ==> r == Msg(Deleted) && books == Without(old(books), id)
    {
      var i := FindIndex(id);
      if i == -1 {
        return Msg(NoBook);
      }
      SpliceIsWithout(books, i);
      SpliceKeepsDistinct(books, i);
      books := books[..i] + books[i + 1..];
      r := Msg(Deleted);
    }
  }
}
