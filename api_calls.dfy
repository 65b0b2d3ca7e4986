/**
 * The record-extraction layer of the bestseller-list client: the two
 * extraction walks over deserialised responses and the mapping of request,
 * decoding and extraction outcomes to the client's results. The HTTP request
 * and the JSON decoding are abstract inputs (`Fetched`).
 */
module ApiCalls {
  import opened Wrappers
  import opened Filtering

  /** A deserialised JSON object whose values are all strings. */
  type Record = map<string, string>

  /** The category-names response; only `results` drives behaviour. */
  datatype Obj = Obj(results: seq<Record>)

  /** One block of the lists response's `results`; only `book_details` drives behaviour. */
  datatype BookDetailsType = BookDetailsType(bookDetails: seq<Record>)

  /** The lists response; only `results` drives behaviour. */
  datatype ListsType = ListsType(results: seq<BookDetailsType>)

  /** The `(title, author, description)` triple extracted per record. */
  datatype Book = Book(title: string, author: string, description: string)

  /** How a call ends: it returns a value, or it panics with a message. */
  datatype Exec<T> = Returned(value: T) | Panicked(message: string)

  /** The abstract result of one GET followed by JSON decoding into `T`. */
  datatype Fetched<T> = RequestFailed | BodyUnreadable | Body(value: T)

  const UnwrapNone := "called `Option::unwrap()` on a `None` value"
  const NoBooksFound := "No books found in that genre"
  const ErrorParsingJson := "Error Parsing JSON"
  const CannotReachServers := "Cannot reach the API servers"
  const CannotDeserialize := "Cannot deserialize"

  // ---------------------------------------------------------------- names

  /** The `list_name` value of one entry, when it has one. */
  function ListNameOf(pairs: Record): (r: Option<string>)
    ensures r.Some? <==> "list_name" in pairs
    ensures r.Some? ==> r.value == pairs["list_name"]
  {
    if "list_name" in pairs then Some(pairs["list_name"]) else None
  }

  /** What `Obj::get_list_names` returns: the names found, or `None` when there are none. */
  function ListNamesOf(obj: Obj): (r: Option<seq<string>>)
    ensures r.None? <==> forall k :: 0 <= k < |obj.results| ==> "list_name" !in obj.results[k]
    ensures r.Some? ==> |r.value| > 0
  {
    FilterMapEmpty(obj.results, ListNameOf);
    NonEmpty(FilterMap(obj.results, ListNameOf))
  }

  /**
   * The names returned are exactly the `list_name` values of the entries that
   * have that key, one per such entry, in entry order; entries without it add
   * nothing.
   */
  lemma ListNamesExact(obj: Obj)
    ensures var names := if ListNamesOf(obj).Some? then ListNamesOf(obj).value else [];
            var ix := Picked(obj.results, ListNameOf);
            && |names| == |ix|
            && (forall j :: 0 <= j < |ix| ==>
                  "list_name" in obj.results[ix[j]] && names[j] == obj.results[ix[j]]["list_name"])
            && (forall i, j :: 0 <= i < j < |ix| ==> ix[i] < ix[j])
            && (forall k :: 0 <= k < |obj.results| ==> ("list_name" in obj.results[k] <==> k in ix))
  {
    FilterMapSpec(obj.results, ListNameOf);
  }

  /** `Obj::get_list_names`: one pass over `results`, then the emptiness check. */
  method GetListNames(obj: Obj) returns (r: Option<seq<string>>)
    ensures r == ListNamesOf(obj)
  {
    var listNames: seq<string> := [];
    for i := 0 to |obj.results|
      invariant listNames == FilterMap(obj.results[..i], ListNameOf)
    {
      var pairs := obj.results[i];
      if "list_name" in pairs {
        listNames := listNames + [pairs["list_name"]];
      }
      assert obj.results[..i + 1] == obj.results[..i] + [pairs];
      FilterMapSnoc(obj.results[..i], pairs, ListNameOf);
    }
    assert obj.results[..|obj.results|] == obj.results;
    if |listNames| > 0 {
      r := Some(listNames);
    } else {
      r := None;
    }
  }

  // ---------------------------------------------------------------- books

  const TitleKey := "title"
  const AuthorKey := "author"
  const DescriptionKey := "description"

  /** The book of one record: all three keys present, their values as the fields. */
  function BookOf(record: Record): (r: Option<Book>)
    ensures r.Some? <==> TitleKey in record && AuthorKey in record && DescriptionKey in record
    ensures r.Some? ==> r.value.title == record[TitleKey] && r.value.author == record[AuthorKey]
                        && r.value.description == record[DescriptionKey]
  {
    if TitleKey in record && AuthorKey in record && DescriptionKey in record
    then Some(Book(record[TitleKey], record[AuthorKey], record[DescriptionKey]))
    else None
  }

  /** Every `book_details` record of every block: blocks in order, records in order within a block. */
  function AllDetails(results: seq<BookDetailsType>): seq<Record> {
    if |results| == 0 then []
    else AllDetails(results[..|results| - 1]) + results[|results| - 1].bookDetails
  }

  /** The sum of the `book_details` lengths of all blocks. */
  function TotalDetails(results: seq<BookDetailsType>): nat {
    if |results| == 0 then 0
    else TotalDetails(results[..|results| - 1]) + |results[|results| - 1].bookDetails|
  }

  /** Some record of some block lacks `title`, `author` or `description`. */
  predicate SomeRecordIncomplete(results: seq<BookDetailsType>) {
    exists i, j :: 0 <= i < |results| && 0 <= j < |results[i].bookDetails| && BookOf(results[i].bookDetails[j]).None?
  }

  lemma {:induction false} AllDetailsLength(results: seq<BookDetailsType>)
    ensures |AllDetails(results)| == TotalDetails(results)
  {
    if |results| > 0 {
      AllDetailsLength(results[..|results| - 1]);
    }
  }

  /** Record `j` of block `i` sits after all records of the blocks before `i`. */
  lemma {:induction false} AllDetailsIndex(results: seq<BookDetailsType>, i: nat, j: nat)
    requires i < |results| && j < |results[i].bookDetails|
    ensures TotalDetails(results[..i]) + j < |AllDetails(results)|
    ensures AllDetails(results)[TotalDetails(results[..i]) + j] == results[i].bookDetails[j]
  {
    var n := |results| - 1;
    var pre := results[..n];
    AllDetailsLength(pre);
    AllDetailsLength(results[..i]);
    if i < n {
      assert pre[..i] == results[..i];
      AllDetailsIndex(pre, i, j);
    } else {
      assert results[..i] == pre;
    }
  }

  /** Every flattened record comes from some block. */
  lemma {:induction false} AllDetailsFrom(results: seq<BookDetailsType>, k: nat)
    requires k < |AllDetails(results)|
    ensures exists i, j :: 0 <= i < |results| && 0 <= j < |results[i].bookDetails|
                           && AllDetails(results)[k] == results[i].bookDetails[j]
  {
    var n := |results| - 1;
    var pre := results[..n];
    if k < |AllDetails(pre)| {
      AllDetailsFrom(pre, k);
      var i, j :| 0 <= i < |pre| && 0 <= j < |pre[i].bookDetails| && AllDetails(pre)[k] == pre[i].bookDetails[j];
      assert results[i] == pre[i];
    } else {
      var j := k - |AllDetails(pre)|;
      assert AllDetails(results)[k] == results[n].bookDetails[j];
    }
  }

  lemma AllDetailsComplete(results: seq<BookDetailsType>)
    requires !SomeRecordIncomplete(results)
    ensures forall k :: 0 <= k < |AllDetails(results)| ==> BookOf(AllDetails(results)[k]).Some?
  {
    forall k | 0 <= k < |AllDetails(results)|
      ensures BookOf(AllDetails(results)[k]).Some?
    {
      AllDetailsFrom(results, k);
    }
  }

  /** What `ListsType::top_book_details` ends with. */
  function TopBookDetailsOf(lists: ListsType): Exec<Option<seq<Book>>> {
    if SomeRecordIncomplete(lists.results) then Panicked(UnwrapNone)
    else Returned(NonEmpty(FilterMap(AllDetails(lists.results), BookOf)))
  }

  /**
   * `top_book_details` panics when any record lacks a required key (no
   * partial result), returns `None` exactly when there are no records at all,
   * and otherwise returns one book per record.
   */
  lemma TopBookDetailsShape(lists: ListsType)
    ensures var r := TopBookDetailsOf(lists);
            && (r.Panicked? <==> SomeRecordIncomplete(lists.results))
            && (r.Panicked? ==> r.message == UnwrapNone)
            && (r == Returned(None) <==> TotalDetails(lists.results) == 0)
            && (r.Returned? && r.value.Some? ==> |r.value.value| == TotalDetails(lists.results) > 0)
  {
    AllDetailsLength(lists.results);
    if SomeRecordIncomplete(lists.results) {
      var i, j :| 0 <= i < |lists.results| && 0 <= j < |lists.results[i].bookDetails|
                  && BookOf(lists.results[i].bookDetails[j]).None?;
      AllDetailsIndex(lists.results, i, j);
    } else {
      AllDetailsComplete(lists.results);
      FilterMapTotal(AllDetails(lists.results), BookOf);
    }
  }

  /**
   * The books come in outer `results` order, then inner `book_details` order:
   * record `j` of block `i` gives the book at the position after all records
   * of the earlier blocks.
   */
  lemma TopBookDetailsOrder(lists: ListsType, i: nat, j: nat)
    requires i < |lists.results| && j < |lists.results[i].bookDetails|
    requires TopBookDetailsOf(lists).Returned?
    ensures TopBookDetailsOf(lists).value.Some?
    ensures var books := TopBookDetailsOf(lists).value.value;
            && TotalDetails(lists.results[..i]) + j < |books|
            && BookOf(lists.results[i].bookDetails[j]) == Some(books[TotalDetails(lists.results[..i]) + j])
  {
    AllDetailsIndex(lists.results, i, j);
    AllDetailsComplete(lists.results);
    FilterMapTotal(AllDetails(lists.results), BookOf);
  }

  /** `ListsType::top_book_details`: the nested walk, then the emptiness check. */
  method TopBookDetails(lists: ListsType) returns (r: Exec<Option<seq<Book>>>)
    ensures r == TopBookDetailsOf(lists)
  {
    var listBooks: seq<Book> := [];
    ghost var seen: seq<Record> := [];
    for i := 0 to |lists.results|
      invariant seen == AllDetails(lists.results[..i])
      invariant forall k :: 0 <= k < |seen| ==> BookOf(seen[k]).Some?
      invariant listBooks == FilterMap(seen, BookOf)
    {
      var category := lists.results[i];
      ghost var before := seen;
      for j := 0 to |category.bookDetails|
        invariant seen == before + category.bookDetails[..j]
        invariant forall k :: 0 <= k < |seen| ==> BookOf(seen[k]).Some?
        invariant listBooks == FilterMap(seen, BookOf)
      {
        var topBooks := category.bookDetails[j];
        if !(TitleKey in topBooks && AuthorKey in topBooks && DescriptionKey in topBooks) {
          IncompleteRecordPanics(lists, i, j);
          return Panicked(UnwrapNone);
        }
        listBooks := listBooks + [Book(topBooks[TitleKey], topBooks[AuthorKey], topBooks[DescriptionKey])];
        CompleteSnoc(seen, topBooks);
        ExtendWalk(before, category.bookDetails, j);
        seen := seen + [topBooks];
      }
      BlockDone(lists.results, i);
    }
    assert lists.results[..|lists.results|] == lists.results;
    CompleteRecordsReturn(lists);
    if |listBooks| > 0 {
      r := Returned(Some(listBooks));
    } else {
      r := Returned(None);
    }
  }

  /** One more complete record keeps the walk complete and adds its book. */
  lemma CompleteSnoc(seen: seq<Record>, record: Record)
    requires forall k :: 0 <= k < |seen| ==> BookOf(seen[k]).Some?
    requires TitleKey in record && AuthorKey in record && DescriptionKey in record
    ensures forall k :: 0 <= k < |seen + [record]| ==> BookOf((seen + [record])[k]).Some?
    ensures FilterMap(seen + [record], BookOf)
            == FilterMap(seen, BookOf) + [Book(record[TitleKey], record[AuthorKey], record[DescriptionKey])]
  {
    FilterMapSnoc(seen, record, BookOf);
  }

  lemma ExtendWalk(before: seq<Record>, details: seq<Record>, j: nat)
    requires j < |details|
    ensures before + details[..j] + [details[j]] == before + details[..j + 1]
  {
    assert details[..j + 1] == details[..j] + [details[j]];
  }

  lemma BlockDone(results: seq<BookDetailsType>, i: nat)
    requires i < |results|
    ensures AllDetails(results[..i + 1]) == AllDetails(results[..i]) + results[i].bookDetails[..|results[i].bookDetails|]
  {
    assert results[..i + 1][..i] == results[..i];
    assert results[i].bookDetails[..|results[i].bookDetails|] == results[i].bookDetails;
  }

  lemma IncompleteRecordPanics(lists: ListsType, i: nat, j: nat)
    requires i < |lists.results| && j < |lists.results[i].bookDetails|
    requires BookOf(lists.results[i].bookDetails[j]).None?
    ensures TopBookDetailsOf(lists) == Panicked(UnwrapNone)
  {
    assert SomeRecordIncomplete(lists.results);
  }

  lemma CompleteRecordsReturn(lists: ListsType)
    requires forall k :: 0 <= k < |AllDetails(lists.results)| ==> BookOf(AllDetails(lists.results)[k]).Some?
    ensures TopBookDetailsOf(lists) == Returned(NonEmpty(FilterMap(AllDetails(lists.results), BookOf)))
  {
    forall i, j | 0 <= i < |lists.results| && 0 <= j < |lists.results[i].bookDetails|
      ensures BookOf(lists.results[i].bookDetails[j]).Some?
    {
      AllDetailsIndex(lists.results, i, j);
    }
  }

  // ---------------------------------------------------------------- outcome mapping

  /**
   * `get_top_books`: a failed request and an empty list both read "No books
   * found in that genre", an undecodable body reads "Error Parsing JSON", an
   * incomplete record panics, and otherwise the books are returned.
   */
  function GetTopBooks(response: Fetched<ListsType>): (r: Exec<Result<seq<Book>, string>>)
    ensures r == Returned(Err(ErrorParsingJson)) <==> response.BodyUnreadable?
    ensures r == Returned(Err(NoBooksFound)) <==>
              response.RequestFailed? || (response.Body? && TotalDetails(response.value.results) == 0)
    ensures r.Returned? && r.value.Err? ==> r.value.error in {NoBooksFound, ErrorParsingJson}
    ensures r.Panicked? <==> response.Body? && SomeRecordIncomplete(response.value.results)
    ensures r.Returned? && r.value.Ok? ==>
              && response.Body?
              && TopBookDetailsOf(response.value) == Returned(Some(r.value.value))
              && |r.value.value| == TotalDetails(response.value.results) > 0
  {
    match response
    case RequestFailed => Returned(Err(NoBooksFound))
    case BodyUnreadable => Returned(Err(ErrorParsingJson))
    case Body(resp) =>
      TopBookDetailsShape(resp);
      match TopBookDetailsOf(resp)
      case Panicked(msg) => Panicked(msg)
      case Returned(Some(books)) => Returned(Ok(books))
      case Returned(None) => Returned(Err(NoBooksFound))
  }

  /**
   * `get_genre_lists`: every failure panics, so it never returns `Err`, and
   * what it returns is the non-empty list of names.
   */
  function GetGenreLists(response: Fetched<Obj>): (r: Exec<Result<seq<string>, string>>)
    ensures !(r.Returned? && r.value.Err?)
    ensures r.Returned? ==> response.Body? && ListNamesOf(response.value) == Some(r.value.value) && |r.value.value| > 0
    ensures r == Panicked(CannotReachServers) <==> response.RequestFailed?
    ensures r == Panicked(CannotDeserialize) <==> response.BodyUnreadable?
    ensures r == Panicked(UnwrapNone) <==>
              response.Body? && forall k :: 0 <= k < |response.value.results| ==> "list_name" !in response.value.results[k]
  {
    match response
    case RequestFailed => Panicked(CannotReachServers)
    case BodyUnreadable => Panicked(CannotDeserialize)
    case Body(obj) =>
      match ListNamesOf(obj)
      case Some(names) => Returned(Ok(names))
      case None => Panicked(UnwrapNone)
  }
}
