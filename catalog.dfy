/**
 * The catalog side of the widget that needs no network: the cover image URL,
 * the shape of a metadata response, and the title and author lines a card
 * shows, with their fallback strings.
 */
module Catalog {
  import opened Wrappers
  import opened Text

  const CoverPrefix: string := "https://covers.openlibrary.org/b/isbn/"
  const CoverSuffix: string := "-L.jpg"

  /** `fetchCoverImage`: the large cover image URL of an identifier. */
  function CoverUrl(isbn: string): (url: string)
    ensures |url| == |CoverPrefix| + |isbn| + |CoverSuffix|
    ensures url[..|CoverPrefix|] == CoverPrefix && url[|url| - |CoverSuffix|..] == CoverSuffix
    ensures url[|CoverPrefix|..|url| - |CoverSuffix|] == isbn
  {
    CoverPrefix + isbn + CoverSuffix
  }

  /** Reads the identifier back out of a cover URL, if it has that form. */
  function CoverIsbn(url: string): Option<string>
  {
    if |url| >= |CoverPrefix| + |CoverSuffix|
       && url[..|CoverPrefix|] == CoverPrefix
       && url[|url| - |CoverSuffix|..] == CoverSuffix
    then Some(url[|CoverPrefix|..|url| - |CoverSuffix|])
    else None
  }

  /** The identifier is recovered from its cover URL. */
  lemma CoverRoundTrip(isbn: string)
    ensures CoverIsbn(CoverUrl(isbn)) == Some(isbn)
  {
    var url := CoverUrl(isbn);
    assert url[..|CoverPrefix|] == CoverPrefix;
    assert url[|url| - |CoverSuffix|..] == CoverSuffix;
    assert url[|CoverPrefix|..|url| - |CoverSuffix|] == isbn;
  }

  /** Every URL of the cover form is the cover URL of the identifier read from it. */
  lemma CoverIsbnSound(url: string, isbn: string)
    requires CoverIsbn(url) == Some(isbn)
    ensures CoverUrl(isbn) == url
  {
    var p, q := |CoverPrefix|, |url| - |CoverSuffix|;
    assert url == url[..p] + url[p..q] + url[q..];
  }

  /** Distinct identifiers have distinct cover URLs. */
  lemma CoverUrlInjective(a: string, b: string)
    requires CoverUrl(a) == CoverUrl(b)
    ensures a == b
  {
    CoverRoundTrip(a);
    CoverRoundTrip(b);
  }

  /** One entry of a record's `authors` array. */
  datatype Author = Author(name: string)

  /** The record a response holds for one identifier; both fields may be missing. */
  datatype Record = Record(title: Option<string>, authors: Option<seq<Author>>)

  /** A parsed metadata response: a JSON object keyed by `ISBN:<identifier>`. */
  datatype BookData = BookData(records: map<string, Record>)

  const RecordPrefix: string := "ISBN:"
  const TitleFallback: string := "Title not available"
  const AuthorFallback: string := "Author not available"
  const AuthorSeparator: string := ", "

  /** The key under which a response holds the record of `isbn`. */
  function RecordKey(isbn: string): string
  {
    RecordPrefix + isbn
  }

  /** `bookDetails[isbn]?.[`ISBN:${isbn}`]`: the stored record, if any. */
  function Lookup(details: map<string, BookData>, isbn: string): (r: Option<Record>)
    ensures r.Some? <==> isbn in details && RecordKey(isbn) in details[isbn].records
    ensures r.Some? ==> r.value == details[isbn].records[RecordKey(isbn)]
  {
    if isbn in details && RecordKey(isbn) in details[isbn].records
    then Some(details[isbn].records[RecordKey(isbn)])
    else None
  }

  /** The card title: the stored title when it is a non-empty string, else the fallback. */
  function TitleText(details: map<string, BookData>, isbn: string): (t: string)
    ensures t != ""
    ensures t != TitleFallback ==> Lookup(details, isbn).Some? && Lookup(details, isbn).value.title == Some(t)
  {
    match Lookup(details, isbn)
    case Some(Record(Some(title), _)) => if title != "" then title else TitleFallback
    case _ => TitleFallback
  }

  /** A non-empty stored title is shown as it is. */
  lemma TitleShown(details: map<string, BookData>, isbn: string, title: string)
    requires Lookup(details, isbn).Some? && Lookup(details, isbn).value.title == Some(title)
    requires title != ""
    ensures TitleText(details, isbn) == title
  {
  }

  /**
   * Without a stored response, without its `ISBN:` record, or without a
   * non-empty title, the fallback is shown.
   */
  lemma TitleTextMissing(details: map<string, BookData>, isbn: string)
    requires || isbn !in details
             || RecordKey(isbn) !in details[isbn].records
             || details[isbn].records[RecordKey(isbn)].title.None?
             || details[isbn].records[RecordKey(isbn)].title == Some("")
    ensures TitleText(details, isbn) == TitleFallback
  {
  }

  /** `authors.map(author => author.name)`. */
  function Names(authors: seq<Author>): (names: seq<string>)
    ensures |names| == |authors|
    ensures forall k :: 0 <= k < |authors| ==> names[k] == authors[k].name
  {
    seq(|authors|, k requires 0 <= k < |authors| => authors[k].name)
  }

  /** The author line of a stored response: the joined names, or the fallback when that join is empty. */
  function AuthorText(data: BookData, isbn: string): (t: string)
    ensures t != ""
    ensures t != AuthorFallback ==>
              && RecordKey(isbn) in data.records
              && data.records[RecordKey(isbn)].authors.Some?
              && t == Join(Names(data.records[RecordKey(isbn)].authors.value), AuthorSeparator)
  {
    var key := RecordKey(isbn);
    if key in data.records && data.records[key].authors.Some? then
      var line := Join(Names(data.records[key].authors.value), AuthorSeparator);
      if line != "" then line else AuthorFallback
    else AuthorFallback
  }

  /**
   * The joined names are shown exactly when there are two or more authors or
   * one with a non-empty name; otherwise the fallback is shown.
   */
  lemma AuthorTextCases(data: BookData, isbn: string, authors: seq<Author>)
    requires RecordKey(isbn) in data.records
    requires data.records[RecordKey(isbn)].authors == Some(authors)
    ensures AuthorText(data, isbn)
            == if |authors| >= 2 || (|authors| == 1 && authors[0].name != "")
               then Join(Names(authors), AuthorSeparator)
               else AuthorFallback
  {
    JoinEmptyIff(Names(authors), AuthorSeparator);
  }

  /** Without a record or without an authors field the fallback is shown. */
  lemma AuthorTextMissing(data: BookData, isbn: string)
    requires RecordKey(isbn) !in data.records || data.records[RecordKey(isbn)].authors.None?
    ensures AuthorText(data, isbn) == AuthorFallback
  {
  }

  /** The author line of a card, present only once a response is stored for it. */
  function AuthorLine(details: map<string, BookData>, isbn: string): (line: Option<string>)
    ensures line.Some? <==> isbn in details
  {
    if isbn in details then Some(AuthorText(details[isbn], isbn)) else None
  }
}
