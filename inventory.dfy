/**
 * The inventory controller of `RingApp`: the component state (input box,
 * ordered identifier list, metadata and ratings by identifier, error banner,
 * loading flag) and the handlers that update it. `Snapshot` is the state as a
 * value and the `After...` functions are the handlers' effects on it; the
 * class `RingApp` holds the state in fields and its methods are proved to
 * have exactly those effects.
 */
module Inventory {
  import opened Wrappers
  import opened Text
  import opened Isbn
  import opened Catalog
  import Stars

  const InvalidIsbnMessage: string := "Invalid ISBN number. Please enter a valid ISBN."

  datatype Snapshot = Snapshot(
    inputValue: string,
    isbnList: seq<string>,
    bookDetails: map<string, BookData>,
    ratings: map<string, int>,
    error: string,
    isLoading: bool)

  /** The initial values given to the component's state hooks. */
  const Initial: Snapshot := Snapshot("", [], map[], map[], "", false)

  /** `list.filter(item => item !== isbn)`. */
  function Without(list: seq<string>, isbn: string): (kept: seq<string>)
    ensures |kept| <= |list|
    ensures isbn !in kept
    ensures forall y :: y in kept ==> y in list
  {
    if list == [] then [] else (if list[0] == isbn then [] else [list[0]]) + Without(list[1..], isbn)
  }

  /** The filter keeps exactly the other identifiers. */
  lemma {:induction false} WithoutMembers(list: seq<string>, isbn: string)
    ensures forall y :: y in Without(list, isbn) <==> y in list && y != isbn
  {
    if list != [] {
      WithoutMembers(list[1..], isbn);
      assert list == [list[0]] + list[1..];
    }
  }

  /** Every occurrence of `isbn` goes and every other identifier keeps its count. */
  lemma {:induction false} WithoutMultiset(list: seq<string>, isbn: string)
    ensures multiset(Without(list, isbn)) == multiset(list)[isbn := 0]
  {
    if list != [] {
      WithoutMultiset(list[1..], isbn);
      assert list == [list[0]] + list[1..];
    }
  }

  /** The filter works piecewise, so the remaining identifiers keep their relative order. */
  lemma {:induction false} WithoutAppend(a: seq<string>, b: seq<string>, isbn: string)
    ensures Without(a + b, isbn) == Without(a, isbn) + Without(b, isbn)
  {
    if a != [] {
      WithoutAppend(a[1..], b, isbn);
      assert (a + b)[1..] == a[1..] + b;
    } else {
      assert a + b == b;
    }
  }

  /** Filtering out an identifier that is not listed changes nothing. */
  lemma {:induction false} WithoutAbsent(list: seq<string>, isbn: string)
    requires isbn !in list
    ensures Without(list, isbn) == list
  {
    if list != [] {
      WithoutAbsent(list[1..], isbn);
      assert list == [list[0]] + list[1..];
    }
  }

  /** `handleAddIsbm` on the state it sees. */
  function AfterAdd(s: Snapshot): (t: Snapshot)
    ensures t.isbnList == s.isbnList || t.isbnList == s.isbnList + [Trim(s.inputValue)]
    ensures t.bookDetails == s.bookDetails && t.isLoading == s.isLoading
  {
    var id := Trim(s.inputValue);
    if id == "" then s
    else if IsValidIsbn(id) then
      s.(isbnList := s.isbnList + [id], ratings := s.ratings[id := 0], inputValue := "", error := "")
    else
      s.(error := InvalidIsbnMessage)
  }

  /** `handleRatingChange`: the new rating is stored as given. */
  function AfterRating(s: Snapshot, isbn: string, newRating: int): (t: Snapshot)
    ensures isbn in t.ratings && t.ratings[isbn] == newRating
    ensures t.isbnList == s.isbnList && t.bookDetails == s.bookDetails
  {
    s.(ratings := s.ratings[isbn := newRating])
  }

  /** `handleDelete`: filter the list and drop the key from both maps. */
  function AfterDelete(s: Snapshot, isbn: string): (t: Snapshot)
    ensures isbn !in t.isbnList && isbn !in t.bookDetails && isbn !in t.ratings
    ensures |t.isbnList| <= |s.isbnList|
  {
    s.(isbnList := Without(s.isbnList, isbn), bookDetails := s.bookDetails - {isbn}, ratings := s.ratings - {isbn})
  }

  /**
   * `fetchBookDetails` once its request has settled: a parsed response is
   * merged under `isbn`, a failure leaves the metadata alone, and the loading
   * flag set at the start is cleared in every case.
   */
  function AfterFetch(s: Snapshot, isbn: string, outcome: Option<BookData>): (t: Snapshot)
    ensures !t.isLoading
    ensures t.isbnList == s.isbnList && t.ratings == s.ratings
    ensures outcome.Some? ==> isbn in t.bookDetails && t.bookDetails[isbn] == outcome.value
    ensures outcome.None? ==> t.bookDetails == s.bookDetails
  {
    match outcome
    case Some(data) => s.(bookDetails := s.bookDetails[isbn := data], isLoading := false)
    case None => s.(isLoading := false)
  }

  // ----- Add -----

  /** Adding with a blank input box changes nothing, not even the error banner. */
  lemma AddBlankIsNoop(s: Snapshot)
    requires AllSpace(s.inputValue)
    ensures AfterAdd(s) == s
  {
  }

  /**
   * Adding a valid identifier appends it once at the end (even when it is
   * already listed), resets its rating to 0, and clears the input box and the
   * error; nothing else changes.
   */
  lemma AddValid(s: Snapshot)
    requires Trim(s.inputValue) != "" && IsValidIsbn(Trim(s.inputValue))
    ensures var id, t := Trim(s.inputValue), AfterAdd(s);
      && |t.isbnList| == |s.isbnList| + 1
      && t.isbnList[..|s.isbnList|] == s.isbnList
      && t.isbnList[|s.isbnList|] == id
      && multiset(t.isbnList)[id] == multiset(s.isbnList)[id] + 1
      && t.ratings.Keys == s.ratings.Keys + {id}
      && t.ratings[id] == 0
      && (forall k :: k in s.ratings && k != id ==> t.ratings[k] == s.ratings[k])
      && t.inputValue == "" && t.error == ""
      && t.bookDetails == s.bookDetails && t.isLoading == s.isLoading
  {
    var id, t := Trim(s.inputValue), AfterAdd(s);
    assert t.isbnList[..|s.isbnList|] == s.isbnList;
  }

  /** Adding an invalid identifier only shows the error message. */
  lemma AddInvalid(s: Snapshot)
    requires Trim(s.inputValue) != "" && !IsValidIsbn(Trim(s.inputValue))
    ensures AfterAdd(s).error == InvalidIsbnMessage
    ensures AfterAdd(s).(error := s.error) == s
  {
  }

  /** The identifier that is appended is the input box without surrounding whitespace. */
  lemma AddTrimsInput(s: Snapshot, id: string, lead: string, trail: string)
    requires s.inputValue == lead + id + trail && AllSpace(lead) && AllSpace(trail)
    requires IsValidIsbn(id)
    ensures AfterAdd(s).isbnList == s.isbnList + [id]
  {
    TrimSurrounded(lead, id, trail);
  }

  // ----- Rate -----

  /**
   * A rating change stores the value as given (no range check), also for an
   * identifier that is not listed; the list and every other rating are kept.
   */
  lemma RatingEffects(s: Snapshot, isbn: string, newRating: int)
    ensures var t := AfterRating(s, isbn, newRating);
      && t.ratings[isbn] == newRating
      && t.ratings.Keys == s.ratings.Keys + {isbn}
      && (forall k :: k in s.ratings && k != isbn ==> t.ratings[k] == s.ratings[k])
      && t.(ratings := s.ratings) == s
  {
  }

  // ----- Delete -----

  /**
   * Delete removes every occurrence from the list, keeping the order of the
   * rest, and removes the key from both maps, keeping every other entry.
   */
  lemma DeleteEffects(s: Snapshot, isbn: string)
    ensures var t := AfterDelete(s, isbn);
      && isbn !in t.isbnList
      && multiset(t.isbnList) == multiset(s.isbnList)[isbn := 0]
      && t.isbnList == Without(s.isbnList, isbn)
      && t.bookDetails.Keys == s.bookDetails.Keys - {isbn}
      && (forall k :: k in t.bookDetails ==> t.bookDetails[k] == s.bookDetails[k])
      && t.ratings.Keys == s.ratings.Keys - {isbn}
      && (forall k :: k in t.ratings ==> t.ratings[k] == s.ratings[k])
      && t.inputValue == s.inputValue && t.error == s.error && t.isLoading == s.isLoading
  {
    WithoutMembers(s.isbnList, isbn);
    WithoutMultiset(s.isbnList, isbn);
  }

  /** Deleting an identifier that is neither listed nor a key changes nothing. */
  lemma DeleteAbsent(s: Snapshot, isbn: string)
    requires isbn !in s.isbnList && isbn !in s.bookDetails && isbn !in s.ratings
    ensures AfterDelete(s, isbn) == s
  {
    WithoutAbsent(s.isbnList, isbn);
    assert s.bookDetails - {isbn} == s.bookDetails;
    assert s.ratings - {isbn} == s.ratings;
  }

  /** Deleting twice is deleting once. */
  lemma DeleteIdempotent(s: Snapshot, isbn: string)
    ensures AfterDelete(AfterDelete(s, isbn), isbn) == AfterDelete(s, isbn)
  {
    WithoutMembers(s.isbnList, isbn);
    DeleteAbsent(AfterDelete(s, isbn), isbn);
  }

  /**
   * Deleting a freshly added identifier that was not known before restores
   * the list and both maps; only the cleared input box and error remain.
   */
  lemma DeleteUndoesAdd(s: Snapshot)
    requires Trim(s.inputValue) != "" && IsValidIsbn(Trim(s.inputValue))
    requires Trim(s.inputValue) !in s.isbnList
    requires Trim(s.inputValue) !in s.bookDetails && Trim(s.inputValue) !in s.ratings
    ensures AfterDelete(AfterAdd(s), Trim(s.inputValue)) == s.(inputValue := "", error := "")
  {
    var id := Trim(s.inputValue);
    WithoutAppend(s.isbnList, [id], id);
    WithoutAbsent(s.isbnList, id);
    assert Without([id], id) == [];
    assert s.isbnList + [] == s.isbnList;
    assert s.ratings[id := 0] - {id} == s.ratings;
    assert s.bookDetails - {id} == s.bookDetails;
  }

  // ----- Fetch -----

  /** A parsed response is stored under its identifier; every other entry stays. */
  lemma FetchSuccess(s: Snapshot, isbn: string, data: BookData)
    ensures var t := AfterFetch(s, isbn, Some(data));
      && t.bookDetails[isbn] == data
      && t.bookDetails.Keys == s.bookDetails.Keys + {isbn}
      && (forall k :: k in s.bookDetails && k != isbn ==> t.bookDetails[k] == s.bookDetails[k])
      && !t.isLoading
      && t.(bookDetails := s.bookDetails, isLoading := s.isLoading) == s
  {
  }

  /** A failed request leaves everything but the loading flag, which ends up cleared. */
  lemma FetchFailure(s: Snapshot, isbn: string)
    ensures AfterFetch(s, isbn, None) == s.(isLoading := false)
  {
  }

  /**
   * A response that arrives after its identifier was deleted is still merged:
   * the metadata holds a key that is no longer listed.
   */
  lemma FetchAfterDeleteOrphans(s: Snapshot, isbn: string, data: BookData)
    ensures var t := AfterFetch(AfterDelete(s, isbn), isbn, Some(data));
      isbn in t.bookDetails && isbn !in t.isbnList && isbn !in t.ratings
  {
    WithoutMembers(s.isbnList, isbn);
  }

  // ----- Invariants kept by the handlers -----

  /**
   * Every listed identifier has the ISBN shape and a rating, and every rating
   * lies in 0..5. The initial state has it; loaded storage need not.
   */
  ghost predicate Coherent(s: Snapshot)
  {
    && (forall id :: id in s.isbnList ==> IsValidIsbn(id) && id in s.ratings)
    && (forall id :: id in s.ratings ==> 0 <= s.ratings[id] <= Stars.StarCount)
  }

  lemma InitialCoherent()
    ensures Coherent(Initial)
  {
  }

  lemma AddKeepsCoherent(s: Snapshot)
    requires Coherent(s)
    ensures Coherent(AfterAdd(s))
  {
  }

  lemma DeleteKeepsCoherent(s: Snapshot, isbn: string)
    requires Coherent(s)
    ensures Coherent(AfterDelete(s, isbn))
  {
    WithoutMembers(s.isbnList, isbn);
  }

  lemma FetchKeepsCoherent(s: Snapshot, isbn: string, outcome: Option<BookData>)
    requires Coherent(s)
    ensures Coherent(AfterFetch(s, isbn, outcome))
  {
  }

  /** A rating reported by a click on the star control keeps the state coherent. */
  lemma ClickedRatingKeepsCoherent(s: Snapshot, isbn: string, stars: seq<Stars.Star>, rating: Option<int>, k: nat)
    requires Coherent(s)
    requires Stars.IsStarRow(stars, rating) && k < |stars|
    ensures Coherent(AfterRating(s, isbn, Stars.ClickedRating(stars, k)))
  {
    Stars.ClickedRatingInRange(stars, rating, k);
  }

  /** An arbitrary rating change can break the 0..5 range: nothing in the handler checks it. */
  lemma RatingIsUnchecked(s: Snapshot, isbn: string)
    ensures !Coherent(AfterRating(s, isbn, 6))
  {
    assert AfterRating(s, isbn, 6).ratings[isbn] == 6;
  }

  /** The component: each field is one `useState` hook. */
  class RingApp {
    var inputValue: string
    var isbnList: seq<string>
    var bookDetails: map<string, BookData>
    var isLoading: bool
    var ratings: map<string, int>
    var error: string

    function State(): Snapshot
      reads this
    {
      Snapshot(inputValue, isbnList, bookDetails, ratings, error, isLoading)
    }

    constructor ()
      ensures State() == Initial
    {
      inputValue := "";
      isbnList := [];
      bookDetails := map[];
      isLoading := false;
      ratings := map[];
      error := "";
    }

    /** Typing into the input box. */
    method InputChange(value: string)
      modifies this
      ensures State() == old(State()).(inputValue := value)
    {
      inputValue := value;
    }

    /** `handleAddIsbm`. */
    method AddIsbn()
      modifies this
      ensures State() == AfterAdd(old(State()))
    {
      var id := Trim(inputValue);
      if id != "" {
        if IsValidIsbn(id) {
          isbnList := isbnList + [id];
          ratings := ratings[id := 0];
          inputValue := "";
          error := "";
        } else {
          error := InvalidIsbnMessage;
        }
      }
    }

    /** `handleRatingChange`. */
    method RatingChange(isbn: string, newRating: int)
      modifies this
      ensures State() == AfterRating(old(State()), isbn, newRating)
    {
      ratings := ratings[isbn := newRating];
    }

    /** `handleDelete`. */
    method Delete(isbn: string)
      modifies this
      ensures State() == AfterDelete(old(State()), isbn)
    {
      isbnList := Without(isbnList, isbn);
      bookDetails := bookDetails - {isbn};
      ratings := ratings - {isbn};
    }

    /**
     * `fetchBookDetails`, with the result of the request and of parsing its
     * body given as `outcome` (`None` when either throws).
     */
    method FetchBookDetails(isbn: string, outcome: Option<BookData>)
      modifies this
      ensures State() == AfterFetch(old(State()), isbn, outcome)
    {
      isLoading := true;
      match outcome {
        case Some(data) =>
          bookDetails := bookDetails[isbn := data];
        case None =>
      }
      isLoading := false;
    }
  }
}
