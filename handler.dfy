/** The two pieces of logic in the HTTP handlers of the service catalogue:
    the status code an error is answered with, and how the `page` query
    parameter of `GET /services` becomes a page number. */
module Handler {
  import opened GoStrings
  import opened GoInts
  import opened Domain
  import opened Strconv

  const StatusOK: int := 200
  const StatusNotFound: int := 404
  const StatusConflict: int := 409
  const StatusInternalServerError: int := 500

  /** The fragments of an error message that select a status code. */
  const ErrInternalServerError: String := "Server Error"
  const ErrNotFound: String := "not found"
  const ErrConflict: String := "already exist"
  /** The body a rejected page number is answered with. */
  const ErrBadParamInput: String := "not valid"

  const ItemsPerPage: int := 12

  // ---------------------------------------------------------------------------
  // getStatusCode

  /** getStatusCode: no error is 200; otherwise the first fragment the message
      contains decides, in the order "Server Error", "not found", "already
      exist", and a message with none of them is a 500. */
  function StatusCode(err: Option<Error>): (code: int)
    ensures code == StatusOK || code == StatusNotFound || code == StatusConflict || code == StatusInternalServerError
    ensures code == StatusOK <==> err.None?
  {
    if err.None? then StatusOK
    else if Contains(err.value.message, ErrInternalServerError) then StatusInternalServerError
    else if Contains(err.value.message, ErrNotFound) then StatusNotFound
    else if Contains(err.value.message, ErrConflict) then StatusConflict
    else StatusInternalServerError
  }

  /** `fragment` occupies some window of `message`. */
  ghost predicate Mentions(message: String, fragment: String) {
    exists i :: OccursAt(message, fragment, i)
  }

  /** The status of an error, by which fragments occur in its message:
      "Server Error" wins over everything, "not found" over "already exist",
      and anything else is an internal error. */
  lemma StatusOfMessage(message: String)
    ensures StatusCode(Some(Error(message))) == StatusInternalServerError <==>
      Mentions(message, ErrInternalServerError) ||
      (!Mentions(message, ErrNotFound) && !Mentions(message, ErrConflict))
    ensures StatusCode(Some(Error(message))) == StatusNotFound <==>
      !Mentions(message, ErrInternalServerError) && Mentions(message, ErrNotFound)
    ensures StatusCode(Some(Error(message))) == StatusConflict <==>
      !Mentions(message, ErrInternalServerError) && !Mentions(message, ErrNotFound) &&
      Mentions(message, ErrConflict)
  {
    ContainsIffOccurs(message, ErrInternalServerError);
    ContainsIffOccurs(message, ErrNotFound);
    ContainsIffOccurs(message, ErrConflict);
  }

  // ---------------------------------------------------------------------------
  // The page number of Fetch

  /** Where the page parameter leads: the page to fetch, or the response that
      rejects it. */
  datatype PageRequest =
    | Page(number: int, itemsPerPage: int)
    | Rejected(status: int, body: String)

  /** Fetch's page handling: Atoi with its error ignored, 0 promoted to the
      first page, and anything not greater than 0 refused with 404 "not valid". */
  function NormalizePage(page: String): (r: PageRequest)
    ensures r.Page? ==> 1 <= r.number <= MaxInt64 && r.itemsPerPage == ItemsPerPage
    ensures r.Rejected? ==> r == Rejected(StatusNotFound, ErrBadParamInput)
    ensures r.Rejected? <==> Atoi(page).value < 0
  {
    var parsed := Atoi(page).value;
    var pageNumber := if parsed == 0 then 1 else parsed;
    if pageNumber > 0 then Page(pageNumber, ItemsPerPage)
    else Rejected(StatusNotFound, ErrBadParamInput)
  }

  /** A numeral: "0" (or "-0", "+000") is the first page, a positive one is that
      page (the largest int64 if it is larger), a negative one is refused. */
  lemma PageOfNumeral(page: String)
    requires IsNumeral(page)
    ensures NumeralValue(page) == 0 ==> NormalizePage(page) == Page(1, ItemsPerPage)
    ensures NumeralValue(page) > 0 ==> NormalizePage(page) == Page(Clamp64(NumeralValue(page)), ItemsPerPage)
    ensures NumeralValue(page) < 0 ==> NormalizePage(page) == Rejected(StatusNotFound, ErrBadParamInput)
  {
    AtoiOfNumeral(page);
  }

  /** Anything that is not a numeral (a missing parameter, "abc", "2x") is the
      first page, unless its leading digits already exceed the largest uint64:
      then it is the last int64 page, or refused when it starts with '-'. */
  lemma PageOfNonNumeral(page: String)
    requires !IsNumeral(page)
    ensures DecimalValue(DigitRun(Unsigned(page))) <= MaxUint64 ==> NormalizePage(page) == Page(1, ItemsPerPage)
    ensures DecimalValue(DigitRun(Unsigned(page))) > MaxUint64 ==>
      NormalizePage(page) ==
        if Negative(page) then Rejected(StatusNotFound, ErrBadParamInput) else Page(MaxInt64, ItemsPerPage)
  {
    AtoiOfNonNumeral(page);
  }

  /** A page requested by its decimal numeral is served as that page. */
  lemma PageRoundTrip(n: nat)
    requires 1 <= n <= MaxInt64
    ensures NormalizePage(Decimal(n)) == Page(n, ItemsPerPage)
  {
    AtoiOfDecimal(n);
  }
}
