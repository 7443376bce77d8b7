/** The use cases between the handlers and the repository: paging, choosing
    the sort column, and turning stored rows into API records. The repository
    is not part of this model: each of its queries is a function argument that
    gives the repository's answer to that query. */
module Usecase {
  import opened GoStrings
  import opened GoInts
  import opened Domain

  /** The arguments of the repository's Get. */
  datatype Query = Query(searchBy: String, sortBy: String, pageOffset: int, itemsPerPage: int)

  // ---------------------------------------------------------------------------
  // Fetch

  /** `(pageNumber - 1) * itemsPerPage`, evaluated in Go's wrapping int64. */
  function PageOffset(pageNumber: Int64, itemsPerPage: Int64): (offset: Int64)
    ensures MinInt64 <= (pageNumber - 1) * itemsPerPage <= MaxInt64 ==> offset == (pageNumber - 1) * itemsPerPage
    ensures (offset - (pageNumber - 1) * itemsPerPage) % TwoTo64 == 0
  {
    WrapProduct(pageNumber - 1, itemsPerPage);
    Wrap64(Wrap64(pageNumber - 1) * itemsPerPage)
  }

  /** The first page starts at the first row. */
  lemma FirstPageOffset(itemsPerPage: Int64)
    ensures PageOffset(1, itemsPerPage) == 0
  {
  }

  /** While nothing wraps, consecutive pages start `itemsPerPage` rows apart, so
      the pages tile the result list without gaps or overlaps. */
  lemma PagesTile(pageNumber: Int64, itemsPerPage: Int64)
    requires pageNumber < MaxInt64 && 0 <= itemsPerPage
    requires 0 <= (pageNumber - 1) * itemsPerPage && pageNumber * itemsPerPage <= MaxInt64
    ensures PageOffset(pageNumber + 1, itemsPerPage) == PageOffset(pageNumber, itemsPerPage) + itemsPerPage
  {
    var previous := (pageNumber - 1) * itemsPerPage;
    assert pageNumber * itemsPerPage == previous + itemsPerPage;
    OffsetWithoutWrap(pageNumber, itemsPerPage, previous);
    OffsetWithoutWrap(pageNumber + 1, itemsPerPage, previous + itemsPerPage);
  }

  lemma OffsetWithoutWrap(pageNumber: Int64, itemsPerPage: Int64, product: int)
    requires product == (pageNumber - 1) * itemsPerPage && MinInt64 <= product <= MaxInt64
    ensures PageOffset(pageNumber, itemsPerPage) == product
  {
  }

  /** The last page number the handler accepts wraps the offset around to a
      negative row number. */
  lemma LastPageOffsetWraps()
    ensures PageOffset(MaxInt64, 12) == -24
  {
    assert (MaxInt64 - 1) * 12 == -24 + 6 * TwoTo64;
    WrapShift(-24, 6);
  }

  /** The rows of a repository answer; ranging over a nil slice visits nothing. */
  function Rows<T>(answer: RepoResult<T>): seq<T> {
    if answer.items.Some? then answer.items.value else []
  }

  /** Fetch: query one page of rows and map each to a Service, in order. A
      repository error is passed on with a nil list. */
  method Fetch(get: Query -> RepoResult<ServiceEntity>, searchBy: String, sortBy: String,
               pageNumber: Int64, itemsPerPage: Int64)
    returns (res: Option<seq<Service>>, err: Option<Error>)
    ensures var answer := get(Query(searchBy, sortBy, PageOffset(pageNumber, itemsPerPage), itemsPerPage));
      if answer.err.Some? then res == None && err == answer.err
      else
        err == None && res.Some? && |res.value| == |Rows(answer)| &&
        forall i :: 0 <= i < |res.value| ==> res.value[i] == MapService(Rows(answer)[i]).0
  {
    var pageOffset := PageOffset(pageNumber, itemsPerPage);
    var answer := get(Query(searchBy, sortBy, pageOffset, itemsPerPage));
    if answer.err.Some? {
      return None, answer.err;
    }
    var serviceEntities := Rows(answer);
    var services: seq<Service> := [];
    for i := 0 to |serviceEntities|
      invariant |services| == i
      invariant forall j :: 0 <= j < i ==> services[j] == MapService(serviceEntities[j]).0
    {
      var newService := MapService(serviceEntities[i]).0;
      services := services + [newService];
    }
    return Some(services), None;
  }

  // ---------------------------------------------------------------------------
  // mapService

  /** The row a Service record was made from: mapService loses nothing. */
  function EntityOf(s: Service): ServiceEntity {
    ServiceEntity(s.id, s.title, s.description, s.versions, s.createdAt, s.updatedAt)
  }

  /** mapService: copy every column of the row, the version count as the
      number of versions; the error it returns is always nil. */
  function MapService(data: ServiceEntity): (r: (Service, Option<Error>))
    ensures EntityOf(r.0) == data
    ensures r.1 == None
  {
    (Service(data.id, data.title, data.description, data.versionCount, data.updatedAt, data.createdAt), None)
  }

  /** Every Service record is the image of exactly one row. */
  lemma MapServiceBijective(s: Service, data: ServiceEntity)
    ensures MapService(data).0 == s <==> EntityOf(s) == data
  {
  }

  // ---------------------------------------------------------------------------
  // getSortType

  /** The column names of the service table. */
  const FieldID: String := "id"
  const FieldTitle: String := "title"
  const FieldDescription: String := "description"

  /** getSortType: the column a `sort` parameter orders by. */
  function SortType(sort: String): (field: String)
    ensures field == FieldID || field == FieldTitle || field == FieldDescription
    ensures field == FieldTitle <==> sort == "title"
    ensures field == FieldDescription <==> sort == "description"
  {
    if sort == "title" then FieldTitle
    else if sort == "description" then FieldDescription
    else FieldID
  }

  // ---------------------------------------------------------------------------
  // Remove

  /** Remove: the repository's Delete error, or nil when it succeeded. */
  function Remove(delete: int -> Option<Error>, serviceID: int): (err: Option<Error>)
    ensures err == delete(serviceID)
  {
    var newErr := delete(serviceID);
    if newErr.Some? then newErr else None
  }

  // ---------------------------------------------------------------------------
  // FetchVersions

  /** The Version record of one row: id, name and update time copied, the
      creation time left at the zero time. */
  function MapVersion(row: VersionEntity): (v: Version)
    ensures v.createdAt == ZeroTime
    ensures v.id == row.id && v.name == row.name && v.updatedAt == row.updatedAt
  {
    Version(row.id, row.name, row.updatedAt, ZeroTime)
  }

  /** Two rows give the same Version exactly when they differ at most in their
      creation time. */
  lemma MapVersionForgetsCreation(a: VersionEntity, b: VersionEntity)
    ensures MapVersion(a) == MapVersion(b) <==> a == b.(createdAt := a.createdAt)
  {
  }

  /** FetchVersions: a nil slice from the repository is answered with nil and
      the repository's error; any other slice, even one that came with an
      error, is mapped row by row and answered without error. */
  method FetchVersions(getVersions: int -> RepoResult<VersionEntity>, serviceID: int)
    returns (res: Option<seq<Version>>, err: Option<Error>)
    ensures getVersions(serviceID).items.None? ==> res == None && err == getVersions(serviceID).err
    ensures getVersions(serviceID).items.Some? ==>
      var rows := getVersions(serviceID).items.value;
      err == None && res.Some? && |res.value| == |rows| &&
      forall i :: 0 <= i < |rows| ==> res.value[i] == MapVersion(rows[i])
  {
    var answer := getVersions(serviceID);
    if answer.items.None? {
      return None, answer.err;
    }
    var versionEntities := answer.items.value;
    var versions: seq<Version> := [];
    for i := 0 to |versionEntities|
      invariant |versions| == i
      invariant forall j :: 0 <= j < i ==> versions[j] == MapVersion(versionEntities[j])
    {
      versions := versions + [MapVersion(versionEntities[i])];
    }
    return Some(versions), None;
  }
}
