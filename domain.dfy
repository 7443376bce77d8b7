/** The records the service catalogue passes between its repository, its use
    cases and its HTTP handlers: the stored entities (`ent.Service`,
    `ent.Version`), the transfer records (`Service`, `Version`) and Go's
    `error` and `time.Time` values. */
module Domain {
  import opened GoStrings

  datatype Option<T> = None | Some(value: T)

  /** A Go `error`; `err.Error()` is its message. */
  datatype Error = Error(message: String)

  /** A `time.Time`, as the number of nanoseconds since January 1, year 1 UTC;
      the zero `time.Time` is the instant 0. */
  datatype Time = Time(nanos: int)

  const ZeroTime: Time := Time(0)

  /** A stored service row (`ent.Service`) with the columns of its schema. */
  datatype ServiceEntity = ServiceEntity(
    id: int,
    title: String,
    description: String,
    versionCount: int,
    createdAt: Time,
    updatedAt: Time)

  /** A stored version row (`ent.Version`). */
  datatype VersionEntity = VersionEntity(
    id: int,
    name: String,
    createdAt: Time,
    updatedAt: Time)

  /** The service record the API answers with. */
  datatype Service = Service(
    id: int,
    title: String,
    description: String,
    versions: int,
    updatedAt: Time,
    createdAt: Time)

  /** The version record the API answers with. */
  datatype Version = Version(
    id: int,
    name: String,
    updatedAt: Time,
    createdAt: Time)

  /** What a repository query hands back: a slice that may be nil, and an
      error that may be nil. */
  datatype RepoResult<T> = RepoResult(items: Option<seq<T>>, err: Option<Error>)
}
