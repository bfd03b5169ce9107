/** The records the two list screens fetch, as the client sees them, and the
    outcome of a request to the server. Instants are whole milliseconds. */
module Records {
  import opened Common

  /** Milliseconds in one day. */
  const DayMs: int := 86_400_000

  /** One row of the activity log: who did what to which entity, and when. */
  datatype LogEntry = LogEntry(
    id: int,
    userId: int,
    action: string,
    entity: string,
    entityId: Option<int>,
    timestamp: int)

  /** One user as the admin user list returns it; the role may be missing. */
  datatype UserRecord = UserRecord(
    id: int,
    username: string,
    email: string,
    role: Option<string>)

  /** Why a request was rejected: the HTTP status when a response arrived, the
      `detail` of its body when it has one, and the error's own message. */
  datatype HttpFailure = HttpFailure(status: Option<int>, detail: Option<string>, message: string)

  /** A collection fetch either delivers a body (which may be empty) or fails. */
  datatype FetchResult<T> = Fetched(data: Option<seq<T>>) | FetchFailed(failure: HttpFailure)

  /** A create, update or delete request either succeeds or fails. */
  datatype MutationResult = Done | MutationFailed(failure: HttpFailure)

  /** `res.data || []`. */
  function DataOrEmpty<T>(data: Option<seq<T>>): seq<T>
  {
    if data.Some? then data.value else []
  }

  const AdminOnlyMessage: string := "Bu sayfaya yalnızca adminler erişebilir."

  /** `e.response?.data?.detail || fallback`: a non-empty detail, else the fallback. */
  function DetailOr(f: HttpFailure, fallback: string): (r: string)
    ensures r == fallback || (f.detail.Some? && r == f.detail.value != "")
    ensures f.detail.Some? && f.detail.value != "" ==> r == f.detail.value
  {
    if f.detail.Some? && f.detail.value != "" then f.detail.value else fallback
  }

  /** The message a failed load shows: the fixed admin-only text for 403,
      otherwise the server's detail, otherwise the error's own message. */
  function LoadErrorMessage(f: HttpFailure): (r: string)
    ensures f.status == Some(403) ==> r == AdminOnlyMessage
    ensures f.status != Some(403) && f.detail.Some? && f.detail.value != "" ==> r == f.detail.value
    ensures f.status != Some(403) && (f.detail.None? || f.detail.value == "") ==> r == f.message
  {
    if f.status == Some(403) then AdminOnlyMessage else DetailOr(f, f.message)
  }
}
