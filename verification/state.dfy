/** The state of the UserList component: the accumulated user list, the
    expanded-panel map, the query (search text, offset, page size) and, in the
    current version of the component, the loading flag and the error message.

    Both versions of the component share this record. The early version has
    no loading or error state; it is modelled as the `Early` variant, whose
    transitions never set `loading` or `error` (see UserListSession.Inv).
 */
module UserListState {

  datatype Option<+T> = None | Some(value: T)

  /** A user record. Only the id matters to the component's logic; every other
      field of the record is carried as an opaque payload. */
  datatype User = User(id: int, payload: string)

  /** Which version of the component is modelled. `Current` has loading and
      error state and gates the "load more" button; `Early` has neither. */
  datatype Variant = Current | Early

  /** The page size. The component keeps it in state but never changes it. */
  const Limit: nat := 10

  /** The fixed user-facing message stored when a fetch fails. */
  const FailureMessage: string := "Ошибка при загрузке данных. Пожалуйста, попробуйте еще раз."

  /** The parameters of one request to the remote user source. */
  datatype Query = Query(search: string, offset: nat, limit: nat)

  /** `scheduled` holds the queries the effect has asked for whose debounced
      call has not yet run; `inFlight` holds the requests that were sent and
      have not yet completed. Both are in issue order. */
  datatype State = State(
    users: seq<User>,
    expanded: map<int, bool>,
    search: string,
    offset: nat,
    loading: bool,
    error: Option<string>,
    scheduled: seq<Query>,
    inFlight: seq<Query>
  )

  /** The state right after mount: empty list and search, offset 0, and the
      mount-time effect has scheduled the first page. The current version
      starts with `loading` true. */
  function Init(v: Variant): (s: State)
    ensures s.users == [] && s.search == [] && s.offset == 0
    ensures s.scheduled == [CurrentQuery(s)] && s.inFlight == []
    ensures forall id :: !IsExpanded(s.expanded, id)
    ensures s.loading <==> v.Current?
    ensures s.error.None?
  {
    State([], map[], "", 0, v.Current?, None, [Query("", 0, Limit)], [])
  }

  /** The expanded state a panel shows: `!!expanded[id]`, where a missing
      key reads as `undefined` and therefore as collapsed. */
  predicate IsExpanded(m: map<int, bool>, id: int)
  {
    id in m && m[id]
  }

  /** The query the effect requests for the state's search text and offset. */
  function CurrentQuery(s: State): Query
  {
    Query(s.search, s.offset, Limit)
  }

  /** Whether the stored error is truthy in JavaScript: `null` and the empty
      string both read as "no error". */
  predicate HasError(s: State)
  {
    s.error.Some? && |s.error.value| > 0
  }

  /** Whether the "load more" button is rendered (`!loading && !error`). */
  predicate LoadMoreShown(v: Variant, s: State)
  {
    match v
    case Current => !s.loading && !HasError(s)
    case Early => true
  }

  /** Whether the loading overlay is rendered (the early version has none). */
  predicate LoaderShown(v: Variant, s: State)
  {
    v.Current? && s.loading
  }

  /** Whether the error banner is rendered (the early version has none). */
  predicate ErrorShown(v: Variant, s: State)
  {
    v.Current? && HasError(s)
  }
}
