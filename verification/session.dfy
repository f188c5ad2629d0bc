/** The component as an event-driven machine. User actions and network
    callbacks arrive one at a time; each is applied atomically by `Step`.

    The debounce is abstracted: a scheduled query stays scheduled until its
    `Fire` event, and scheduled queries may fire in any order. Completions of
    in-flight requests may also arrive in any order.
 */
module UserListSession {
  import opened UserListState
  import opened UserListHandlers

  /** How a request ended: with a page of users, or with any failure. */
  datatype Outcome = Succeeded(page: seq<User>) | Failed

  datatype Event =
    | ToggleClicked(id: int)
    | CollapseAllClicked
    | SearchTyped(text: string)
    | LoadMoreClicked
      /** The debounced call for `scheduled[index]` runs `fetchUsers`. */
    | Fire(index: nat)
      /** The request `inFlight[index]` completes. */
    | Complete(index: nat, outcome: Outcome)

  /** The sequence without its element at index `i`. */
  function RemoveAt<T>(q: seq<T>, i: nat): (r: seq<T>)
    requires i < |q|
    ensures |r| == |q| - 1
    ensures forall j :: 0 <= j < i ==> r[j] == q[j]
    ensures forall j :: i <= j < |r| ==> r[j] == q[j + 1]
  {
    q[..i] + q[i + 1..]
  }

  /** One event. An event that cannot occur in the page (a click on a button
      that is not rendered, a callback for a request that does not exist)
      leaves the state as it is. */
  function Step(v: Variant, s: State, e: Event): (r: State)
    ensures !e.ToggleClicked? && !e.CollapseAllClicked? ==> r.expanded == s.expanded
    ensures !e.Complete? ==> r.users == s.users
    ensures !e.SearchTyped? && !e.LoadMoreClicked? ==> r.search == s.search && r.offset == s.offset
    ensures e.LoadMoreClicked? && !LoadMoreShown(v, s) ==> r == s
    ensures e.ToggleClicked? || e.CollapseAllClicked? || e.SearchTyped? || e.LoadMoreClicked? ==>
              r.inFlight == s.inFlight
    ensures e.Complete? && e.index < |s.inFlight| ==>
              r.inFlight == RemoveAt(s.inFlight, e.index) && r.scheduled == s.scheduled
  {
    match e
    case ToggleClicked(id) => Toggle(s, id)
    case CollapseAllClicked => CollapseAll(s)
    case SearchTyped(text) => Effect(s, SearchChanged(s, text))
    case LoadMoreClicked =>
      if LoadMoreShown(v, s) then Effect(s, LoadMore(s)) else s
    case Fire(i) =>
      if i < |s.scheduled| then
        FetchStarted(v, s.(scheduled := RemoveAt(s.scheduled, i),
                           inFlight := s.inFlight + [s.scheduled[i]]))
      else s
    case Complete(i, outcome) =>
      if i < |s.inFlight| then
        var q := s.inFlight[i];
        var s' := s.(inFlight := RemoveAt(s.inFlight, i));
        match outcome
        case Succeeded(page) => FetchSucceeded(v, s', q.offset, page)
        case Failed => FetchFailed(v, s')
      else s
  }

  /** The state after a sequence of events, applied in order. */
  function Run(v: Variant, s: State, es: seq<Event>): State
    decreases |es|
  {
    if |es| == 0 then s else Run(v, Step(v, s, es[0]), es[1..])
  }

  /** A query the component can issue: a page of `Limit` users starting at a
      page boundary. */
  predicate PageAligned(q: Query)
  {
    q.limit == Limit && q.offset % Limit == 0
  }

  /** What holds in every state the component can reach from mount. */
  predicate Inv(v: Variant, s: State)
  {
    && s.offset % Limit == 0
    && (forall i :: 0 <= i < |s.scheduled| ==> PageAligned(s.scheduled[i]))
    && (forall i :: 0 <= i < |s.inFlight| ==> PageAligned(s.inFlight[i]))
    && (s.error.Some? ==> s.error.value == FailureMessage)
    && (s.loading ==> |s.scheduled| + |s.inFlight| > 0)
    && (v.Early? ==> !s.loading && s.error.None?)
  }
}
