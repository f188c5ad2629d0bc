/** The component's handlers and fetch callbacks as pure transitions on the
    state. Each handler is one atomic update (React batches the setters a
    handler calls into one render).
 */
module UserListHandlers {
  import opened UserListState

  /** The expand click on a panel: the panel's entry becomes the negation of
      what it showed. Only that panel changes; nothing else in the state does. */
  function Toggle(s: State, id: int): (r: State)
    ensures IsExpanded(r.expanded, id) == !IsExpanded(s.expanded, id)
    ensures forall k :: k != id ==> IsExpanded(r.expanded, k) == IsExpanded(s.expanded, k)
    ensures r.expanded.Keys == s.expanded.Keys + {id}
    ensures r == s.(expanded := r.expanded)
  {
    s.(expanded := s.expanded[id := !IsExpanded(s.expanded, id)])
  }

  /** The "collapse all" button: afterwards no panel is expanded, whatever the
      map held before; nothing else changes. */
  function CollapseAll(s: State): (r: State)
    ensures forall id :: !IsExpanded(r.expanded, id)
    ensures |r.expanded| == 0
    ensures r == s.(expanded := r.expanded)
  {
    s.(expanded := map[])
  }

  /** A change of the search text: the new text is stored and pagination
      restarts from the first page. The list, the panels and the fetch state
      are untouched until a response arrives. */
  function SearchChanged(s: State, text: string): (r: State)
    ensures r.search == text && r.offset == 0
    ensures CurrentQuery(r) == Query(text, 0, Limit)
    ensures r.users == s.users && r.expanded == s.expanded
    ensures r == s.(search := r.search, offset := r.offset)
  {
    s.(search := text, offset := 0)
  }

  /** The "load more" button: the offset moves on by exactly one page and the
      search text stays. */
  function LoadMore(s: State): (r: State)
    ensures r.offset == s.offset + Limit && r.offset > s.offset
    ensures r.search == s.search
    ensures r == s.(offset := r.offset)
  {
    s.(offset := s.offset + Limit)
  }

  /** The effect on `[search, offset]`: after a render in which either
      dependency changed, a request for the new query is scheduled. */
  function Effect(before: State, after: State): (r: State)
    ensures (before.search != after.search || before.offset != after.offset) ==>
              |r.scheduled| == |after.scheduled| + 1
              && r.scheduled[..|after.scheduled|] == after.scheduled
              && r.scheduled[|after.scheduled|] == CurrentQuery(after)
    ensures (before.search == after.search && before.offset == after.offset) ==> r == after
    ensures r == after.(scheduled := r.scheduled)
  {
    if before.search != after.search || before.offset != after.offset then
      after.(scheduled := after.scheduled + [CurrentQuery(after)])
    else
      after
  }

  /** The start of `fetchUsers`: the current version shows the loader and
      clears any error; the early version has no such state. */
  function FetchStarted(v: Variant, s: State): (r: State)
    ensures v.Current? ==> LoaderShown(v, r) && !ErrorShown(v, r) && !LoadMoreShown(v, r)
    ensures v.Current? ==> r.error.None?
    ensures v.Early? ==> r == s
    ensures r.users == s.users && r.search == s.search && r.offset == s.offset
    ensures r.expanded == s.expanded && r.scheduled == s.scheduled && r.inFlight == s.inFlight
  {
    match v
    case Current => s.(loading := true, error := None)
    case Early => s
  }

  /** A successful response to a request issued with offset `reqOffset`. The
      decision between replacing and appending uses that captured offset, not
      the state's current offset. The current version then ends loading. */
  function FetchSucceeded(v: Variant, s: State, reqOffset: nat, page: seq<User>): (r: State)
    ensures reqOffset == 0 ==> r.users == page
    ensures reqOffset != 0 ==> r.users == s.users + page
    ensures v.Current? ==> !r.loading
    ensures v.Early? ==> r.loading == s.loading
    ensures r.error == s.error
    ensures r.search == s.search && r.offset == s.offset && r.expanded == s.expanded
    ensures r.scheduled == s.scheduled && r.inFlight == s.inFlight
  {
    var users := if reqOffset == 0 then page else s.users + page;
    match v
    case Current => s.(users := users, loading := false)
    case Early => s.(users := users)
  }

  /** A failed request. The current version keeps the list, stores the fixed
      message and ends loading; the early version only logs, so nothing
      changes. */
  function FetchFailed(v: Variant, s: State): (r: State)
    ensures r.users == s.users
    ensures v.Current? ==> r.error == Some(FailureMessage) && !r.loading
    ensures v.Current? ==> ErrorShown(v, r) && !LoadMoreShown(v, r) && !LoaderShown(v, r)
    ensures v.Early? ==> r == s
    ensures r == s.(loading := r.loading, error := r.error)
  {
    match v
    case Current => s.(loading := false, error := Some(FailureMessage))
    case Early => s
  }
}
