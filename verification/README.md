# UserList state machine

A Dafny model of the state logic of the `UserList` React component: a
searchable, paginated list of user profiles whose panels can be expanded one
by one. The component keeps the accumulated list of users, a map from user id
to "panel expanded", the search text, the pagination offset and page size
(10), and, in the current version, a loading flag and an error message. Its
handlers (panel click, "collapse all", search typing, "load more") and its
fetch callbacks (start, success, failure) are modelled as pure transitions on
an immutable state record.

Two versions of the component exist and are modelled as one machine with a
`Variant`:

- `Current` — `src/components/UserList/UserList.tsx`: loading and error
  state, a loader overlay, an error banner, and a "load more" button shown
  only when nothing is loading and no error is set.
- `Early` — `src/components/UserList.tsx`: the same transitions with no
  loading or error state; failures are only logged and "load more" is
  always shown.

Files:

- `state.dfy` (`UserListState`): the state record, the mount state, the
  visible-expanded reading `!!expanded[id]`, and the visibility rules.
- `handlers.dfy` (`UserListHandlers`): one transition per handler and per
  fetch callback, and the `[search, offset]` effect that schedules a request.
- `session.dfy` (`UserListSession`): events, `Step` and `Run`, and the
  invariant of reachable states.
- `properties.dfy` (`UserListProperties`): lemmas over single events and
  over whole runs.

Requests are modelled explicitly. When the search text or the offset changes,
the effect puts a query (search, offset, limit) on the `scheduled` list.
A `Fire` event is the debounced call running `fetchUsers`: the query moves to
`inFlight` and the current version sets loading and clears the error.
A `Complete` event ends one in-flight request. Success replaces or appends
according to the offset **captured in that request**, not the state's current
offset. Scheduled queries may fire, and in-flight requests may complete, in
any order. So the model includes the stale-response overwrite the code allows
(`StaleResponseOverwrites`). It also includes `loading` being cleared while
another request is still in flight (`LoadMoreShownWhileInFlight`). A "load
more" click while the button is not rendered has no effect.

## Model

| member | source | states |
|---|---|---|
| UserListState.Init | src/components/UserList/UserList.tsx:39-79 | after mount the list, search and panels are empty, the offset is 0, the first page of the empty search is scheduled, and only the current version starts loading |
| UserListHandlers.Toggle | src/components/UserList/UserList.tsx:81-86 | a panel click flips that panel's visible expanded state, keeps every other panel's, and changes nothing else in the state (the early file's lines 71-76 are the same handler) |
| UserListHandlers.CollapseAll | src/components/UserList/UserList.tsx:88-90 | afterwards no panel is expanded whatever the map held, and nothing else changes (early file lines 78-80) |
| UserListHandlers.SearchChanged | src/components/UserList/UserList.tsx:92-95 | the new text is stored, the offset returns to 0, and the list, panels and fetch state are untouched (early file lines 82-85) |
| UserListHandlers.LoadMore | src/components/UserList/UserList.tsx:97-99 | the offset grows by exactly one page and the search text is kept (early file lines 87-89) |
| UserListHandlers.Effect | src/components/UserList/UserList.tsx:77-79 | when the search text or offset changed, exactly one request for the new query is appended after the existing scheduled ones; otherwise nothing happens |
| UserListHandlers.FetchStarted | src/components/UserList/UserList.tsx:47-49 | the current version shows the loader, hides the error and hides "load more"; the early version is unaffected; the list and query are kept |
| UserListHandlers.FetchSucceeded | src/components/UserList/UserList.tsx:57-70 | with request offset 0 the list becomes the page; with any other offset the page follows the old list; the current version ends loading; the error and query are kept |
| UserListHandlers.FetchFailed | src/components/UserList/UserList.tsx:64-70 | the list is kept; the current version shows the fixed message and no longer loads; the early version changes nothing (early file line 58) |
| UserListSession.Step | src/components/UserList/UserList.tsx:47-179 | a "load more" click on a button that is not rendered changes nothing; only panel events touch the panels, only completions touch the list, only search and "load more" touch the query; user events leave the in-flight requests alone, and a completion removes exactly its own request and leaves the scheduled ones |
| UserListProperties.ToggleTwice | src/components/UserList/UserList.tsx:81-86 | two clicks on a panel restore every panel's visible state; the map itself is restored when the key existed and otherwise gains a `false` entry |
| UserListProperties.ToggleParity | src/components/UserList/UserList.tsx:81-86 | without "collapse all", a panel shows expanded after any run exactly when its start state differs from the parity of its clicks |
| UserListProperties.StepPanel | src/components/UserList/UserList.tsx:81-90 | any single event other than "collapse all" flips a panel exactly when it is a click on that panel |
| UserListProperties.CollapsedStaysCollapsed | src/components/UserList/UserList.tsx:88-90 | after "collapse all", no event other than a panel click expands any panel |
| UserListProperties.SearchSchedulesFirstPage | src/components/UserList/UserList.tsx:77-95 | typing new text resets the offset, keeps the list and panels, and schedules exactly the first page of the new text |
| UserListProperties.LoadMoreClicks | src/components/UserList/UserList.tsx:97-99 | k clicks on a shown button add k pages to the offset, keep the search, and schedule the next k pages in order |
| UserListProperties.CompletionUsesCapturedOffset | src/components/UserList/UserList.tsx:47-63 | a completed request replaces or appends by the offset it was issued with, whatever the state's offset is now; exactly that request leaves the in-flight list, the others keep their order, and the scheduled queries are untouched |
| UserListProperties.FireSends | src/components/UserList/UserList.tsx:47-49 | the debounced call for a scheduled query sends that exact query: it leaves the scheduled list and is appended unchanged to the in-flight list; the current version sets loading and clears the error |
| UserListProperties.UserEventsKeepRequests | src/components/UserList/UserList.tsx:81-99 | panel clicks, "collapse all", typing and "load more" never send or complete a request and never change the list |
| UserListProperties.CapturedOffsetDecides | src/components/UserList/UserList.tsx:47-79 | a query scheduled at offset o, then sent, then completed after any user events, replaces the list exactly when o is 0 and otherwise appends its page, whatever the search and offset have become |
| UserListProperties.StepKeepsRequest | src/components/UserList/UserList.tsx:47-79 | any event other than its own completion keeps an in-flight request and its captured query, one place earlier when an earlier request completes |
| UserListProperties.RunKeepsRequest | src/components/UserList/UserList.tsx:47-79 | a request that a run never completes is still in flight afterwards with the query it was sent with, under any interleaving of other events |
| UserListProperties.CapturedOffsetDecidesAnyOrder | src/components/UserList/UserList.tsx:47-79 | a query scheduled at offset o is sent, any events follow (other requests sent and completing in any order), then it succeeds: the list becomes its page exactly when o is 0, otherwise the page is appended to the list as it then is |
| UserListProperties.TwoResponsesEitherOrder | src/components/UserList/UserList.tsx:57-63 | with a later-page request and a first-page request both in flight, the list ends as the first page alone if that lands last, and as the first page followed by the later page if the later page lands last |
| UserListProperties.LaterPagesAppend | src/components/UserList/UserList.tsx:57-63 | after successive later-page responses the list is the old list followed by every page, in arrival order |
| UserListProperties.FirstPageThenLaterPages | src/components/UserList/UserList.tsx:57-63 | a first page followed by later pages leaves exactly the concatenation of those pages |
| UserListProperties.InitInv | src/components/UserList/UserList.tsx:39-45 | the mount state satisfies the invariant |
| UserListProperties.StepInv | src/components/UserList/UserList.tsx:47-99 | every event preserves the invariant: page-aligned offset and requests, only the fixed error message, loading only while some request is pending, and the early version has no loading or error |
| UserListProperties.QueryChangeInv | src/components/UserList/UserList.tsx:92-99 | a search or "load more" keeps the offset and every scheduled query on a page boundary |
| UserListProperties.FireInv | src/components/UserList/UserList.tsx:47-56 | starting a request keeps the in-flight queries page-aligned and leaves a pending request while loading |
| UserListProperties.CompleteInv | src/components/UserList/UserList.tsx:57-70 | a completion keeps the invariant: a failure stores only the fixed message, and the current version clears loading |
| UserListProperties.RunInv | src/components/UserList/UserList.tsx:47-99 | every run of events preserves the invariant |
| UserListProperties.Reachable | src/components/UserList/UserList.tsx:122-179 | in every reachable state the offset and all requests are page-aligned, a shown error is the fixed message, and the loader implies a pending request |
| UserListProperties.EarlyAlwaysOffersLoadMore | src/components/UserList.tsx:147-149 | in the early version "load more" is shown in every reachable state, and there is never loading or error state |
| UserListProperties.LoadMoreGate | src/components/UserList/UserList.tsx:171-179 | a "load more" click moves the offset exactly when the button is shown; it is shown exactly when nothing loads and the error is falsy, which in every reachable state means no error is stored; the loader is shown exactly while loading |
| UserListProperties.EmptyMessageReadsAsNoError | src/components/UserList/UserList.tsx:122-179 | an empty error message is falsy for both the banner and the button, just like no error: the button shows and the banner does not |
| UserListProperties.ErrorPersistsUntilFetchStarts | src/components/UserList/UserList.tsx:47-70 | once a non-empty error is stored, it stays and "load more" stays hidden until a request starts; without a new search the query cannot move |
| UserListProperties.StepSameData | src/components/UserList.tsx:43-89 | one event keeps the two versions' list, panels, query and requests equal, unless it is a "load more" click the current version hides |
| UserListProperties.EarlyMatchesCurrent | src/components/UserList.tsx:43-89 | the early version agrees with the current one on list, panels, query and requests for every run whose "load more" clicks the current version accepts |
| UserListProperties.StaleResponseOverwrites | src/components/UserList/UserList.tsx:57-63 | a first-page response for an older search that arrives last overwrites the list although the field shows the newer text |
| UserListProperties.LoadMoreShownWhileInFlight | src/components/UserList/UserList.tsx:68-70 | one completion clears loading even while another request is in flight, so "load more" can show during a pending fetch |
| UserListProperties.FirstPageThenLoadMore | src/components/UserList/UserList.tsx:50-63 | mount, a page of ten, "load more", a second page of ten: the second request asks for offset 10 and the list holds both pages, twenty users |
| UserListProperties.FailureKeepsList | src/components/UserList/UserList.tsx:64-70 | a failed later page keeps the loaded list, shows the fixed message, ends loading and hides "load more" |

## Left out

- The HTTP request and the remote API: a response page is an arbitrary input sequence and a failure is an event. Malformed responses are not modelled; the API's shape is trusted.
- The 300 ms debounce: a scheduled query fires when its `Fire` event arrives, in any order, or never. The timer itself is not modelled. In the current version each render creates a new debounced function, which only that render's effect calls, once. So calls never coalesce there: every scheduled query fires 300 ms after it was scheduled, in issue order. The early version keeps one debounced function across renders. A call within 300 ms of the previous one replaces its arguments, so only the last query of a burst fires; the superseded ones are the queries that never get a `Fire` event. Both behaviours are runs of the model, which allows more runs than either version can produce, so every property proved over all runs holds for both.
- Sequencing or cancelling of stale responses: the code has none, and the model adds none.
- React batching and render scheduling: each handler is one atomic transition.
- All rendering: the layout, avatar, labels and list numbering. Only the three visibility rules are kept: "load more", the loader and the error banner.
- The loader overlay that covers the page while loading. Its possible blocking of clicks is not modelled, so events are allowed while loading.
- `console.error` logging.
- The fields of a user record other than `id`, including the floating-point coordinates. They are carried as an opaque payload.
- JavaScript object keys are strings. The model keys the expanded map by integer id, which matches because user ids are integers.
