/** Properties of the UserList machine over single events and over whole
    sequences of events.
 */
module UserListProperties {
  import opened UserListState
  import opened UserListHandlers
  import opened UserListSession

  // ---------------------------------------------------------------------
  // Expanded panels
  // ---------------------------------------------------------------------

  /** Two clicks on the same panel restore what every panel shows. When the
      panel had an entry the map itself is restored; when it had none, the
      entry is now `false`, which reads as collapsed just like a missing one. */
  lemma ToggleTwice(s: State, id: int)
    ensures forall k :: IsExpanded(Toggle(Toggle(s, id), id).expanded, k) == IsExpanded(s.expanded, k)
    ensures id in s.expanded ==> Toggle(Toggle(s, id), id) == s
    ensures id !in s.expanded ==> Toggle(Toggle(s, id), id) == s.(expanded := s.expanded[id := false])
  {
    var r := Toggle(Toggle(s, id), id);
    if id in s.expanded {
      assert r.expanded == s.expanded;
    } else {
      assert r.expanded == s.expanded[id := false];
    }
  }

  /** The number of clicks on panel `id` in a sequence of events. */
  function Toggles(es: seq<Event>, id: int): nat
    decreases |es|
  {
    if |es| == 0 then 0
    else (if es[0] == ToggleClicked(id) then 1 else 0) + Toggles(es[1..], id)
  }

  /** Without a "collapse all", a panel shows expanded after a run exactly when
      it started expanded and was clicked an even number of times, or started
      collapsed and was clicked an odd number of times. */
  lemma {:induction false} ToggleParity(v: Variant, s: State, es: seq<Event>, id: int)
    requires forall e :: e in es ==> !e.CollapseAllClicked?
    ensures IsExpanded(Run(v, s, es).expanded, id)
            == (IsExpanded(s.expanded, id) != (Toggles(es, id) % 2 == 1))
    decreases |es|
  {
    if |es| > 0 {
      var s1 := Step(v, s, es[0]);
      assert es[0] in es;
      StepPanel(v, s, es[0], id);
      ToggleParity(v, s1, es[1..], id);
      assert Run(v, s, es) == Run(v, s1, es[1..]);
      assert Toggles(es, id) == (if es[0] == ToggleClicked(id) then 1 else 0) + Toggles(es[1..], id);
    }
  }

  /** One event other than "collapse all" flips panel `id` exactly when it is
      a click on that panel. */
  lemma StepPanel(v: Variant, s: State, e: Event, id: int)
    requires !e.CollapseAllClicked?
    ensures IsExpanded(Step(v, s, e).expanded, id)
            == (IsExpanded(s.expanded, id) != (e == ToggleClicked(id)))
  {
  }

  /** After "collapse all" and any events that are not panel clicks, no panel
      is expanded. */
  lemma {:induction false} CollapsedStaysCollapsed(v: Variant, s: State, es: seq<Event>)
    requires forall e :: e in es ==> !e.ToggleClicked?
    ensures forall id :: !IsExpanded(Run(v, CollapseAll(s), es).expanded, id)
    decreases |es|
  {
    if |es| > 0 {
      var s1 := Step(v, CollapseAll(s), es[0]);
      assert s1.expanded == map[];
      assert s1 == CollapseAll(s1);
      CollapsedStaysCollapsed(v, s1, es[1..]);
    }
  }

  // ---------------------------------------------------------------------
  // Search and pagination
  // ---------------------------------------------------------------------

  /** Typing a new search text restarts paging: the offset is 0, the list and
      panels are kept, and the first page of the new text is scheduled. */
  lemma SearchSchedulesFirstPage(v: Variant, s: State, text: string)
    requires text != s.search
    ensures Step(v, s, SearchTyped(text)).offset == 0
    ensures Step(v, s, SearchTyped(text)).search == text
    ensures Step(v, s, SearchTyped(text)).users == s.users
    ensures Step(v, s, SearchTyped(text)).expanded == s.expanded
    ensures Step(v, s, SearchTyped(text)).scheduled == s.scheduled + [Query(text, 0, Limit)]
  {
  }

  /** A run of `k` "load more" clicks. */
  function Clicks(k: nat): seq<Event>
  {
    seq(k, _ => LoadMoreClicked)
  }

  /** The queries for the `k` pages that follow `from`, in order. */
  function NextPages(search: string, from: nat, k: nat): seq<Query>
  {
    seq(k, (j: nat) => Query(search, from + (j + 1) * Limit, Limit))
  }

  /** `k` clicks on a shown "load more" button move the offset on by `k`
      pages, keep the search text, and schedule the `k` following pages in
      order after whatever was already scheduled. */
  lemma {:induction false} LoadMoreClicks(v: Variant, s: State, k: nat)
    requires LoadMoreShown(v, s)
    ensures Run(v, s, Clicks(k)).offset == s.offset + k * Limit
    ensures Run(v, s, Clicks(k)).search == s.search
    ensures Run(v, s, Clicks(k)).scheduled == s.scheduled + NextPages(s.search, s.offset, k)
    decreases k
  {
    if k > 0 {
      var s1 := Step(v, s, LoadMoreClicked);
      assert s1.offset == s.offset + Limit;
      assert s1.scheduled == s.scheduled + [Query(s.search, s.offset + Limit, Limit)];
      assert LoadMoreShown(v, s1);
      assert Clicks(k)[1..] == Clicks(k - 1);
      LoadMoreClicks(v, s1, k - 1);
      assert Run(v, s, Clicks(k)) == Run(v, s1, Clicks(k - 1));
      var rest := NextPages(s.search, s1.offset, k - 1);
      assert NextPages(s.search, s.offset, k) == [Query(s.search, s.offset + Limit, Limit)] + rest by {
        forall j | 1 <= j < k
          ensures NextPages(s.search, s.offset, k)[j] == rest[j - 1]
        {
          assert s.offset + (j + 1) * Limit == s1.offset + (j - 1 + 1) * Limit;
        }
      }
    }
  }

  /** A completion uses the offset its request was issued with: a first-page
      response replaces the list even after the offset has moved on, and a
      later-page response appends even after the search has reset the offset. */
  lemma CompletionUsesCapturedOffset(v: Variant, s: State, i: nat, page: seq<User>)
    requires i < |s.inFlight|
    ensures s.inFlight[i].offset == 0 ==> Step(v, s, Complete(i, Succeeded(page))).users == page
    ensures s.inFlight[i].offset != 0 ==> Step(v, s, Complete(i, Succeeded(page))).users == s.users + page
    ensures Step(v, s, Complete(i, Succeeded(page))).offset == s.offset
    ensures Step(v, s, Complete(i, Succeeded(page))).inFlight == RemoveAt(s.inFlight, i)
    ensures Step(v, s, Complete(i, Succeeded(page))).scheduled == s.scheduled
  {
  }

  /** The debounced call for `scheduled[i]` sends exactly that query: it
      leaves the scheduled list and is appended, unchanged, to the in-flight
      list. In the current version loading is then set and the error
      cleared. */
  lemma FireSends(v: Variant, s: State, i: nat)
    requires i < |s.scheduled|
    ensures Step(v, s, Fire(i)).inFlight == s.inFlight + [s.scheduled[i]]
    ensures Step(v, s, Fire(i)).scheduled == RemoveAt(s.scheduled, i)
    ensures v.Current? ==> Step(v, s, Fire(i)).loading && Step(v, s, Fire(i)).error.None?
    ensures Step(v, s, Fire(i)).users == s.users
  {
  }

  /** Whether an event comes from the user (a panel click, "collapse all",
      typing, "load more") rather than from the network. */
  predicate UserEvent(e: Event)
  {
    e.ToggleClicked? || e.CollapseAllClicked? || e.SearchTyped? || e.LoadMoreClicked?
  }

  /** User events neither send nor complete requests, and never touch the
      list. */
  lemma {:induction false} UserEventsKeepRequests(v: Variant, s: State, es: seq<Event>)
    requires forall e :: e in es ==> UserEvent(e)
    ensures Run(v, s, es).inFlight == s.inFlight
    ensures Run(v, s, es).users == s.users
    decreases |es|
  {
    if |es| > 0 {
      assert es[0] in es;
      UserEventsKeepRequests(v, Step(v, s, es[0]), es[1..]);
    }
  }

  /** The offset is captured end to end: a query scheduled with offset `o`
      that is sent, and then completes successfully after any number of
      searches, "load more" clicks and panel events, replaces the list
      exactly when `o` is 0 and otherwise appends its page, whatever the
      search text and offset have become in the meantime. */
  lemma CapturedOffsetDecides(v: Variant, s: State, i: nat, es: seq<Event>, page: seq<User>)
    requires i < |s.scheduled|
    requires forall e :: e in es ==> UserEvent(e)
    ensures var s2 := Run(v, Step(v, s, Fire(i)), es);
            var s3 := Step(v, s2, Complete(|s.inFlight|, Succeeded(page)));
            && (s.scheduled[i].offset == 0 ==> s3.users == page)
            && (s.scheduled[i].offset != 0 ==> s3.users == s.users + page)
            && s3.search == s2.search && s3.offset == s2.offset
  {
    var s1 := Step(v, s, Fire(i));
    FireSends(v, s, i);
    UserEventsKeepRequests(v, s1, es);
    var s2 := Run(v, s1, es);
    assert s2.inFlight[|s.inFlight|] == s.scheduled[i];
    CompletionUsesCapturedOffset(v, s2, |s.inFlight|, page);
  }

  /** Where the in-flight request at index `k` sits after event `e`, provided
      `e` does not complete it: one place earlier when a request before it
      completes, otherwise where it was. */
  function NextIndex(s: State, e: Event, k: nat): nat
  {
    if e.Complete? && e.index < |s.inFlight| && e.index < k then k - 1 else k
  }

  /** Any event other than the completion of in-flight request `k` keeps that
      request, with its captured query, in flight at `NextIndex`; the other
      in-flight requests keep their order. */
  lemma StepKeepsRequest(v: Variant, s: State, e: Event, k: nat)
    requires k < |s.inFlight|
    requires !(e.Complete? && e.index == k)
    ensures NextIndex(s, e, k) < |Step(v, s, e).inFlight|
    ensures Step(v, s, e).inFlight[NextIndex(s, e, k)] == s.inFlight[k]
  {
    if e.Fire? && e.index < |s.scheduled| {
      FireSends(v, s, e.index);
    }
  }

  /** The run never completes the request that starts at in-flight index `k`. */
  predicate Survives(v: Variant, s: State, es: seq<Event>, k: nat)
    decreases |es|
  {
    |es| == 0
    || (!(es[0].Complete? && es[0].index == k)
        && Survives(v, Step(v, s, es[0]), es[1..], NextIndex(s, es[0], k)))
  }

  /** The in-flight index, after the run, of the request at index `k`. */
  function Follow(v: Variant, s: State, es: seq<Event>, k: nat): nat
    decreases |es|
  {
    if |es| == 0 then k else Follow(v, Step(v, s, es[0]), es[1..], NextIndex(s, es[0], k))
  }

  /** A request that the run does not complete is still in flight afterwards,
      with the query it was sent with, whatever else was typed, clicked, sent
      or completed meanwhile. */
  lemma {:induction false} RunKeepsRequest(v: Variant, s: State, es: seq<Event>, k: nat)
    requires k < |s.inFlight|
    requires Survives(v, s, es, k)
    ensures Follow(v, s, es, k) < |Run(v, s, es).inFlight|
    ensures Run(v, s, es).inFlight[Follow(v, s, es, k)] == s.inFlight[k]
    decreases |es|
  {
    if |es| > 0 {
      StepKeepsRequest(v, s, es[0], k);
      RunKeepsRequest(v, Step(v, s, es[0]), es[1..], NextIndex(s, es[0], k));
    }
  }

  /** The offset is captured end to end, under any interleaving: a query
      scheduled at offset `o` is sent; any events follow, including other
      requests being sent and completing in any order; then it completes
      successfully. The list is replaced by its page exactly when `o` is 0,
      and otherwise the page is appended to whatever the list then holds. */
  lemma CapturedOffsetDecidesAnyOrder(v: Variant, s: State, i: nat, es: seq<Event>, page: seq<User>)
    requires i < |s.scheduled|
    requires Survives(v, Step(v, s, Fire(i)), es, |s.inFlight|)
    ensures var s2 := Run(v, Step(v, s, Fire(i)), es);
            var s3 := Step(v, s2, Complete(Follow(v, Step(v, s, Fire(i)), es, |s.inFlight|), Succeeded(page)));
            && (s.scheduled[i].offset == 0 ==> s3.users == page)
            && (s.scheduled[i].offset != 0 ==> s3.users == s2.users + page)
            && s3.search == s2.search && s3.offset == s2.offset
  {
    var s1 := Step(v, s, Fire(i));
    FireSends(v, s, i);
    RunKeepsRequest(v, s1, es, |s.inFlight|);
    var s2 := Run(v, s1, es);
    var j := Follow(v, s1, es, |s.inFlight|);
    assert s2.inFlight[j] == s.scheduled[i];
    CompletionUsesCapturedOffset(v, s2, j, page);
  }

  /** Two requests in flight, a later page `q1` and a first page `q2`,
      completing in either order: if `q1` lands first, the first page then
      replaces everything; if `q2` lands first, `q1`'s page is appended to it. */
  lemma TwoResponsesEitherOrder(v: Variant, s: State, p1: seq<User>, p2: seq<User>)
    requires |s.inFlight| == 2 && s.inFlight[0].offset > 0 && s.inFlight[1].offset == 0
    ensures Step(v, Step(v, s, Complete(0, Succeeded(p1))), Complete(0, Succeeded(p2))).users == p2
    ensures Step(v, Step(v, s, Complete(1, Succeeded(p2))), Complete(0, Succeeded(p1))).users == p2 + p1
  {
    var a := Step(v, s, Complete(0, Succeeded(p1)));
    assert a.inFlight == [s.inFlight[1]];
    var b := Step(v, s, Complete(1, Succeeded(p2)));
    assert b.inFlight == [s.inFlight[0]];
  }

  /** A response as seen by the list: the offset its request carried and
      the page of users it returned. */
  datatype Response = Response(offset: nat, page: seq<User>)

  /** The successive successful responses, applied in order. */
  function Deliver(v: Variant, s: State, rs: seq<Response>): State
    decreases |rs|
  {
    if |rs| == 0 then s
    else Deliver(v, FetchSucceeded(v, s, rs[0].offset, rs[0].page), rs[1..])
  }

  /** All pages of the responses, concatenated in order. */
  function Pages(rs: seq<Response>): seq<User>
    decreases |rs|
  {
    if |rs| == 0 then [] else rs[0].page + Pages(rs[1..])
  }

  /** Later pages accumulate: after responses to requests with non-zero
      offsets, the list is the old list followed by every page, in order. */
  lemma {:induction false} LaterPagesAppend(v: Variant, s: State, rs: seq<Response>)
    requires forall r :: r in rs ==> r.offset > 0
    ensures Deliver(v, s, rs).users == s.users + Pages(rs)
    decreases |rs|
  {
    if |rs| > 0 {
      var s1 := FetchSucceeded(v, s, rs[0].offset, rs[0].page);
      assert rs[0] in rs;
      LaterPagesAppend(v, s1, rs[1..]);
      calc {
        Deliver(v, s, rs).users;
        Deliver(v, s1, rs[1..]).users;
        s1.users + Pages(rs[1..]);
        { assert s1.users == s.users + rs[0].page; }
        s.users + rs[0].page + Pages(rs[1..]);
        s.users + (rs[0].page + Pages(rs[1..]));
        s.users + Pages(rs);
      }
    }
  }

  /** A first page followed by later pages leaves exactly those pages, in
      order, whatever the list held before. */
  lemma FirstPageThenLaterPages(v: Variant, s: State, rs: seq<Response>)
    requires |rs| > 0 && rs[0].offset == 0
    requires forall r :: r in rs[1..] ==> r.offset > 0
    ensures Deliver(v, s, rs).users == Pages(rs)
  {
    LaterPagesAppend(v, FetchSucceeded(v, s, 0, rs[0].page), rs[1..]);
  }

  // ---------------------------------------------------------------------
  // Reachable states
  // ---------------------------------------------------------------------

  lemma InitInv(v: Variant)
    ensures Inv(v, Init(v))
  {
  }

  /** Every event keeps the invariant. */
  lemma StepInv(v: Variant, s: State, e: Event)
    requires Inv(v, s)
    ensures Inv(v, Step(v, s, e))
  {
    match e {
      case ToggleClicked(id) =>
      case CollapseAllClicked =>
      case SearchTyped(text) => QueryChangeInv(v, s, e);
      case LoadMoreClicked => QueryChangeInv(v, s, e);
      case Fire(i) => FireInv(v, s, i);
      case Complete(i, outcome) => CompleteInv(v, s, i, outcome);
    }
  }

  /** A search or "load more" keeps the offset and every scheduled query
      page-aligned. */
  lemma QueryChangeInv(v: Variant, s: State, e: Event)
    requires Inv(v, s)
    requires e.SearchTyped? || e.LoadMoreClicked?
    ensures Inv(v, Step(v, s, e))
  {
    var r := Step(v, s, e);
    assert r.offset % Limit == 0 by {
      if e.LoadMoreClicked? && LoadMoreShown(v, s) {
        assert r.offset == s.offset + Limit;
      }
    }
    assert r.scheduled == s.scheduled || r.scheduled == s.scheduled + [CurrentQuery(r)];
    forall i | 0 <= i < |r.scheduled| ensures PageAligned(r.scheduled[i]) {
      if i < |s.scheduled| {
        assert r.scheduled[i] == s.scheduled[i];
      }
    }
  }

  /** Starting a request moves a page-aligned query to the in-flight list and
      leaves loading set with that request pending. */
  lemma FireInv(v: Variant, s: State, i: nat)
    requires Inv(v, s)
    ensures Inv(v, Step(v, s, Fire(i)))
  {
    if i < |s.scheduled| {
      var r := Step(v, s, Fire(i));
      assert r.inFlight == s.inFlight + [s.scheduled[i]];
      assert forall j :: 0 <= j < |r.inFlight| ==> PageAligned(r.inFlight[j]);
    }
  }

  /** A completion removes one in-flight request and clears loading, and a
      failure stores only the fixed message. */
  lemma CompleteInv(v: Variant, s: State, i: nat, outcome: Outcome)
    requires Inv(v, s)
    ensures Inv(v, Step(v, s, Complete(i, outcome)))
  {
  }

  /** Every run keeps the invariant. */
  lemma {:induction false} RunInv(v: Variant, s: State, es: seq<Event>)
    requires Inv(v, s)
    ensures Inv(v, Run(v, s, es))
    decreases |es|
  {
    if |es| > 0 {
      StepInv(v, s, es[0]);
      RunInv(v, Step(v, s, es[0]), es[1..]);
    }
  }

  /** In every state reachable from mount: the offset is a whole number of
      pages and every request asks for one page at a page boundary; the only
      error ever shown is the fixed message; the loader is shown only while
      some request is scheduled or in flight; and the early version never
      shows a loader or an error and always shows "load more". */
  lemma Reachable(v: Variant, es: seq<Event>)
    ensures Run(v, Init(v), es).offset % Limit == 0
    ensures forall i :: 0 <= i < |Run(v, Init(v), es).scheduled| ==>
              PageAligned(Run(v, Init(v), es).scheduled[i])
    ensures forall i :: 0 <= i < |Run(v, Init(v), es).inFlight| ==>
              PageAligned(Run(v, Init(v), es).inFlight[i])
    ensures ErrorShown(v, Run(v, Init(v), es)) ==>
              Run(v, Init(v), es).error == Some(FailureMessage)
    ensures LoaderShown(v, Run(v, Init(v), es)) ==>
              |Run(v, Init(v), es).scheduled| + |Run(v, Init(v), es).inFlight| > 0
    ensures v.Early? ==>
              !LoaderShown(v, Run(v, Init(v), es)) && !ErrorShown(v, Run(v, Init(v), es))
              && LoadMoreShown(v, Run(v, Init(v), es))
  {
    InitInv(v);
    RunInv(v, Init(v), es);
  }

  /** The early version never has loading or error state, so its "load more"
      button is on screen in every reachable state. */
  lemma EarlyAlwaysOffersLoadMore(es: seq<Event>)
    ensures LoadMoreShown(Early, Run(Early, Init(Early), es))
    ensures !Run(Early, Init(Early), es).loading
    ensures Run(Early, Init(Early), es).error.None?
  {
    InitInv(Early);
    RunInv(Early, Init(Early), es);
  }

  // ---------------------------------------------------------------------
  // Visibility rules
  // ---------------------------------------------------------------------

  /** A "load more" click moves the offset exactly when the button is shown,
      and in the current version it is shown exactly when nothing is loading
      and no error is set (an empty message reads as none, and in every
      reachable state the error is absent or the fixed message); the loader
      is shown exactly while loading. */
  lemma LoadMoreGate(v: Variant, s: State)
    ensures Step(v, s, LoadMoreClicked).offset != s.offset <==> LoadMoreShown(v, s)
    ensures LoadMoreShown(v, s) ==> Step(v, s, LoadMoreClicked).offset == s.offset + Limit
    ensures LoadMoreShown(Current, s) <==> !s.loading && !HasError(s)
    ensures Inv(Current, s) ==> (LoadMoreShown(Current, s) <==> !s.loading && s.error.None?)
    ensures LoaderShown(Current, s) <==> s.loading
  {
  }

  /** The button and the banner read the error the same way: an empty
      message is falsy, so it shows "load more" and no banner, exactly as
      `null` does. */
  lemma EmptyMessageReadsAsNoError(s: State)
    requires !s.loading && s.error == Some("")
    ensures LoadMoreShown(Current, s) && !ErrorShown(Current, s)
  {
  }

  // ---------------------------------------------------------------------
  // Error recovery (current version)
  // ---------------------------------------------------------------------

  /** Once a fetch has failed, the error stays and "load more" stays hidden
      until some request starts; and unless a new search is typed, neither
      the offset nor the search text can move in the meantime. */
  lemma {:induction false} ErrorPersistsUntilFetchStarts(s: State, es: seq<Event>)
    requires HasError(s)
    requires forall e :: e in es ==> !e.Fire?
    ensures HasError(Run(Current, s, es))
    ensures !LoadMoreShown(Current, Run(Current, s, es))
    ensures (forall e :: e in es ==> !e.SearchTyped?) ==>
              Run(Current, s, es).offset == s.offset && Run(Current, s, es).search == s.search
    decreases |es|
  {
    if |es| > 0 {
      var s1 := Step(Current, s, es[0]);
      assert es[0] in es;
      assert HasError(s1);
      ErrorPersistsUntilFetchStarts(s1, es[1..]);
    }
  }

  // ---------------------------------------------------------------------
  // The early version is the current one without loading and error state
  // ---------------------------------------------------------------------

  /** Two states that hold the same list, panels, query and requests. */
  predicate SameData(a: State, b: State)
  {
    a == b.(loading := a.loading, error := a.error)
  }

  /** No "load more" click in the run hits a hidden button of the current
      version. */
  predicate Unblocked(s: State, es: seq<Event>)
    decreases |es|
  {
    |es| == 0
    || ((es[0].LoadMoreClicked? ==> LoadMoreShown(Current, s))
        && Unblocked(Step(Current, s, es[0]), es[1..]))
  }

  /** One event keeps the two versions' data equal, unless it is a "load
      more" click the current version hides. */
  lemma StepSameData(a: State, b: State, e: Event)
    requires SameData(a, b)
    requires e.LoadMoreClicked? ==> LoadMoreShown(Current, b)
    ensures SameData(Step(Early, a, e), Step(Current, b, e))
  {
  }

  /** The early version and the current version agree on everything except
      loading and error for any run whose "load more" clicks the current
      version would have accepted. */
  lemma {:induction false} EarlyMatchesCurrent(a: State, b: State, es: seq<Event>)
    requires SameData(a, b)
    requires Unblocked(b, es)
    ensures SameData(Run(Early, a, es), Run(Current, b, es))
    decreases |es|
  {
    if |es| > 0 {
      StepSameData(a, b, es[0]);
      EarlyMatchesCurrent(Step(Early, a, es[0]), Step(Current, b, es[0]), es[1..]);
    }
  }

  // ---------------------------------------------------------------------
  // Behaviour the code has because completions are not sequenced
  // ---------------------------------------------------------------------

  /** A first-page response for an older search that arrives after the
      response for the newer search overwrites the list: the list then holds
      the old search's results while the field shows the new text. */
  lemma StaleResponseOverwrites(v: Variant, oldPage: seq<User>, newPage: seq<User>)
    ensures var s1 := Step(v, Init(v), Fire(0));
            var s2 := Step(v, s1, SearchTyped("ann"));
            var s3 := Step(v, s2, Fire(0));
            var s4 := Step(v, s3, Complete(1, Succeeded(newPage)));
            var s5 := Step(v, s4, Complete(0, Succeeded(oldPage)));
            s4.users == newPage && s5.users == oldPage && s5.search == "ann"
  {
    var s1 := Step(v, Init(v), Fire(0));
    assert s1.inFlight == [Query("", 0, Limit)];
    var s2 := Step(v, s1, SearchTyped("ann"));
    assert s2.scheduled == [Query("ann", 0, Limit)];
    var s3 := Step(v, s2, Fire(0));
    assert s3.inFlight == [Query("", 0, Limit), Query("ann", 0, Limit)];
    var s4 := Step(v, s3, Complete(1, Succeeded(newPage)));
    assert s4.inFlight == [Query("", 0, Limit)];
  }

  /** The current version clears `loading` when any one request completes,
      so "load more" can be shown while another request is still in flight. */
  lemma LoadMoreShownWhileInFlight(page: seq<User>)
    ensures var s1 := Step(Current, Init(Current), Fire(0));
            var s2 := Step(Current, s1, SearchTyped("a"));
            var s3 := Step(Current, s2, Fire(0));
            var s4 := Step(Current, s3, Complete(0, Succeeded(page)));
            LoadMoreShown(Current, s4) && |s4.inFlight| == 1
  {
  }

  // ---------------------------------------------------------------------
  // Scenarios
  // ---------------------------------------------------------------------

  /** Mount, first page of ten, one "load more", second page of ten: the
      second request asks for offset 10 and the list holds both pages. */
  lemma FirstPageThenLoadMore(p1: seq<User>, p2: seq<User>)
    requires |p1| == 10 && |p2| == 10
    ensures var s1 := Step(Current, Init(Current), Fire(0));
            var s2 := Step(Current, s1, Complete(0, Succeeded(p1)));
            var s3 := Step(Current, s2, LoadMoreClicked);
            var s4 := Step(Current, s3, Fire(0));
            var s5 := Step(Current, s4, Complete(0, Succeeded(p2)));
            && s2.users == p1 && |s2.users| == 10 && !s2.loading && s2.error.None?
            && s3.scheduled == [Query("", 10, 10)]
            && s5.users == p1 + p2 && |s5.users| == 20
  {
  }

  /** A failed request keeps whatever list was loaded and shows the message. */
  lemma FailureKeepsList(p1: seq<User>)
    ensures var s1 := Step(Current, Init(Current), Fire(0));
            var s2 := Step(Current, s1, Complete(0, Succeeded(p1)));
            var s3 := Step(Current, s2, LoadMoreClicked);
            var s4 := Step(Current, s3, Fire(0));
            var s5 := Step(Current, s4, Complete(0, Failed));
            && s5.users == p1 && s5.error == Some(FailureMessage) && !s5.loading
            && !LoadMoreShown(Current, s5)
  {
  }
}
