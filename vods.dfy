/** The gallery page: four state cells, the events that change them (the
    initial load completing, a page-change click, a page load completing) and
    what the page renders from them.

    This is UI glue with a thin logical core: the network requests are not
    modelled, each response arrives as an explicit event carrying the decoded
    body, and the rendered markup is reduced to the list of cards and the
    state of the pagination control. */
module Vods {
  import opened Wrappers
  import opened Records
  import opened VodCard

  /** Records per page, fixed for every request. */
  const Limit: nat := 50

  /** The decoded body of a successful response: one page of records and the
      total number of records on the server. */
  datatype Response = Response(data: seq<VodRecord>, total: nat)

  /** The four state cells: the records to display, the loading flag, the
      current page (null before the first load) and the page count (null
      before the first load). */
  datatype GalleryState = GalleryState(
    vods: seq<VodRecord>,
    loading: bool,
    page: Option<int>,
    totalPages: Option<nat>)

  /** The state when the gallery mounts. */
  const Initial: GalleryState := GalleryState([], true, None, None)

  /** What can happen to the gallery. A response is `None` when the fetch,
      the JSON decoding or the access to its `data` failed. */
  datatype Event =
    | InitialLoaded(response: Option<Response>)
    | PageRequested(value: int)
    | PageLoaded(response: Option<Response>)

  /** The offset of the first record of page `value` (pages count from 1). */
  function Skip(value: int): (skip: int)
    ensures value >= 1 <==> skip >= 0
    ensures skip % Limit == 0
  {
    (value - 1) * Limit
  }

  /** The page count the gallery derives from the server's record count:
      the number of WHOLE pages, rounded down. */
  function PageCount(total: nat): (n: nat)
    ensures n * Limit <= total < (n + 1) * Limit
  {
    total / Limit
  }

  /** The page on which the record at position `index` of the full,
      newest-first collection is served. */
  function PageOf(index: nat): int
  {
    index / Limit + 1
  }

  /** Page `value` is requested at exactly the offset of its first record,
      and the whole page of `Limit` records lies on it. */
  lemma SkipStartsPage(value: int)
    requires value >= 1
    ensures Skip(value) >= 0
    ensures PageOf(Skip(value)) == value && PageOf(Skip(value) + Limit - 1) == value
    ensures Skip(value) > 0 ==> PageOf(Skip(value) - 1) == value - 1
  {
  }

  /** A successful response replaces the records in the `vods` cell: the initial
      load always does, a page load only when it brought records. */
  predicate Replaces(e: Event)
  {
    match e
    case InitialLoaded(r) => r.Some?
    case PageRequested(_) => false
    case PageLoaded(r) => r.Some? && |r.value.data| > 0
  }

  predicate IsInitialSuccess(e: Event)
  {
    e.InitialLoaded? && e.response.Some?
  }

  /** The request a page-change click issues: the offset to fetch, or none
      when the clicked page is the current one. */
  function RequestedSkip(s: GalleryState, value: int): (skip: Option<int>)
    ensures skip == None <==> s.page == Some(value)
    ensures skip.Some? ==> skip.value == (value - 1) * Limit
  {
    if s.page == Some(value) then None else Some(Skip(value))
  }

  /** The effect of one event on the state cells. */
  function Step(s: GalleryState, e: Event): (r: GalleryState)
    ensures s.loading && !r.loading ==> IsInitialSuccess(e)
    ensures r.totalPages != s.totalPages ==> IsInitialSuccess(e)
    ensures r.vods != s.vods ==> Replaces(e)
    ensures Replaces(e) ==> r.vods == e.response.value.data
    ensures e.PageLoaded? ==> r.loading == s.loading && r.page == s.page && r.totalPages == s.totalPages
  {
    match e
    case InitialLoaded(None) => s
    case InitialLoaded(Some(resp)) =>
      GalleryState(resp.data, false, Some(1), Some(PageCount(resp.total)))
    case PageRequested(value) =>
      if s.page == Some(value) then s else s.(loading := true, page := Some(value))
    case PageLoaded(None) => s
    case PageLoaded(Some(resp)) =>
      if |resp.data| == 0 then s else s.(vods := resp.data)
  }

  /** The state after the events `es`, applied in the order given. */
  function Run(s: GalleryState, es: seq<Event>): GalleryState
    decreases |es|
  {
    if es == [] then s else Step(Run(s, es[..|es| - 1]), es[|es| - 1])
  }

  /** Event `i` is the last one in `es` that replaced the records. */
  predicate LatestReplacement(es: seq<Event>, i: int)
  {
    0 <= i < |es| && Replaces(es[i]) && forall j :: i < j < |es| ==> !Replaces(es[j])
  }

  /** Stale-on-error: after any run the `vods` cell holds the records of the
      latest successful load that brought any (an initial load counts even
      when empty), and the records it started with when there was none. They
      are on screen only while not loading; see `LoadingAfterPageChange`. */
  lemma {:induction false} ItemsAreLatestReplacement(s: GalleryState, es: seq<Event>)
    ensures (forall i :: 0 <= i < |es| ==> !Replaces(es[i])) ==> Run(s, es).vods == s.vods
    ensures forall i :: LatestReplacement(es, i) ==> Run(s, es).vods == es[i].response.value.data
    decreases |es|
  {
    if es != [] {
      var n := |es| - 1;
      var pre := es[..n];
      ItemsAreLatestReplacement(s, pre);
      forall i | LatestReplacement(es, i) ensures Run(s, es).vods == es[i].response.value.data {
        if i < n {
          assert !Replaces(es[n]);
          assert LatestReplacement(pre, i) by {
            forall j | i < j < |pre| ensures !Replaces(pre[j]) {
              assert pre[j] == es[j];
            }
          }
        }
      }
      if forall i :: 0 <= i < |es| ==> !Replaces(es[i]) {
        forall i | 0 <= i < |pre| ensures !Replaces(pre[i]) {
          assert pre[i] == es[i];
        }
        assert !Replaces(es[n]);
      }
    }
  }

  /** The loading flag is cleared by nothing but a successful initial load:
      a run that starts loading and ends not loading contains one. */
  lemma {:induction false} LoadingClearedOnlyByInitialLoad(s: GalleryState, es: seq<Event>)
    requires s.loading
    ensures !Run(s, es).loading ==> exists i :: 0 <= i < |es| && IsInitialSuccess(es[i])
    decreases |es|
  {
    if es != [] {
      var n := |es| - 1;
      var pre := es[..n];
      LoadingClearedOnlyByInitialLoad(s, pre);
      if !Run(s, es).loading {
        if IsInitialSuccess(es[n]) {
        } else {
          assert !Run(s, pre).loading;
          var i :| 0 <= i < |pre| && IsInitialSuccess(pre[i]);
          assert es[i] == pre[i];
        }
      }
    }
  }

  /** The page count changes only on a successful initial load: after any
      run it is what it was before, or the count derived from the total of
      one of the run's successful initial loads. */
  lemma {:induction false} TotalPagesFromInitialLoad(s: GalleryState, es: seq<Event>)
    ensures Run(s, es).totalPages == s.totalPages
      || exists i :: 0 <= i < |es| && IsInitialSuccess(es[i])
           && Run(s, es).totalPages == Some(PageCount(es[i].response.value.total))
    decreases |es|
  {
    if es != [] {
      var n := |es| - 1;
      var pre := es[..n];
      TotalPagesFromInitialLoad(s, pre);
      if !IsInitialSuccess(es[n]) && Run(s, pre).totalPages != s.totalPages {
        var i :| 0 <= i < |pre| && IsInitialSuccess(pre[i])
          && Run(s, pre).totalPages == Some(PageCount(pre[i].response.value.total));
        assert es[i] == pre[i];
      }
    }
  }

  /** The consistency the cells keep: a page count is only ever set with a
      page, and the gallery is only shown (not loading) once both are set. */
  predicate Consistent(s: GalleryState)
  {
    (s.totalPages.Some? ==> s.page.Some?)
    && (!s.loading ==> s.page.Some? && s.totalPages.Some?)
  }

  lemma {:induction false} RunKeepsConsistent(s: GalleryState, es: seq<Event>)
    requires Consistent(s)
    ensures Consistent(Run(s, es))
    decreases |es|
  {
    if es != [] {
      RunKeepsConsistent(s, es[..|es| - 1]);
    }
  }

  /** The state of the page selector. */
  datatype PaginationControl =
    | Hidden
    | Shown(count: nat, current: Option<int>, disabled: bool)

  /** The page selector is rendered once the page count is known, and is
      disabled when there is at most one page. */
  function Pagination(totalPages: Option<nat>, page: Option<int>): (c: PaginationControl)
    ensures c.Hidden? <==> totalPages == None
    ensures c.Shown? ==> c.count == totalPages.value && c.current == page
    ensures c.Shown? ==> (c.disabled <==> c.count <= 1)
  {
    if totalPages.Some? then Shown(totalPages.value, page, totalPages.value <= 1) else Hidden
  }

  /** What the page shows: the loading placeholder, or the cards and the
      page selector. */
  datatype View =
    | LoadingPlaceholder
    | GalleryView(cards: seq<Card>, pagination: PaginationControl)

  function Render(s: GalleryState): (v: View)
    ensures v.LoadingPlaceholder? <==> s.loading
    ensures v.GalleryView? ==>
      |v.cards| == |s.vods| && forall i :: 0 <= i < |s.vods| ==> v.cards[i] == CardOf(s.vods[i])
    ensures v.GalleryView? ==> v.pagination == Pagination(s.totalPages, s.page)
  {
    if s.loading then LoadingPlaceholder
    else GalleryView(seq(|s.vods|, i requires 0 <= i < |s.vods| => CardOf(s.vods[i])),
                     Pagination(s.totalPages, s.page))
  }

  /** After a successful initial load the gallery shows page 1 with one card
      per record, in the order received, and the selector is enabled exactly
      when the server holds at least two whole pages. */
  lemma InitialLoadView(s: GalleryState, resp: Response)
    ensures Render(Step(s, InitialLoaded(Some(resp)))).GalleryView?
    ensures |Render(Step(s, InitialLoaded(Some(resp)))).cards| == |resp.data|
    ensures forall i :: 0 <= i < |resp.data| ==>
      Render(Step(s, InitialLoaded(Some(resp)))).cards[i] == CardOf(resp.data[i])
    ensures Render(Step(s, InitialLoaded(Some(resp)))).pagination.Shown?
    ensures Render(Step(s, InitialLoaded(Some(resp)))).pagination.current == Some(1)
    ensures !Render(Step(s, InitialLoaded(Some(resp)))).pagination.disabled <==> resp.total >= 2 * Limit
  {
  }

  /** Whenever the gallery itself is on screen, whatever happened since it
      mounted, the page selector is rendered with a current page. */
  lemma {:induction false} GalleryAlwaysHasPagination(es: seq<Event>)
    ensures Render(Run(Initial, es)).GalleryView? ==>
      Render(Run(Initial, es)).pagination.Shown? && Render(Run(Initial, es)).pagination.current.Some?
  {
    RunKeepsConsistent(Initial, es);
  }

  /** A click that changes the page sets the loading flag, and no later
      page-change or page load clears it: unless another initial load
      succeeds, the loading placeholder replaces the gallery from then on. */
  lemma {:induction false} LoadingAfterPageChange(s: GalleryState, value: int, es: seq<Event>)
    requires s.page != Some(value)
    requires forall i :: 0 <= i < |es| ==> !IsInitialSuccess(es[i])
    ensures Render(Run(Step(s, PageRequested(value)), es)) == LoadingPlaceholder
  {
    LoadingClearedOnlyByInitialLoad(Step(s, PageRequested(value)), es);
  }

  /** The pages offered: page 1, shown after the initial load, and the pages
      the selector offers. (Once a page change has been clicked the gallery
      stays behind the loading placeholder, see `LoadingAfterPageChange`, so
      an offered page other than 1 is offered, not necessarily displayed.) */
  predicate Offered(p: int, totalPages: nat)
  {
    p == 1 || 1 <= p <= totalPages
  }

  /** Because the page count is rounded down, every record of the collection
      is on an offered page exactly when the total is at most one page or a
      whole number of pages; otherwise the last, partial page is never
      offered. */
  lemma AllRecordsOffered(total: nat)
    ensures (forall i :: 0 <= i < total ==> Offered(PageOf(i), PageCount(total)))
            <==> total <= Limit || total % Limit == 0
  {
    var n := PageCount(total);
    if total <= Limit || total % Limit == 0 {
      forall i | 0 <= i < total ensures Offered(PageOf(i), n) {
        if total > Limit {
          assert total == n * Limit;
          assert i / Limit < n by {
            assert i < n * Limit;
            assert i / Limit <= (n * Limit - 1) / Limit;
            assert n * Limit - 1 == (n - 1) * Limit + (Limit - 1);
          }
        }
      }
    } else {
      var last := total - 1;
      assert total == n * Limit + total % Limit;
      assert last == n * Limit + (total % Limit - 1);
      assert last / Limit == n;
      assert n >= 1;
      assert !Offered(PageOf(last), n);
    }
  }

  /** The page count of three sample totals: 237, 49 and 100. */
  lemma PageCountExamples()
    ensures PageCount(237) == 4 && PageCount(49) == 0 && PageCount(100) == 2
  {
  }

  /** The gallery component's state cells, updated in place by the event
      handlers. */
  class Gallery {
    var vods: seq<VodRecord>
    var loading: bool
    var page: Option<int>
    var totalPages: Option<nat>

    function State(): GalleryState
      reads this
    {
      GalleryState(vods, loading, page, totalPages)
    }

    /** Mounting: no records, loading, page and page count unset. */
    constructor ()
      ensures State() == Initial
    {
      vods, loading, page, totalPages := [], true, None, None;
    }

    /** The initial fetch completed: on success page 1 with the received
        records, in order, and the rounded-down page count, no longer
        loading; on failure nothing changes. */
    method InitialLoadCompleted(response: Option<Response>)
      modifies this
      ensures response.Some? ==>
        page == Some(1) && vods == response.value.data
        && totalPages == Some(response.value.total / Limit) && !loading
      ensures response.None? ==> State() == old(State())
      ensures State() == Step(old(State()), InitialLoaded(response))
    {
      if response.Some? {
        page := Some(1);
        vods := response.value.data;
        totalPages := Some(PageCount(response.value.total));
        loading := false;
      }
    }

    /** A click on page `value`: ignored when it is the current page;
        otherwise the gallery starts loading, shows `value` as current at
        once and requests the page's records at offset `skip`. */
    method HandlePageChange(value: int) returns (skip: Option<int>)
      modifies this
      ensures old(page) == Some(value) ==> skip == None && State() == old(State())
      ensures old(page) != Some(value) ==>
        skip == Some((value - 1) * Limit) && loading && page == Some(value)
        && vods == old(vods) && totalPages == old(totalPages)
      ensures skip == RequestedSkip(old(State()), value)
      ensures State() == Step(old(State()), PageRequested(value))
    {
      if page == Some(value) {
        return None;
      }
      loading := true;
      page := Some(value);
      skip := Some(Skip(value));
    }

    /** A page fetch completed: a non-empty page replaces the records in
        the `vods` cell; an empty page or a failure leaves them unchanged.
        The loading flag, the page and the page count are never touched. */
    method PageLoadCompleted(response: Option<Response>)
      modifies this
      ensures response.Some? && |response.value.data| > 0 ==>
        vods == response.value.data
      ensures response.None? || |response.value.data| == 0 ==> vods == old(vods)
      ensures loading == old(loading) && page == old(page) && totalPages == old(totalPages)
      ensures State() == Step(old(State()), PageLoaded(response))
    {
      if response.None? || |response.value.data| == 0 {
        return;
      }
      vods := response.value.data;
    }
  }
}
