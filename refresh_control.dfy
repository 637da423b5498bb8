/**
 * The refresh controller of the map page: `refreshData` always asks for
 * the heatmap first and then either the company transports (zoom at or
 * above 9) or the "zoom in" placeholder, and the `moveend` handler
 * debounces refreshes through one module-level timer.
 *
 * Fetches are abstract actions whose outcomes come in as parameters; the
 * browser's timer table is a set of pending timer ids, and the passing of
 * the quiet period is the event of one timer firing.
 */
module RefreshControl {
  import opened JsValues
  import opened ApiData
  import CompanyGrouping

  /** SIDEBAR_ZOOM_THRESHOLD */
  const SidebarZoomThreshold: real := 9.0

  /** The zoom the map is created with. */
  const InitialZoom: real := 7.0

  /** The visible effects of a refresh, in order. */
  datatype Action =
    | FetchHeatmap(zoomLevel: int)
    | FetchTransports
    | ShowZoomPlaceholder

  /** The steps refreshData takes on a map at the given zoom. */
  function RefreshActions(hasMap: bool, zoom: real): (acts: seq<Action>)
    ensures !hasMap ==> acts == []
    ensures hasMap ==> |acts| == 2 && acts[0] == FetchHeatmap(zoom.Floor)
    ensures FetchTransports in acts <==> hasMap && zoom >= SidebarZoomThreshold
    ensures ShowZoomPlaceholder in acts <==> hasMap && zoom < SidebarZoomThreshold
  {
    if !hasMap then []
    else [FetchHeatmap(zoom.Floor)] + (if zoom >= SidebarZoomThreshold then [FetchTransports] else [ShowZoomPlaceholder])
  }

  /** Given zoom = threshold - 1 the transports are not fetched; given zoom
      = threshold they are. */
  lemma ThresholdBoundary()
    ensures FetchTransports !in RefreshActions(true, SidebarZoomThreshold - 1.0)
    ensures FetchTransports in RefreshActions(true, SidebarZoomThreshold)
    ensures RefreshActions(true, 8.5) == [FetchHeatmap(8), ShowZoomPlaceholder]
  {
  }

  // ---- the sidebar ----

  datatype Sidebar =
    | SidebarInitial
    | ZoomPlaceholder
    | LoadError
    | Companies(list: CompanyGrouping.CompanyList)

  /** What the map page can see: the heatmap source's data (None before the
      layer exists), the `feed-count` text and the sidebar list. */
  datatype View = View(heatmapData: Option<seq<HeatFeature>>, feedCount: string, sidebar: Sidebar)

  /** fetchHeatmapData: the layer takes the new data when the body has
      `features`; a failed request or a body without features leaves the
      old heatmap in place. */
  function HeatmapAfter(layer: Option<seq<HeatFeature>>, heat: HeatmapOutcome): (r: Option<seq<HeatFeature>>)
    ensures r != layer ==> heat.HeatmapBody? && heat.features.Some?
    ensures heat.HeatmapBody? && heat.features.Some? ==> r == heat.features
  {
    if heat.HeatmapBody? && heat.features.Some? then heat.features else layer
  }

  /** `data.transports || []` followed by `forEach`: None when the handler
      ends in its catch branch (a failed request, a `null` body, or a
      truthy `transports` that is not an array). */
  function TransportsOrFailure(outcome: TransportsOutcome): (r: Option<seq<TransportRecord>>)
    ensures r.None? <==>
      outcome.RequestFailed? || outcome.body.NullBody? || outcome.body.transports.NonArrayValue?
    ensures r.Some? && outcome.body.transports.TransportArray? ==> r.value == outcome.body.transports.records
    ensures r.Some? && outcome.body.transports.NoTransports? ==> r.value == []
  {
    match outcome
    case RequestFailed => None
    case Received(NullBody) => None
    case Received(ObjectBody(NoTransports)) => Some([])
    case Received(ObjectBody(TransportArray(ts))) => Some(ts)
    case Received(ObjectBody(NonArrayValue)) => None
  }

  /** The page after one run of refreshData. */
  function RefreshView(v: View, hasMap: bool, zoom: real, heat: HeatmapOutcome, tr: TransportsOutcome): View {
    if !hasMap then v
    else
      var layer := HeatmapAfter(v.heatmapData, heat);
      if zoom < SidebarZoomThreshold then View(layer, "---", ZoomPlaceholder)
      else
        match TransportsOrFailure(tr)
        case None => View(layer, v.feedCount, LoadError)
        case Some(ts) =>
          var panel := CompanyGrouping.RenderCompanies(CompanyGrouping.Grouped(ts));
          View(layer, panel.countLabel, Companies(panel.list))
  }

  /** Below the threshold the sidebar shows the placeholder whatever the
      transport endpoint would have said. At or above it, a response the
      handler can read (an array, or no `transports` at all) shows the
      cards of its grouped companies with their number; a failed request,
      a `null` body or a truthy non-array `transports` shows the error
      state and leaves the count text alone. */
  lemma RefreshViewSidebar(v: View, zoom: real, heat: HeatmapOutcome, tr: TransportsOutcome)
    ensures zoom < SidebarZoomThreshold ==>
      RefreshView(v, true, zoom, heat, tr).sidebar == ZoomPlaceholder &&
      RefreshView(v, true, zoom, heat, tr).feedCount == "---"
    ensures zoom >= SidebarZoomThreshold && TransportsOrFailure(tr).Some? ==>
      var ts := TransportsOrFailure(tr).value;
      var companies := CompanyGrouping.Grouped(ts);
      && RefreshView(v, true, zoom, heat, tr).sidebar == Companies(CompanyGrouping.RenderCompanies(companies).list)
      && RefreshView(v, true, zoom, heat, tr).feedCount == NatToString(|companies|) + " companii"
      && (RefreshView(v, true, zoom, heat, tr).sidebar == Companies(CompanyGrouping.NoActiveCompanies) <==> ts == [])
    ensures zoom >= SidebarZoomThreshold && TransportsOrFailure(tr).None? ==>
      RefreshView(v, true, zoom, heat, tr).sidebar == LoadError &&
      RefreshView(v, true, zoom, heat, tr).feedCount == v.feedCount
  {
    if zoom >= SidebarZoomThreshold && TransportsOrFailure(tr).Some? {
      CompanyGrouping.GroupedCountsSum(TransportsOrFailure(tr).value);
    }
  }

  // ---- the debounce timer ----

  /** `debounceTimer` and the browser's table of timers still to fire. */
  datatype TimerState = TimerState(debounceTimer: Option<nat>, pending: set<nat>, nextId: nat)

  /** Only the timer `debounceTimer` names can still be pending, and ids
      not yet handed out are larger than it. */
  ghost predicate TimersValid(s: TimerState) {
    && (forall id :: id in s.pending ==> s.debounceTimer == Some(id))
    && (s.debounceTimer.Some? ==> s.debounceTimer.value < s.nextId)
  }

  /** The `moveend` handler: clear the timer if there is one, schedule a new one. */
  function MoveEnd(s: TimerState): (r: TimerState)
    ensures r.debounceTimer == Some(s.nextId) && r.nextId == s.nextId + 1
    ensures TimersValid(s) ==> TimersValid(r) && r.pending == {s.nextId}
    ensures TimersValid(s) && s.debounceTimer.Some? ==> s.debounceTimer.value !in r.pending
  {
    var cleared := if s.debounceTimer.Some? then s.pending - {s.debounceTimer.value} else s.pending;
    TimerState(Some(s.nextId), cleared + {s.nextId}, s.nextId + 1)
  }

  datatype Fired = Fired(state: TimerState, refreshes: bool)

  /** The browser runs timer id: its callback calls refreshData, unless the
      timer was cleared (or has already run), in which case nothing happens. */
  function Fire(s: TimerState, id: nat): (f: Fired)
    ensures f.refreshes <==> id in s.pending
    ensures f.state == s.(pending := s.pending - {id})
    ensures TimersValid(s) ==> TimersValid(f.state)
  {
    Fired(s.(pending := s.pending - {id}), id in s.pending)
  }

  datatype TimerEvent = MoveEndEvent | TimerFires(id: nat)

  datatype RunResult = RunResult(state: TimerState, refreshes: nat)

  /** Plays a sequence of events and counts the refreshes they cause. */
  function Run(s: TimerState, events: seq<TimerEvent>): RunResult {
    if events == [] then RunResult(s, 0)
    else
      var r := Run(s, events[..|events| - 1]);
      match events[|events| - 1]
      case MoveEndEvent => RunResult(MoveEnd(r.state), r.refreshes)
      case TimerFires(id) =>
        var f := Fire(r.state, id);
        RunResult(f.state, r.refreshes + if f.refreshes then 1 else 0)
  }

  function Burst(k: nat): (evs: seq<TimerEvent>)
    ensures |evs| == k && forall i :: 0 <= i < k ==> evs[i] == MoveEndEvent
  {
    seq(k, i => MoveEndEvent)
  }

  function Fires(ids: seq<nat>): (evs: seq<TimerEvent>)
    ensures |evs| == |ids| && forall i :: 0 <= i < |ids| ==> evs[i] == TimerFires(ids[i])
  {
    seq(|ids|, i requires 0 <= i < |ids| => TimerFires(ids[i]))
  }

  /** At most one refresh is ever waiting. */
  lemma AtMostOnePending(s: TimerState)
    requires TimersValid(s)
    ensures |s.pending| <= 1
  {
    if s.debounceTimer.Some? {
      var t := s.debounceTimer.value;
      assert s.pending == if t in s.pending then {t} else {};
    } else {
      assert s.pending == {};
    }
  }

  /** A burst of k moveend events refreshes nothing and leaves exactly one
      timer pending, the one scheduled last. */
  lemma {:induction false} BurstLeavesOneTimer(s: TimerState, k: nat)
    requires TimersValid(s) && k >= 1
    ensures Run(s, Burst(k)).refreshes == 0
    ensures Run(s, Burst(k)).state.pending == {s.nextId + k - 1}
    ensures Run(s, Burst(k)).state.debounceTimer == Some(s.nextId + k - 1)
    ensures Run(s, Burst(k)).state.nextId == s.nextId + k
  {
    assert Burst(k)[..k - 1] == Burst(k - 1);
    if k > 1 {
      BurstLeavesOneTimer(s, k - 1);
    }
  }

  /** Once a single timer t is pending, any sequence of timer callbacks
      refreshes once if t is among them and never otherwise. */
  lemma {:induction false} FiresFromOne(st: TimerState, t: nat, ids: seq<nat>)
    requires st.pending == {t}
    ensures Run(st, Fires(ids)).refreshes == if t in ids then 1 else 0
    ensures Run(st, Fires(ids)).state.pending == if t in ids then {} else {t}
  {
    if ids != [] {
      var init := ids[..|ids| - 1];
      assert Fires(ids)[..|ids| - 1] == Fires(init);
      FiresFromOne(st, t, init);
      assert ids == init + [ids[|ids| - 1]];
    }
  }

  lemma {:induction false} RunAppend(s: TimerState, a: seq<TimerEvent>, b: seq<TimerEvent>)
    ensures Run(s, a + b).state == Run(Run(s, a).state, b).state
    ensures Run(s, a + b).refreshes == Run(s, a).refreshes + Run(Run(s, a).state, b).refreshes
  {
    if b == [] {
      assert a + b == a;
    } else {
      var init := b[..|b| - 1];
      RunAppend(s, a, init);
      assert (a + b)[..|a + b| - 1] == a + init;
      assert (a + b)[|a + b| - 1] == b[|b| - 1];
    }
  }

  /** The debounce property: a burst of moveend events followed by the
      timer callbacks the browser runs produces exactly one refresh when the
      last scheduled timer fires, and none when it does not. */
  lemma BurstThenFire(s: TimerState, k: nat, ids: seq<nat>)
    requires TimersValid(s) && k >= 1
    ensures Run(s, Burst(k) + Fires(ids)).refreshes == if s.nextId + k - 1 in ids then 1 else 0
  {
    BurstLeavesOneTimer(s, k);
    RunAppend(s, Burst(k), Fires(ids));
    FiresFromOne(Run(s, Burst(k)).state, s.nextId + k - 1, ids);
  }

  // ---- the module state of the map page ----

  class Dashboard {
    /** `map !== null` */
    var hasMap: bool
    /** `map.getZoom()` */
    var zoom: real
    var debounceTimer: Option<nat>
    var pendingTimers: set<nat>
    var nextTimerId: nat
    /** The fetches and placeholder renders so far, in order. */
    var actions: seq<Action>
    var heatmapData: Option<seq<HeatFeature>>
    var feedCount: string
    var sidebar: Sidebar

    function Timers(): TimerState
      reads this
    {
      TimerState(debounceTimer, pendingTimers, nextTimerId)
    }

    function CurrentView(): View
      reads this
    {
      View(heatmapData, feedCount, sidebar)
    }

    ghost predicate Valid()
      reads this
    {
      TimersValid(Timers())
    }

    /** The page before DOMContentLoaded: no map, no timer. Browser timer
        ids start at 1. */
    constructor ()
      ensures Valid()
      ensures !hasMap && debounceTimer.None? && pendingTimers == {} && actions == []
      ensures CurrentView() == View(None, "", SidebarInitial)
    {
      hasMap, zoom := false, 0.0;
      debounceTimer, pendingTimers, nextTimerId := None, {}, 1;
      actions := [];
      heatmapData, feedCount, sidebar := None, "", SidebarInitial;
    }

    /** initMap: the map exists from now on, at zoom 7. */
    method InitMap()
      modifies this
      ensures hasMap && zoom == InitialZoom
      ensures Timers() == old(Timers()) && actions == old(actions) && CurrentView() == old(CurrentView())
    {
      hasMap, zoom := true, InitialZoom;
    }

    /** refreshData */
    method Refresh(heat: HeatmapOutcome, tr: TransportsOutcome)
      modifies this
      ensures actions == old(actions) + RefreshActions(hasMap, zoom)
      ensures CurrentView() == RefreshView(old(CurrentView()), hasMap, zoom, heat, tr)
      ensures hasMap == old(hasMap) && zoom == old(zoom) && Timers() == old(Timers())
    {
      if !hasMap {
        return;
      }
      actions := actions + [FetchHeatmap(zoom.Floor)];
      if heat.HeatmapBody? && heat.features.Some? {
        heatmapData := heat.features;
      }
      if zoom >= SidebarZoomThreshold {
        actions := actions + [FetchTransports];
        var records := TransportsOrFailure(tr);
        if records.None? {
          sidebar := LoadError;
        } else {
          var companies := CompanyGrouping.GroupTransportsByCompany(records.value);
          var panel := CompanyGrouping.RenderCompanies(companies);
          feedCount := panel.countLabel;
          sidebar := Companies(panel.list);
        }
      } else {
        actions := actions + [ShowZoomPlaceholder];
        feedCount := "---";
        sidebar := ZoomPlaceholder;
      }
    }

    /** The `load` handler. */
    method OnLoad(heat: HeatmapOutcome, tr: TransportsOutcome)
      modifies this
      ensures actions == old(actions) + RefreshActions(hasMap, zoom)
      ensures CurrentView() == RefreshView(old(CurrentView()), hasMap, zoom, heat, tr)
      ensures hasMap == old(hasMap) && zoom == old(zoom) && Timers() == old(Timers())
    {
      Refresh(heat, tr);
    }

    /** The `moveend` handler, after the map has settled at newZoom. */
    method OnMoveEnd(newZoom: real)
      requires Valid()
      modifies this
      ensures Valid()
      ensures Timers() == MoveEnd(old(Timers()))
      ensures pendingTimers == {debounceTimer.value}
      ensures zoom == newZoom && hasMap == old(hasMap)
      ensures actions == old(actions) && CurrentView() == old(CurrentView())
    {
      zoom := newZoom;
      if debounceTimer.Some? {
        pendingTimers := pendingTimers - {debounceTimer.value};
      }
      debounceTimer := Some(nextTimerId);
      pendingTimers := pendingTimers + {nextTimerId};
      nextTimerId := nextTimerId + 1;
    }

    /** The browser runs the callback of timer id. */
    method OnTimer(id: nat, heat: HeatmapOutcome, tr: TransportsOutcome)
      requires Valid()
      modifies this
      ensures Valid()
      ensures Timers() == Fire(old(Timers()), id).state
      ensures hasMap == old(hasMap) && zoom == old(zoom)
      ensures if id in old(pendingTimers) then
          actions == old(actions) + RefreshActions(hasMap, zoom) &&
          CurrentView() == RefreshView(old(CurrentView()), hasMap, zoom, heat, tr)
        else actions == old(actions) && CurrentView() == old(CurrentView())
    {
      if id in pendingTimers {
        pendingTimers := pendingTimers - {id};
        Refresh(heat, tr);
      }
    }
  }
}
