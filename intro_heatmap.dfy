/**
 * The heatmap of the introduction page: `fetchHeatmapData` passes a body
 * whose `features` is an array to `updateHeatmapLayer`, which creates the
 * map source on its first call and is meant to replace its data on every
 * later one.
 *
 * As written, the first call stores the plain options object
 * `{type: 'geojson', data}` in `heatmapSource`, and later calls invoke
 * `heatmapSource.setData(...)` on that object. It has no `setData`, so the
 * call throws; `fetchHeatmapData` catches the error, and the map keeps the
 * data of the first load. UpdateAsWritten models that behaviour; Update
 * is the intended one (the source the map holds takes the new data), which
 * is what the map page does and what the class below uses.
 */
module IntroHeatmap {
  import opened JsValues
  import opened ApiData
  import RefreshControl

  /** `heatmapSource` (set once the source was created) and the data the
      map's heatmap source displays (None before it exists). */
  datatype LayerState = LayerState(heatmapSource: bool, shown: Option<seq<HeatFeature>>)

  const NoLayer := LayerState(false, None)

  /** `data && data.features && Array.isArray(data.features)`: the features
      handed to updateHeatmapLayer, or None when the handler stops. */
  function FeaturesOf(heat: HeatmapOutcome): (r: Option<seq<HeatFeature>>)
    ensures r.Some? <==> heat.HeatmapBody? && heat.features.Some?
    ensures r.Some? ==> r == heat.features
  {
    if heat.HeatmapBody? then heat.features else None
  }

  /** updateHeatmapLayer as written: a second call throws inside the
      handler's `try`, so everything after the first call is lost. */
  function UpdateAsWritten(s: LayerState, data: seq<HeatFeature>): (r: LayerState)
    ensures r.heatmapSource
    ensures !s.heatmapSource ==> r.shown == Some(data)
    ensures s.heatmapSource ==> r == s
  {
    if s.heatmapSource then s else LayerState(true, Some(data))
  }

  /** updateHeatmapLayer as intended: the source exists afterwards and
      shows the new data. */
  function Update(s: LayerState, data: seq<HeatFeature>): (r: LayerState)
    ensures r.heatmapSource && r.shown == Some(data)
  {
    LayerState(true, Some(data))
  }

  /** fetchHeatmapData with the written update: without a map (no bbox)
      or without an array of features nothing changes. */
  function FetchAsWritten(s: LayerState, hasMap: bool, heat: HeatmapOutcome): LayerState {
    if !hasMap || FeaturesOf(heat).None? then s else UpdateAsWritten(s, FeaturesOf(heat).value)
  }

  /** fetchHeatmapData with the intended update. */
  function Fetch(s: LayerState, hasMap: bool, heat: HeatmapOutcome): (r: LayerState)
    ensures !hasMap ==> r == s
    ensures hasMap && FeaturesOf(heat).None? ==> r == s
    ensures hasMap && FeaturesOf(heat).Some? ==> r.heatmapSource && r.shown == FeaturesOf(heat)
  {
    if !hasMap || FeaturesOf(heat).None? then s else Update(s, FeaturesOf(heat).value)
  }

  /** With the intended update, the page's heatmap follows the map page's
      rule: it changes only on a body with features and then shows them. */
  lemma FetchMatchesMapPage(s: LayerState, heat: HeatmapOutcome)
    ensures Fetch(s, true, heat).shown == RefreshControl.HeatmapAfter(s.shown, heat)
  {
  }

  /** A sequence of heatmap responses, each handled once the map exists. */
  function RunAsWritten(s: LayerState, heats: seq<HeatmapOutcome>): LayerState
    decreases |heats|
  {
    if heats == [] then s else RunAsWritten(FetchAsWritten(s, true, heats[0]), heats[1..])
  }

  function Run(s: LayerState, heats: seq<HeatmapOutcome>): LayerState
    decreases |heats|
  {
    if heats == [] then s else Run(Fetch(s, true, heats[0]), heats[1..])
  }

  /** The features of the first response that has any. */
  function FirstFeatures(heats: seq<HeatmapOutcome>): Option<seq<HeatFeature>>
    decreases |heats|
  {
    if heats == [] then None
    else if FeaturesOf(heats[0]).Some? then FeaturesOf(heats[0])
    else FirstFeatures(heats[1..])
  }

  /** The features of the last response that has any. */
  function LastFeatures(heats: seq<HeatmapOutcome>): Option<seq<HeatFeature>>
    decreases |heats|
  {
    if heats == [] then None
    else
      var later := LastFeatures(heats[1..]);
      if later.Some? then later else FeaturesOf(heats[0])
  }

  /** As written, once the source exists no response changes the page. */
  lemma {:induction false} AsWrittenFrozen(s: LayerState, heats: seq<HeatmapOutcome>)
    requires s.heatmapSource
    ensures RunAsWritten(s, heats) == s
    decreases |heats|
  {
    if heats != [] {
      assert FetchAsWritten(s, true, heats[0]) == s;
      AsWrittenFrozen(s, heats[1..]);
    }
  }

  /** As written, the page shows the first features it ever received. */
  lemma {:induction false} AsWrittenKeepsFirst(heats: seq<HeatmapOutcome>)
    ensures RunAsWritten(NoLayer, heats).shown == FirstFeatures(heats)
    decreases |heats|
  {
    if heats != [] {
      var next := FetchAsWritten(NoLayer, true, heats[0]);
      if FeaturesOf(heats[0]).Some? {
        AsWrittenFrozen(next, heats[1..]);
      } else {
        assert next == NoLayer;
        AsWrittenKeepsFirst(heats[1..]);
      }
    }
  }

  /** As intended, the page shows the latest features received, or what it
      showed before when no response had any. */
  lemma {:induction false} RunShowsLatest(s: LayerState, heats: seq<HeatmapOutcome>)
    ensures Run(s, heats).shown == if LastFeatures(heats).Some? then LastFeatures(heats) else s.shown
    decreases |heats|
  {
    if heats != [] {
      RunShowsLatest(Fetch(s, true, heats[0]), heats[1..]);
    }
  }

  /** Two loads with different features: as written the page still shows
      the first, as intended it shows the second. */
  lemma StaleHeatmapExample()
    ensures
      var d1 := [HeatFeature(26.0, 45.0, 1.0)];
      var d2 := [HeatFeature(24.0, 46.0, 5.0)];
      var heats := [HeatmapBody(Some(d1)), HeatmapBody(Some(d2))];
      && RunAsWritten(NoLayer, heats).shown == Some(d1)
      && Run(NoLayer, heats).shown == Some(d2)
      && d1 != d2
  {
    var d1 := [HeatFeature(26.0, 45.0, 1.0)];
    var d2 := [HeatFeature(24.0, 46.0, 5.0)];
    var heats := [HeatmapBody(Some(d1)), HeatmapBody(Some(d2))];
    AsWrittenKeepsFirst(heats);
    RunShowsLatest(NoLayer, heats);
    assert heats[1..] == [HeatmapBody(Some(d2))];
    assert heats[1..][1..] == [];
    assert LastFeatures(heats[1..]) == Some(d2);
    assert LastFeatures(heats) == Some(d2);
  }

  /** The page's module-level `heatmapSource` and the data on the map. */
  class IntroMap {
    var heatmapSource: bool
    var shown: Option<seq<HeatFeature>>

    constructor ()
      ensures !heatmapSource && shown.None?
    {
      heatmapSource, shown := false, None;
    }

    /** fetchHeatmapData followed by the intended updateHeatmapLayer. */
    method FetchHeatmapData(hasMap: bool, heat: HeatmapOutcome)
      modifies this
      ensures LayerState(heatmapSource, shown) == Fetch(old(LayerState(heatmapSource, shown)), hasMap, heat)
    {
      if !hasMap {
        return;
      }
      match FeaturesOf(heat)
      case None =>
      case Some(data) =>
        heatmapSource, shown := true, Some(data);
    }
  }
}
