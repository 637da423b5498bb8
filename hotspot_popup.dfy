/**
 * The hotspot popup of the introduction page (`showHotspotPopup`): the
 * `operators` property is normalised to a list, sorted in place by
 * effective count `count || point_count || 0`, cut to its first three
 * entries, and each entry is shown with a name and a count fallback.
 */
module HotspotPopup {
  import opened JsValues
  import StableSort

  datatype Operator = Operator(
    name: Option<string>,
    operatorName: Option<string>,
    count: Option<int>,
    pointCount: Option<int>)

  /** `properties.operators`: JSON text, an array, or anything else
      (missing, `null`, a number, an object). */
  datatype OperatorsField =
    | OperatorsText(text: string)
    | OperatorsArray(items: seq<Operator>)
    | OperatorsOther

  /** What `JSON.parse` makes of a text: it throws, it yields an array, or
      it yields some other value. */
  datatype Parsed = ParseError | ParsedArray(items: seq<Operator>) | ParsedOther

  /** The feature properties the popup reads. */
  datatype HotspotProperties = HotspotProperties(pointCount: Option<int>, operators: OperatorsField)

  /** `operatorsArray`, or None when the next line throws because the
      parsed value has no `sort` (parse failures themselves are caught). */
  function NormalizeOperators(f: OperatorsField, parse: string -> Parsed): (r: Option<seq<Operator>>)
    ensures r.None? <==> f.OperatorsText? && parse(f.text).ParsedOther?
    ensures f.OperatorsArray? ==> r == Some(f.items)
    ensures f.OperatorsOther? ==> r == Some([])
    ensures f.OperatorsText? && parse(f.text).ParseError? ==> r == Some([])
    ensures f.OperatorsText? && parse(f.text).ParsedArray? ==> r == Some(parse(f.text).items)
    ensures r.Some? && r.value != [] ==>
      (f.OperatorsArray? && r.value == f.items) ||
      (f.OperatorsText? && parse(f.text) == ParsedArray(r.value))
  {
    match f
    case OperatorsText(text) =>
      (match parse(text)
       case ParseError => Some([])
       case ParsedArray(items) => Some(items)
       case ParsedOther => None)
    case OperatorsArray(items) => Some(items)
    case OperatorsOther => Some([])
  }

  /** `count || point_count || 0` */
  function EffectiveCount(o: Operator): int {
    IntOr(o.count, IntOr(o.pointCount, 0))
  }

  function Min(a: int, b: int): int {
    if a <= b then a else b
  }

  /** `operatorsArray.sort(byEffectiveCountDesc).slice(0, 3)` */
  function TopOperators(ops: seq<Operator>): seq<Operator> {
    StableSort.SortDescPermutes(ops, EffectiveCount);
    StableSort.SortDesc(ops, EffectiveCount)[..Min(3, |ops|)]
  }

  /** The in-place sort of the popup: it reorders the caller's array (the
      feature's own `operators` when that was already an array) and
      returns its first three entries. */
  method SelectTopOperators(operators: array<Operator>) returns (top: seq<Operator>)
    modifies operators
    ensures operators[..] == StableSort.SortDesc(old(operators[..]), EffectiveCount)
    ensures top == TopOperators(old(operators[..]))
  {
    StableSort.InsertionSortDesc(operators, EffectiveCount);
    StableSort.SortDescPermutes(old(operators[..]), EffectiveCount);
    top := operators[..Min(3, operators.Length)];
  }

  /** The selection has min(3, n) entries, non-increasing in effective
      count, and is the front of the stable descending sort. */
  lemma TopOperatorsSelection(ops: seq<Operator>)
    ensures |TopOperators(ops)| == Min(3, |ops|)
    ensures forall i, j :: 0 <= i < j < |TopOperators(ops)| ==>
      EffectiveCount(TopOperators(ops)[i]) >= EffectiveCount(TopOperators(ops)[j])
    ensures TopOperators(ops) <= StableSort.SortDesc(ops, EffectiveCount)
  {
    StableSort.SortDescPermutes(ops, EffectiveCount);
    var sorted := StableSort.SortDesc(ops, EffectiveCount);
    var top := TopOperators(ops);
    forall i, j | 0 <= i < j < |top|
      ensures EffectiveCount(top[i]) >= EffectiveCount(top[j])
    {
      assert top[i] == sorted[i] && top[j] == sorted[j];
    }
  }

  /** The selection is drawn from the operators, and no operator left out
      has a larger effective count than one that is kept. */
  lemma TopOperatorsDominate(ops: seq<Operator>)
    ensures multiset(TopOperators(ops)) <= multiset(ops)
    ensures forall o, t :: o in multiset(ops) - multiset(TopOperators(ops)) && t in TopOperators(ops) ==>
      EffectiveCount(o) <= EffectiveCount(t)
  {
    var sorted := StableSort.SortDesc(ops, EffectiveCount);
    StableSort.SortDescPermutes(ops, EffectiveCount);
    assert TopOperators(ops) == sorted[..Min(3, |ops|)];
    StableSort.SortedPrefixDominates(sorted, ops, Min(3, |ops|), EffectiveCount);
  }

  /** Operators with equal effective counts are kept in their input order. */
  lemma TopOperatorsKeepTies(ops: seq<Operator>, i: nat, j: nat)
    requires i < j < |TopOperators(ops)|
    requires EffectiveCount(TopOperators(ops)[i]) == EffectiveCount(TopOperators(ops)[j])
    ensures StableSort.Before(ops, TopOperators(ops)[i], TopOperators(ops)[j])
  {
    var sorted := StableSort.SortDesc(ops, EffectiveCount);
    StableSort.SortDescPermutes(ops, EffectiveCount);
    assert sorted[i] == TopOperators(ops)[i] && sorted[j] == TopOperators(ops)[j];
    StableSort.SortDescKeepsTieOrder(ops, sorted[i], sorted[j], EffectiveCount);
  }

  // ---- the popup view-model ----

  /** Shown instead of the list when no operator was selected. */
  const NoOperatorMessage := "No operator data available"

  datatype OperatorItem = OperatorItem(name: string, count: int)

  datatype OperatorList = NoOperatorData | OperatorItems(items: seq<OperatorItem>) {
    /** The message shown in place of the rows, if any. */
    function Message(): Option<string> {
      if NoOperatorData? then Some(NoOperatorMessage) else None
    }
  }

  /** "<pointCount> points detected" and the operators section. */
  datatype PopupView = PopupView(pointCount: int, operators: OperatorList)

  /** `name || operator_name || 'Unknown'` and `count || point_count || 0` */
  function ItemOf(o: Operator): OperatorItem {
    OperatorItem(StrOr(o.name, StrOr(o.operatorName, "Unknown")), EffectiveCount(o))
  }

  function Popup(props: HotspotProperties, parse: string -> Parsed): Option<PopupView> {
    match NormalizeOperators(props.operators, parse)
    case None => None
    case Some(ops) =>
      var top := TopOperators(ops);
      Some(PopupView(
        IntOr(props.pointCount, 0),
        if |top| > 0 then OperatorItems(seq(|top|, i requires 0 <= i < |top| => ItemOf(top[i])))
        else NoOperatorData))
  }

  /** The popup opens unless the operators text parses to a non-array; it
      shows `point_count || 0`, the message when there is no operator, and
      otherwise up to three rows, largest count first, each with the name
      fallback 'Unknown' and the count fallback 0. */
  lemma PopupContents(props: HotspotProperties, parse: string -> Parsed)
    ensures Popup(props, parse).None? <==> NormalizeOperators(props.operators, parse).None?
    ensures Popup(props, parse).Some? ==>
      var view := Popup(props, parse).value;
      var ops := NormalizeOperators(props.operators, parse).value;
      && view.pointCount == IntOr(props.pointCount, 0)
      && (view.operators.NoOperatorData? <==> ops == [])
      && (view.operators.OperatorItems? ==>
            && 1 <= |view.operators.items| == Min(3, |ops|)
            && (forall i, j :: 0 <= i < j < |view.operators.items| ==>
                  view.operators.items[i].count >= view.operators.items[j].count)
            && (forall i :: 0 <= i < |view.operators.items| ==>
                  view.operators.items[i] == ItemOf(TopOperators(ops)[i])))
  {
    var r := NormalizeOperators(props.operators, parse);
    if r.Some? {
      TopOperatorsSelection(r.value);
    }
  }

  /** The fallbacks of one row: a missing or empty name falls back to
      `operator_name` and then to 'Unknown'; a missing or zero count falls
      back to `point_count` and then to 0. */
  lemma ItemFallbacks(o: Operator)
    ensures StrOr(o.name, "") != "" ==> ItemOf(o).name == o.name.value
    ensures StrOr(o.name, "") == "" ==> ItemOf(o).name == StrOr(o.operatorName, "Unknown")
    ensures IntOr(o.count, 0) != 0 ==> ItemOf(o).count == o.count.value
    ensures IntOr(o.count, 0) == 0 ==> ItemOf(o).count == IntOr(o.pointCount, 0)
  {
  }
}
