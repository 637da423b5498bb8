/**
 * The transport feed of the introduction page: `fetchTransports` stores
 * the response's `transports` array in the module-level `transportsData`
 * (an empty list for any other body), and `renderTransports` turns each
 * record into a card with a role badge, a shortened id and a time.
 */
module TransportFeed {
  import opened JsValues
  import opened ApiData

  /** `(data && data.transports && Array.isArray(data.transports)) ? data.transports : []` */
  function TransportsOrEmpty(body: TransportsBody): (r: seq<TransportRecord>)
    ensures body.ObjectBody? && body.transports.TransportArray? ==> r == body.transports.records
    ensures !(body.ObjectBody? && body.transports.TransportArray?) ==> r == []
  {
    if body.ObjectBody? && body.transports.TransportArray? then body.transports.records else []
  }

  // ---- one card ----

  /** The badge of a card: its CSS class and its text. */
  datatype RoleBadge = EmitentBadge | DestinatarBadge {
    function CssClass(): string {
      if EmitentBadge? then "emitent" else "destinatar"
    }
    function Text(): string {
      if EmitentBadge? then "Emitent" else "Destinatar"
    }
  }

  /** `(transport.role || 'unknown').toLowerCase() === 'emitent'` picks the
      Emitent badge; every other role, a missing one included, is shown as
      Destinatar. */
  function ClassifyRole(role: Option<string>): (b: RoleBadge)
    ensures b == EmitentBadge <==> AsciiLower(StrOr(role, "unknown")) == "emitent"
    ensures b.CssClass() == AsciiLower(b.Text())
  {
    assert AsciiLower("Emitent") == "emitent";
    assert AsciiLower("Destinatar") == "destinatar";
    if AsciiLower(StrOr(role, "unknown")) == "emitent" then EmitentBadge else DestinatarBadge
  }

  /** A record without a role, and one whose role is "receptor", are both
      shown as Destinatar; any casing of "emitent" is shown as Emitent. */
  lemma ClassifyRoleExamples()
    ensures ClassifyRole(None) == DestinatarBadge
    ensures ClassifyRole(Some("")) == DestinatarBadge
    ensures ClassifyRole(Some("receptor")) == DestinatarBadge
    ensures ClassifyRole(Some("EMITENT")) == EmitentBadge
    ensures ClassifyRole(Some("Emitent")) == EmitentBadge
  {
    assert AsciiLower("unknown")[0] == 'u';
    assert AsciiLower("receptor")[0] == 'r';
    assert AsciiLower("EMITENT") == "emitent";
    assert AsciiLower("Emitent") == "emitent";
  }

  const MissingId := "N/A"

  /** `#${transportId.slice(0, 8)}...` with `transport_id || 'N/A'` */
  function IdDisplay(id: Option<string>): (s: string)
    ensures 4 <= |s| <= 12
    ensures s[0] == '#' && s[|s| - 3..] == "..."
    ensures s[1..|s| - 3] <= StrOr(id, MissingId)
    ensures |s| - 4 == if |StrOr(id, MissingId)| < 8 then |StrOr(id, MissingId)| else 8
  {
    var full := StrOr(id, MissingId);
    var shown := if |full| < 8 then full else full[..8];
    var s := "#" + shown + "...";
    assert s[1..|s| - 3] == shown;
    s
  }

  /** A missing (or empty) id is shown as "#N/A...". */
  lemma IdDisplayMissing()
    ensures IdDisplay(None) == "#N/A..."
    ensures IdDisplay(Some("")) == "#N/A..."
    ensures IdDisplay(Some("0123456789")) == "#01234567..."
  {
    assert "0123456789"[..8] == "01234567";
  }

  /** The time column: 'N/A' without a timestamp, otherwise the timestamp
      in the browser's local hour:minute format. */
  datatype TimeDisplay = TimeUnavailable | LocalTime(timestamp: string)

  /** `first_position.timestamp || null`, then `if (timestamp)` */
  function TimeOf(timestamp: Option<string>): (t: TimeDisplay)
    ensures t.TimeUnavailable? <==> StrOr(timestamp, "") == ""
    ensures t.LocalTime? ==> t.timestamp == timestamp.value
  {
    if StrOr(timestamp, "") != "" then LocalTime(timestamp.value) else TimeUnavailable
  }

  datatype TransportCard = TransportCard(company: string, badge: RoleBadge, id: string, time: TimeDisplay)

  function CardOf(t: TransportRecord): TransportCard {
    TransportCard(StrOr(t.companyName, "Unknown"), ClassifyRole(t.role), IdDisplay(t.transportId), TimeOf(t.firstTimestamp))
  }

  // ---- the feed ----

  /** `${n} transport${n !== 1 ? 's' : ''}` */
  function FeedLabel(n: nat): (s: string)
    ensures s == "1 transport" <==> n == 1
    ensures |NatToString(n)| < |s| && s[..|NatToString(n)|] == NatToString(n)
    ensures (s[|s| - 1] == 's') <==> n != 1
    ensures n == 1 ==> s == NatToString(n) + " transport"
    ensures n != 1 ==> s == NatToString(n) + " transports"
  {
    var digits := NatToString(n);
    var s := digits + (if n == 1 then " transport" else " transports");
    assert s[..|digits|] == digits;
    s
  }

  datatype FeedList = NoTransportsInArea | TransportCards(cards: seq<TransportCard>)

  datatype FeedView = FeedView(feedCount: string, list: FeedList)

  /** renderTransports: the count text, then the empty-area message or one
      card per record, in order. */
  function RenderTransports(transports: seq<TransportRecord>): (v: FeedView)
    ensures v.feedCount == FeedLabel(|transports|)
    ensures v.list.NoTransportsInArea? <==> transports == []
    ensures v.list.TransportCards? ==>
      |v.list.cards| == |transports| &&
      forall i :: 0 <= i < |transports| ==> v.list.cards[i] == CardOf(transports[i])
  {
    var countText := FeedLabel(|transports|);
    if |transports| == 0 then FeedView(countText, NoTransportsInArea)
    else FeedView(countText, TransportCards(seq(|transports|, i requires 0 <= i < |transports| => CardOf(transports[i]))))
  }

  // ---- the module state ----

  datatype ListState = ListInitial | Loading | LoadFailed | Rendered(list: FeedList)

  /** The module-level `transportsData` and the two DOM elements it feeds. */
  class Feed {
    var transportsData: seq<TransportRecord>
    var feedCount: string
    var listState: ListState

    constructor ()
      ensures transportsData == [] && feedCount == "" && listState == ListInitial
    {
      transportsData, feedCount, listState := [], "", ListInitial;
    }

    /** fetchTransports: without a map (no bbox) nothing happens; a failed
        request shows the error state and keeps the old data and count;
        otherwise the data is replaced and rendered. */
    method FetchTransports(hasMap: bool, outcome: TransportsOutcome)
      modifies this
      ensures !hasMap ==> transportsData == old(transportsData) && feedCount == old(feedCount) && listState == old(listState)
      ensures hasMap && outcome.RequestFailed? ==>
        transportsData == old(transportsData) && feedCount == old(feedCount) && listState == LoadFailed
      ensures hasMap && outcome.Received? ==>
        && transportsData == TransportsOrEmpty(outcome.body)
        && feedCount == RenderTransports(transportsData).feedCount
        && listState == Rendered(RenderTransports(transportsData).list)
    {
      if !hasMap {
        return;
      }
      listState := Loading;
      match outcome
      case RequestFailed =>
        listState := LoadFailed;
      case Received(body) =>
        transportsData := TransportsOrEmpty(body);
        RenderFeed();
    }

    /** renderTransports, reading `transportsData`. */
    method RenderFeed()
      modifies this
      ensures transportsData == old(transportsData)
      ensures feedCount == RenderTransports(transportsData).feedCount
      ensures listState == Rendered(RenderTransports(transportsData).list)
    {
      var view := RenderTransports(transportsData);
      feedCount := view.feedCount;
      listState := Rendered(view.list);
    }
  }
}
