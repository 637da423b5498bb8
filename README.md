# Forest_Heatmap dashboards — a Dafny model

Forest_Heatmap shows timber transports on two web pages. Each page has its own
script.

- **Harta** is the map page. Its script keeps a MapLibre map with a heatmap
  layer. When the zoom is 9 or more, a sidebar lists the companies active in
  the visible area. The transports the API returns are grouped by company name,
  counted, and sorted by volume. Each company card shows an EMITENT and/or
  DESTINATAR badge and a border colour that tells the two roles apart. Below
  zoom 9 the sidebar shows a "zoom in" placeholder. Moving the map schedules a
  refresh through one debounce timer, so a burst of `moveend` events yields one
  refresh.
- **Introducere** is the introduction page. Its script keeps the last transport
  response in `transportsData` and renders one card per transport. A card has
  a role badge, a shortened id and a time. Clicking a hotspot opens a popup
  with the three busiest operators of that hotspot.

This project models the logic of both scripts in Dafny and proves what they
promise. Each page's own rules are kept, including where the two disagree.

- A role that is neither emitent nor destinatar/receptor raises no flag on the
  map page. The introduction page shows it as Destinatar.
- A `null` body, or a truthy `transports` value that is not an array, sends
  the map page to its error state. The introduction page shows an empty feed
  for it. A falsy `transports` (`null`, `false`, `0`, `""`) becomes `[]` on
  both pages.

The modules:

- `JsValues`: JavaScript's `||` defaulting on strings and numbers (a missing
  value, `null`, `""` and `0` are falsy), ASCII `toLowerCase`, and the decimal
  text of a count.
- `StableSort`: the comparator sorts of both scripts, which sort by a numeric
  key in descending order. The reference is a stable insertion sort on
  sequences, with its properties proved. The in-place array method is proved
  equal to it. `Array.prototype.sort` is stable.
- `ApiData`: transport records, and the outcomes of the two requests as the
  scripts see them.
- `CompanyGrouping`: `groupTransportsByCompany` and the card model of
  `renderCompanies` on the map page.
- `RefreshControl`: the zoom branch of `refreshData`, the `moveend` debounce as
  a timer state machine, and the map page's module state as a class.
- `HotspotPopup`: operator normalisation, the in-place top-3 selection and the
  popup contents from `showHotspotPopup`.
- `TransportFeed`: `fetchTransports` defaulting, `renderTransports`, and the
  introduction page's module state as a class.
- `Variants`: the places where the two pages read the same data differently.
- `IntroHeatmap`: the introduction page's heatmap fetch and layer update, as
  written and as intended (see Findings).

Requests are not performed. Each fetch is one of the `…Outcome` values, passed
in as a parameter: a thrown error (network, a non-2xx status, a body that is not
JSON) or the decoded body. `JSON.parse` of the operators text is a function
parameter. Timer callbacks are events in a sequence.

## Model

| member | source | states |
|---|---|---|
| JsValues.StrOr | SEMIFINAL/SEMIFINAL/Harta/scripts/index.js:162-163 | `s || d` on a string: the default exactly when the value is missing or empty (or already equal to it), otherwise the value itself |
| JsValues.IntOr | SEMIFINAL/SEMIFINAL/Introducere/scripts/index.js:150 | `n || d` on a number: the default when the value is missing or 0, otherwise the value |
| JsValues.AsciiLower | SEMIFINAL/SEMIFINAL/Harta/scripts/index.js:163 | `toLowerCase` keeps the length and lower-cases each character in place: an ASCII capital becomes its small letter, every other character is left alone |
| JsValues.NatToString | SEMIFINAL/SEMIFINAL/Harta/scripts/index.js:190 | the decimal text of a count is non-empty, all digits, has no leading zero, and parses back to the count |
| StableSort.SortDesc | SEMIFINAL/SEMIFINAL/Harta/scripts/index.js:183 | the specification of the comparator sorts at Harta index.js:183 and Introducere index.js:164-165: a stable sort by key, largest first; SortDescPermutes and SortDescStable state it |
| StableSort.InsertionSortDesc | SEMIFINAL/SEMIFINAL/Harta/scripts/index.js:183 | the in-place sort leaves the array equal to the stable descending sort of its old contents |
| StableSort.InsertLast | SEMIFINAL/SEMIFINAL/Harta/scripts/index.js:183 | one insertion step: the sorted prefix grows by one element, placed after every key not smaller than its own; the rest of the array is untouched |
| StableSort.SortDescPermutes | SEMIFINAL/SEMIFINAL/Introducere/scripts/index.js:164-165 | the sorted sequence is a permutation of the input (same length and multiset) and is non-increasing in the key |
| StableSort.SortDescStable | SEMIFINAL/SEMIFINAL/Introducere/scripts/index.js:164-165 | for every key, the elements with that key appear in the same order as in the input |
| StableSort.SortDescKeepsTieOrder | SEMIFINAL/SEMIFINAL/Harta/scripts/index.js:183 | two elements with equal keys that are in sorted order were in that order in the input |
| StableSort.SortDescSum | SEMIFINAL/SEMIFINAL/Harta/scripts/index.js:183 | sorting keeps the sum of the keys |
| CompanyGrouping.EffectiveName | SEMIFINAL/SEMIFINAL/Harta/scripts/index.js:162 | `t.company_name || 'Necunoscut'`, the name a record is filed under; MissingCompanyName and GroupedCoversNames state it |
| CompanyGrouping.NormalizedRole | SEMIFINAL/SEMIFINAL/Harta/scripts/index.js:163 | `(t.role || '').toLowerCase()`; IsEmitentRole and IsDestinatarRole compare it, and EmitentInAnyCase and AsciiLower state it |
| CompanyGrouping.IsEmitentRole | SEMIFINAL/SEMIFINAL/Harta/scripts/index.js:163-178 | "emitent" after `(t.role || '').toLowerCase()`; EmitentInAnyCase and AggregateSnoc state it |
| CompanyGrouping.IsDestinatarRole | SEMIFINAL/SEMIFINAL/Harta/scripts/index.js:163-179 | "destinatar" or "receptor" after the same normalisation; ReceptorIsDestinatar and AggregateSnoc state it |
| CompanyGrouping.Grouped | SEMIFINAL/SEMIFINAL/Harta/scripts/index.js:158-184 | the specification of the grouping: the per-name aggregates in first-encounter order, stably sorted by count; the Grouped lemmas state its properties |
| CompanyGrouping.GroupTransportsByCompany | SEMIFINAL/SEMIFINAL/Harta/scripts/index.js:158-184 | the result equals Grouped: one aggregate per distinct effective name, in first-encounter order, stably sorted by count, largest first |
| CompanyGrouping.Tally | SEMIFINAL/SEMIFINAL/Harta/scripts/index.js:159-180 | after the forEach, the dictionary's keys in insertion order are the distinct names in first-encounter order, and each entry holds that company's count and role flags |
| CompanyGrouping.TallyStep | SEMIFINAL/SEMIFINAL/Harta/scripts/index.js:162-179 | one turn of the forEach: a new name is appended to the key order, and afterwards every entry still holds its company's aggregate over the records read so far |
| CompanyGrouping.AggregatesOf | SEMIFINAL/SEMIFINAL/Harta/scripts/index.js:183 | `Object.values` gives one aggregate per key, in key order |
| CompanyGrouping.EmitentInAnyCase | SEMIFINAL/SEMIFINAL/Harta/scripts/index.js:163-179 | a record whose role is "emitent" in any casing (each of the seven letters small or capital) files its company with count 1 as an emitent and not as a destinatar |
| CompanyGrouping.NamesMembership | SEMIFINAL/SEMIFINAL/Harta/scripts/index.js:162-172 | a name gets an entry exactly when some record is filed under it, and every entry has at least one record |
| CompanyGrouping.NamesDistinct | SEMIFINAL/SEMIFINAL/Harta/scripts/index.js:165-172 | an entry is created only the first time a name is met, so no name is listed twice |
| CompanyGrouping.AggregateSnoc | SEMIFINAL/SEMIFINAL/Harta/scripts/index.js:175-179 | one more record adds 1 to its company's count, only ever switches its flags on (emitent for "emitent", destinatar for "destinatar" or "receptor"), and leaves every other company unchanged |
| CompanyGrouping.NamesFirstEncounter | SEMIFINAL/SEMIFINAL/Harta/scripts/index.js:165-172 | a name listed before another was met in the records before the other appeared at all |
| CompanyGrouping.GroupedCountsSum | SEMIFINAL/SEMIFINAL/Harta/scripts/index.js:158-184 | the counts add up to the number of transports, and the list is empty exactly when there are no transports |
| CompanyGrouping.GroupedIsAggregates | SEMIFINAL/SEMIFINAL/Harta/scripts/index.js:183 | the list is a permutation of the per-name aggregates |
| CompanyGrouping.GroupedNamesUnique | SEMIFINAL/SEMIFINAL/Harta/scripts/index.js:165-172 | no two entries share a name |
| CompanyGrouping.GroupedCoversNames | SEMIFINAL/SEMIFINAL/Harta/scripts/index.js:162-172 | a name is listed exactly when some record is filed under it (`company_name || 'Necunoscut'`) |
| CompanyGrouping.GroupedEntryContents | SEMIFINAL/SEMIFINAL/Harta/scripts/index.js:175-179 | each entry's count is the number of its records (at least 1), and each flag is set exactly when one of its records has that role |
| CompanyGrouping.GroupedSorted | SEMIFINAL/SEMIFINAL/Harta/scripts/index.js:183 | the counts are non-increasing along the list |
| CompanyGrouping.GroupedTiesInEncounterOrder | SEMIFINAL/SEMIFINAL/Harta/scripts/index.js:183 | companies with equal counts appear in the order in which they were first met |
| CompanyGrouping.GroupedExample | SEMIFINAL/SEMIFINAL/Harta/scripts/index.js:158-184 | Alpha (emitent), Alpha (destinatar), Beta (emitent) group into Alpha with count 2 and both flags, then Beta with count 1 and emitent only |
| CompanyGrouping.BorderColor | SEMIFINAL/SEMIFINAL/Harta/scripts/index.js:208-212 | the border colour determines both role flags: purple for both, green for emitent only, blue for destinatar only, slate for neither |
| CompanyGrouping.CardOf | SEMIFINAL/SEMIFINAL/Harta/scripts/index.js:199-212 | one company card: its name, its count, a badge per role flag and the border colour; RenderCompanies states it |
| CompanyGrouping.RenderCompanies | SEMIFINAL/SEMIFINAL/Harta/scripts/index.js:186-212 | the count text is "<n> companii"; the empty-area message appears exactly when the list is empty; otherwise there is one card per company, in order, with its name, its count, a badge per role it holds and the matching border |
| RefreshControl.RefreshActions | SEMIFINAL/SEMIFINAL/Harta/scripts/index.js:41-54 | without a map nothing happens; otherwise the heatmap comes first, at the floor of the zoom, and then the transports exactly when the zoom is at least 9, else the placeholder |
| RefreshControl.ThresholdBoundary | SEMIFINAL/SEMIFINAL/Harta/scripts/index.js:15 | at zoom 8 the transports are not fetched; at zoom 9 they are |
| RefreshControl.HeatmapAfter | SEMIFINAL/SEMIFINAL/Harta/scripts/index.js:58-77 | the heatmap changes only when the body has features, and then takes exactly those features |
| RefreshControl.TransportsOrFailure | SEMIFINAL/SEMIFINAL/Harta/scripts/index.js:135-152 | `data.transports || []` then forEach: a failed request, a `null` body or a truthy non-array value ends in the error branch; a missing or falsy field gives no transports; an array is used as is |
| RefreshControl.RefreshView | SEMIFINAL/SEMIFINAL/Harta/scripts/index.js:41-54 | the page after one refreshData, with the catch branch at :149-152 leaving the count text alone; RefreshViewSidebar and HeatmapAfter state it |
| RefreshControl.RefreshViewSidebar | SEMIFINAL/SEMIFINAL/Harta/scripts/index.js:41-54 | below 9 the sidebar shows the placeholder and "---" whatever the response; at 9 or more a readable response (an array, or a missing or falsy `transports`) shows exactly the cards of its grouped companies and their number, and a failed request, a `null` body or a truthy non-array `transports` shows the error and keeps the count text |
| RefreshControl.MoveEnd | SEMIFINAL/SEMIFINAL/Harta/scripts/index.js:266-271 | the handler clears the previous timer and schedules a new one, which is then the only pending timer |
| RefreshControl.Fire | SEMIFINAL/SEMIFINAL/Harta/scripts/index.js:268-270 | a timer callback refreshes exactly when that timer is still pending, and the timer is then no longer pending |
| RefreshControl.AtMostOnePending | SEMIFINAL/SEMIFINAL/Harta/scripts/index.js:6 | with one shared `debounceTimer`, at most one refresh is ever waiting |
| RefreshControl.BurstLeavesOneTimer | SEMIFINAL/SEMIFINAL/Harta/scripts/index.js:266-271 | k moveend events refresh nothing and leave exactly the last timer pending |
| RefreshControl.BurstThenFire | SEMIFINAL/SEMIFINAL/Harta/scripts/index.js:266-271 | a burst of moveend events followed by any timer callbacks refreshes once if the last timer fires, and not at all otherwise |
| RefreshControl.RunAppend | SEMIFINAL/SEMIFINAL/Harta/scripts/index.js:266-271 | running two event sequences one after the other matches running their concatenation, and the refresh counts add up |
| RefreshControl.Dashboard.constructor | SEMIFINAL/SEMIFINAL/Harta/scripts/index.js:4-6 | the page starts with no map, no timer and no actions, with the sidebar and count as the HTML page has them |
| RefreshControl.Dashboard.InitMap | SEMIFINAL/SEMIFINAL/Harta/scripts/index.js:250-258 | the map exists from now on, at zoom 7, and nothing else changes |
| RefreshControl.Dashboard.Refresh | SEMIFINAL/SEMIFINAL/Harta/scripts/index.js:41-54 | appends the refresh's actions and moves the page to the view RefreshView describes; zoom, map and timers are unchanged |
| RefreshControl.Dashboard.OnLoad | SEMIFINAL/SEMIFINAL/Harta/scripts/index.js:262-264 | the load handler performs one refresh |
| RefreshControl.Dashboard.OnMoveEnd | SEMIFINAL/SEMIFINAL/Harta/scripts/index.js:266-271 | the timer state steps by MoveEnd; exactly the new timer is pending; the page view and the actions are unchanged |
| RefreshControl.Dashboard.OnTimer | SEMIFINAL/SEMIFINAL/Harta/scripts/index.js:268-270 | a pending timer performs one refresh and stops being pending; a cleared one changes nothing |
| HotspotPopup.NormalizeOperators | SEMIFINAL/SEMIFINAL/Introducere/scripts/index.js:151-165 | a text is parsed and a parsed array is used as the list (a parse error gives []); an array is used as is; anything else gives []; the popup fails exactly when the text parses to a non-array, which has no `sort` |
| HotspotPopup.EffectiveCount | SEMIFINAL/SEMIFINAL/Introducere/scripts/index.js:165 | `count || point_count || 0`, the sort key; ItemFallbacks states it |
| HotspotPopup.TopOperators | SEMIFINAL/SEMIFINAL/Introducere/scripts/index.js:164-166 | the first min(3, n) operators of the stable descending sort; TopOperatorsSelection, TopOperatorsDominate and TopOperatorsKeepTies state it |
| HotspotPopup.SelectTopOperators | SEMIFINAL/SEMIFINAL/Introducere/scripts/index.js:164-166 | the caller's array is left stably sorted by `count || point_count || 0`, largest first, and the first min(3, n) entries are returned |
| HotspotPopup.TopOperatorsSelection | SEMIFINAL/SEMIFINAL/Introducere/scripts/index.js:164-166 | the selection has min(3, n) entries, non-increasing in effective count, and is the front of the sorted list |
| HotspotPopup.TopOperatorsDominate | SEMIFINAL/SEMIFINAL/Introducere/scripts/index.js:164-166 | the selection is drawn from the operators, and no operator left out has a larger effective count than one that is kept |
| HotspotPopup.TopOperatorsKeepTies | SEMIFINAL/SEMIFINAL/Introducere/scripts/index.js:164-166 | selected operators with equal counts keep their input order |
| HotspotPopup.Popup | SEMIFINAL/SEMIFINAL/Introducere/scripts/index.js:149-187 | the popup's view, or None when the operators text parses to a non-array; PopupContents states it |
| HotspotPopup.ItemOf | SEMIFINAL/SEMIFINAL/Introducere/scripts/index.js:179-180 | one popup row: the name and the count with their fallbacks; ItemFallbacks states it |
| HotspotPopup.OperatorList.Message | SEMIFINAL/SEMIFINAL/Introducere/scripts/index.js:187 | the "No operator data available" text of the no-data case; PopupContents states when that case appears |
| HotspotPopup.PopupContents | SEMIFINAL/SEMIFINAL/Introducere/scripts/index.js:149-187 | the popup shows `point_count || 0`; it shows the no-data message exactly when there are no operators; otherwise it shows up to three rows, largest count first, each from the corresponding selected operator |
| HotspotPopup.ItemFallbacks | SEMIFINAL/SEMIFINAL/Introducere/scripts/index.js:179-180 | a row's name falls back from `name` to `operator_name` to 'Unknown', and its count from `count` to `point_count` to 0 |
| TransportFeed.TransportsOrEmpty | SEMIFINAL/SEMIFINAL/Introducere/scripts/index.js:228 | only an array in `transports` of an object body is kept; anything else gives an empty list |
| TransportFeed.RoleBadge.CssClass | SEMIFINAL/SEMIFINAL/Introducere/scripts/index.js:278 | `roleClass`: "emitent" or "destinatar"; ClassifyRole states it as the lower-cased badge text (`b.CssClass() == AsciiLower(b.Text())`) |
| TransportFeed.RoleBadge.Text | SEMIFINAL/SEMIFINAL/Introducere/scripts/index.js:279 | `roleDisplay`: "Emitent" or "Destinatar"; ClassifyRole states which badge a role gets |
| TransportFeed.ClassifyRole | SEMIFINAL/SEMIFINAL/Introducere/scripts/index.js:260-261 | the badge is Emitent exactly when `(role || 'unknown').toLowerCase()` is "emitent", and Destinatar otherwise; the CSS class is the lower-case badge text |
| TransportFeed.ClassifyRoleExamples | SEMIFINAL/SEMIFINAL/Introducere/scripts/index.js:278-279 | a missing, an empty, and a "receptor" role are all Destinatar; "EMITENT" and "Emitent" are Emitent |
| TransportFeed.IdDisplay | SEMIFINAL/SEMIFINAL/Introducere/scripts/index.js:258-288 | the id text is "#" + the first min(8, length) characters of `transport_id || 'N/A'` + "...", so at most 12 characters |
| TransportFeed.IdDisplayMissing | SEMIFINAL/SEMIFINAL/Introducere/scripts/index.js:258 | a missing or empty id is shown as "#N/A..."; a ten-digit id is cut to its first eight digits |
| TransportFeed.TimeOf | SEMIFINAL/SEMIFINAL/Introducere/scripts/index.js:263-276 | the time is 'N/A' exactly when the first position has no timestamp, and otherwise it is built from that timestamp |
| TransportFeed.FeedLabel | SEMIFINAL/SEMIFINAL/Introducere/scripts/index.js:245 | the count text is "<n> transports" with n in decimal, and "1 transport" exactly when the count is one |
| TransportFeed.CardOf | SEMIFINAL/SEMIFINAL/Introducere/scripts/index.js:257-297 | one transport card: `company_name || 'Unknown'`, the role badge, the id text and the time; ClassifyRole, IdDisplay, TimeOf and MissingCompanyName state its parts |
| TransportFeed.RenderTransports | SEMIFINAL/SEMIFINAL/Introducere/scripts/index.js:241-288 | the count text is FeedLabel of the number of transports; the empty-area message appears exactly when there are none; otherwise there is one card per transport, in order |
| TransportFeed.Feed.constructor | SEMIFINAL/SEMIFINAL/Introducere/scripts/index.js:6 | `transportsData` starts empty |
| TransportFeed.Feed.FetchTransports | SEMIFINAL/SEMIFINAL/Introducere/scripts/index.js:202-239 | without a bounding box nothing changes; a failed request shows the error and keeps the old data and count; otherwise the data becomes TransportsOrEmpty of the body and is rendered |
| TransportFeed.Feed.RenderFeed | SEMIFINAL/SEMIFINAL/Introducere/scripts/index.js:241-288 | the count text and the list are RenderTransports of the stored data, which is not changed |
| Variants.EmitentAgrees | SEMIFINAL/SEMIFINAL/Introducere/scripts/index.js:260-261 | the two pages call a record Emitent under the same condition, although they default a missing role differently ('' and 'unknown') |
| Variants.UnknownRoleDiffers | SEMIFINAL/SEMIFINAL/Harta/scripts/index.js:163-179 | a role that is neither emitent, destinatar nor receptor raises no flag on the map page, while the introduction page shows it as Destinatar |
| Variants.ReceptorIsDestinatar | SEMIFINAL/SEMIFINAL/Harta/scripts/index.js:179 | "receptor" is a Destinatar on both pages |
| Variants.MissingCompanyName | SEMIFINAL/SEMIFINAL/Harta/scripts/index.js:162 | a record without a company name is filed under "Necunoscut" on the map page and shown as "Unknown" on the introduction page |
| Variants.TransportsDefaulting | SEMIFINAL/SEMIFINAL/Harta/scripts/index.js:142 | the two pages agree on an array and on a missing or falsy `transports`; on a `null` body or a truthy non-array value the map page fails, while the introduction page shows an empty list |
| IntroHeatmap.FeaturesOf | SEMIFINAL/SEMIFINAL/Introducere/scripts/index.js:38-40 | the layer is updated exactly when the body has `features` and it is an array, and then with those features |
| IntroHeatmap.UpdateAsWritten | SEMIFINAL/SEMIFINAL/Introducere/scripts/index.js:46-57 | as written: the first call creates the source and shows its data; every later call throws on `heatmapSource.setData` and changes nothing |
| IntroHeatmap.Update | SEMIFINAL/SEMIFINAL/Introducere/scripts/index.js:46-57 | as intended: afterwards the source exists and shows the new data |
| IntroHeatmap.FetchAsWritten | SEMIFINAL/SEMIFINAL/Introducere/scripts/index.js:16-57 | fetchHeatmapData with the update as written; AsWrittenFrozen and AsWrittenKeepsFirst state it |
| IntroHeatmap.Fetch | SEMIFINAL/SEMIFINAL/Introducere/scripts/index.js:16-44 | without a map, or without an array of features, nothing changes; otherwise the layer shows the new features |
| IntroHeatmap.FetchMatchesMapPage | SEMIFINAL/SEMIFINAL/Introducere/scripts/index.js:16-44 | with the intended update, the introduction page's heatmap follows the same rule as the map page's |
| IntroHeatmap.AsWrittenFrozen | SEMIFINAL/SEMIFINAL/Introducere/scripts/index.js:49-50 | as written, once the source exists no later response changes the heatmap |
| IntroHeatmap.AsWrittenKeepsFirst | SEMIFINAL/SEMIFINAL/Introducere/scripts/index.js:46-57 | as written, the heatmap shows the first features ever received |
| IntroHeatmap.RunShowsLatest | SEMIFINAL/SEMIFINAL/Introducere/scripts/index.js:46-57 | as intended, the heatmap shows the latest features received, or what it showed before when no response had any |
| IntroHeatmap.StaleHeatmapExample | SEMIFINAL/SEMIFINAL/Introducere/scripts/index.js:49-50 | two loads with different features: as written the second is lost, as intended it is shown |
| IntroHeatmap.IntroMap.constructor | SEMIFINAL/SEMIFINAL/Introducere/scripts/index.js:5 | `heatmapSource` starts null and no heatmap data is shown |
| IntroHeatmap.IntroMap.FetchHeatmapData | SEMIFINAL/SEMIFINAL/Introducere/scripts/index.js:16-57 | the page's `heatmapSource` and map data step by the intended Fetch |

## Left out

- Bounding boxes: the 20% buffer of `getBufferedBbox`, `getBbox`, and the text of the bbox parameter are floating-point maths and formatting. The model keeps only whether a map, and so a bbox, exists.
- HTTP: URLs, headers, the API key, `fetch` and `response.json()`. Each request is one of the outcome values: a thrown error or a decoded body.
- MapLibre: creating the map and the heatmap layer (the paint expressions, `addSource`/`addLayer` versus `setData`), cursors, and popup placement. The heatmap layer is its data, and the operator popup is its view-model.
- Markup: the exact HTML strings and inline styles are not modelled. Cards and messages are datatypes carrying the values they show.
- Time: `new Date(timestamp).toLocaleTimeString('ro-RO', …)` and its catch branch. TimeOf keeps the timestamp as given and does not model the local hour:minute format.
- Timers: the 500 ms delay and wall-clock time. A timer firing is an event in a sequence.
- Concurrency: interleaving of the async handlers, such as a slow earlier response overwriting a later one. Each refresh is modelled as atomic.
- Transient states: the loading texts ("Se analizează companiile...", the skeleton cards) are treated as passing states, written before the outcome is known.
- Object keys: `map[companyName]` is treated as an ordinary dictionary whose `Object.values` follows insertion order. Integer-like names, which JavaScript enumerates first, and names such as `__proto__` are not modelled.
- JsValues.AsciiLower: lower-cases only ASCII letters, not all of Unicode.
- Records: the record types exclude numbers that are not integers, NaN counts, and non-string ids or roles (whose `slice` or `toLowerCase` would throw). They also exclude a `null` element in `transports` or `operators`. On the map page, `t.company_name` would throw and lead to the error state. On the introduction page, the throw comes inside `renderTransports`, after `transportsData` and the count text are set. Counts are unbounded integers: the map page's `count++` and the introduction page's comparator subtraction lose exactness above 2^53 in JavaScript's doubles, which the model does not reproduce.
- `JSON.parse` of the operators text is a function parameter. Its grammar is not modelled.
- The introduction page's heatmap differs from the map page's in three ways. It asks for the visible area as it is (`getBbox`), not the buffered one. It also checks `Array.isArray` on `features`. And it keeps its own `heatmapSource` (see Findings). The bbox is left out as above; IntroHeatmap models the rest, and a truthy non-array `features` is not representable in the heatmap outcome type.
- TransportFeed.IdDisplay: the cut counts Unicode scalar values, while `slice(0, 8)` counts UTF-16 code units. An id with characters outside the Basic Multilingual Plane shows more characters in the model than on the page, and `slice` can split a surrogate pair, which the model cannot.
- The mobile menu, the Introducere event wiring (its `moveend` refresh has no debounce) and the landing page script `landing.js` are outside the modelled core.

## Findings

| source | as written | input that shows it | evidently intended | confidence | as-written member | corrected member |
|---|---|---|---|---|---|---|
| SEMIFINAL/SEMIFINAL/Introducere/scripts/index.js:49-57 | `heatmapSource` holds the plain options object `{type, data}` given to `addSource`, and later updates call `heatmapSource.setData(...)` on it; that object has no `setData`, so the call throws and `fetchHeatmapData` swallows the error | two heatmap responses with different features: the second never reaches the map | later responses replace the source's data, as `map.getSource('heatmap-source').setData(...)` does on the map page | not executed; read from the code | IntroHeatmap.AsWrittenKeepsFirst | IntroHeatmap.RunShowsLatest |
