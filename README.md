# Snapchat location viewer: a Dafny model of its extraction and marker pipeline

The viewer is a single page, `index.js`. The user imports a Snapchat location-history JSON file.
The page then does three things:

- It builds one checkbox per top-level category, except four hidden ones.
- It keeps an `activeLocations` object from category name to flag.
- On every import or checkbox change, it redraws the marker layer. For each active category whose
  name `typeToFunc` knows, it runs that category's extractor. The extractor scans coordinate
  texts with the four-number regular expression `fourNumberReg` and adds one marker per text.

A geolocation lookup at start-up may set the view centre and the "current location". A render
pass that completes ends with the current-location marker, placed at `false` (modelled
`NotLocated`) until a geolocation arrives.

The project models this pipeline in Dafny and proves what it does:

- `scanner.dfy` (module `CoordinateScanner`) is the regular expression as a scanner.
  - It follows JavaScript's `exec`: leftmost start position, with backtracking.
  - Integer parts and separators are forced to their maximal runs. Fractional parts are tried
    longest first.
  - Proved: soundness and completeness against a decomposition
    `s == p + lat + n1 + latPrecision + n2 + long + n3 + longPrecision + rest`.
  - Proved: the result is unsigned, and the match found is the leftmost one.
  - A worked example ends in `CoordinateScanner.ExecVisitedText`.
- `selection.dfy` (module `Selection`) models `activeLocations`.
  - A JavaScript object with string keys keeps the order in which keys were first set. It is
    therefore a sequence of (name, flag) entries.
  - Assignment (`Assign`) updates an entry in place, or appends one for a new key.
  - Also here: the import fill, which skips `hiddenLocTypes`, and the active-name filter.
- `extraction.dfy` (module `Extraction`) holds the payload shapes and the four extractors.
  - Each extractor is a function (`CategoryMarkers`) that gives the markers it adds and whether
    it ran to its end.
  - A `null` from `exec`, or a payload of the wrong shape, makes the source throw at the
    destructuring or at `forEach`. Here that is `completed == false`, and the markers added before
    the throw stay.
- `rendering.dfy` (module `Rendering`) models `updateLocations`.
  - `RenderNames` is the pass, computed one category at a time.
  - `Chain` is the reference definition in which each category's markers are computed on their
    own.
  - `UpdateSpec` is the whole pass, ending with the current-location marker.
- `viewer.dfy` (module `Viewer`) holds the page state as the class `LocationViewer`, one field per
  global variable.
  - The handlers are methods that change that state with the source's loops: the import, the
    checkbox handler, the geolocation callbacks, `updateLocations`, `addMarker` and the four
    extractors.
  - Each method is proved against the functions above.
- `wrappers.dfy` holds `Option`.

Values are kept as the capture strings the source passes on. Only Leaflet would convert them to
numbers.

## Model

| member | source | states |
|---|---|---|
| CoordinateScanner.SkipNonDigits | index.js:6 | `[^0-9]*` consumes exactly the maximal run of non-digits from i |
| CoordinateScanner.SkipDigits | index.js:6 | a greedy digit run from i consumes exactly the maximal, possibly empty, run of digits; MatchTokens requires it non-empty for `[0-9]+` |
| CoordinateScanner.MatchTokens | index.js:6 | a match attempt from position i gives n number tokens chained by non-digit gaps, the first starting after the maximal leading gap |
| CoordinateScanner.MatchFraction | index.js:6 | the backtracking over a token's fractional length gives a token ending no later than the longest fraction, followed by a chain of the remaining tokens |
| CoordinateScanner.FindFrom | index.js:6 | trying start positions from i onward, a result is a full four-token match starting at or after i |
| CoordinateScanner.Exec | index.js:6 | no contract of its own; characterised by ExecSound, ExecComplete, ExecNoneIff, ExecUnsigned and FindFromLeftmost |
| CoordinateScanner.ChainOfFourIsMatch | index.js:6 | a chain of four tokens from i is exactly a four-token match with only non-digits before it |
| CoordinateScanner.MatchSplits | index.js:6 | a four-token match cuts the text into prefix, four number captures and three non-digit separators |
| CoordinateScanner.MatchHasSplit | index.js:6 | the captures of any four-token match, with the text around them, give such a cut of the text |
| CoordinateScanner.ExecSound | index.js:6 | when exec succeeds, the text is prefix + lat + n1 + latPrecision + n2 + long + n3 + longPrecision + rest, each capture `digits.digits`, each separator digit-free |
| CoordinateScanner.ExecUnsigned | index.js:6 | captures 1 and 3 start with a digit, so a leading `-` is consumed as separator and never reaches a coordinate |
| CoordinateScanner.MatchTokensComplete | index.js:6 | any chain of tokens from i is found by the match attempt from i |
| CoordinateScanner.MatchFractionComplete | index.js:6 | the fractional backtracking finds a chain whenever one exists with a fraction within the tried length |
| CoordinateScanner.FindFromLeftmost | index.js:6 | if a match starts at or after i, the scan from i succeeds at that start or earlier (leftmost match) |
| CoordinateScanner.FindFromReaches | index.js:6 | the scan from i succeeds no later than any digit position at which a match attempt succeeds |
| CoordinateScanner.FindFromHere | index.js:6 | proof helper (one unfolding of the definition, used by the loop proofs): the scan stops at the first start position where an attempt succeeds, with that attempt's tokens |
| CoordinateScanner.FindFromNext | index.js:6 | proof helper (one unfolding of the definition, used by the loop proofs): where the attempt at i fails, the scan moves on to i + 1 |
| CoordinateScanner.SkipStopsAtDigit | index.js:6 | the leading `[^0-9]*` never runs past a digit |
| CoordinateScanner.MatchStartsAtDigit | index.js:6 | a match begins at a digit of the text |
| CoordinateScanner.MatchFoundAtStart | index.js:6 | the attempt started at a match's first digit succeeds |
| CoordinateScanner.SplitsMatch | index.js:6 | a decomposition of the text yields a four-token match whose captures are the decomposition's numbers |
| CoordinateScanner.PiecesMatch | index.js:6 | four tokens placed at the positions a decomposition gives form a match whose tokens spell the decomposition's numbers |
| CoordinateScanner.ExecComplete | index.js:6 | every text with such a decomposition makes exec succeed |
| CoordinateScanner.ExecNoneIff | index.js:6 | exec gives null exactly when the text has no four dotted numbers separated by non-digits |
| CoordinateScanner.ExecVisitedText | index.js:6 | "55.70,0.0,12.55,0.0" yields captures "55.70", "0.0", "12.55", "0.0" |
| Selection.AssignSpec | index.js:85 | `obj[k] = v` changes only k's entry, keeps the key order when k is present, appends (k, v) when absent, keeps keys distinct |
| Selection.Assign | index.js:85-87 | no contract of its own; characterised by AssignSpec, AssignAt and AssignKeeps |
| Selection.AssignAt | index.js:87 | assigning an existing key replaces exactly its entry |
| Selection.ToggleRestores | index.js:86-88 | setting a flag to the opposite value and back restores the selection exactly |
| Selection.AssignActive | index.js:86-88 | after a checkbox change, that category is active exactly when checked, every other exactly as before |
| Selection.VisibleMembers | index.js:12-17 | the reference fill holds (k, true) exactly for document keys k outside the four hidden names, and never a false entry |
| Selection.VisibleKeysDistinct | index.js:66-69 | for a document with distinct keys, the reference fill has distinct keys |
| Selection.FillFresh | index.js:66-69 | the first import's loop over `Object.keys(json)` gives one true entry per non-hidden key, in document order |
| Selection.Fill | index.js:66-85 | no contract of its own; characterised by FillFresh and FillKeepsEarlier |
| Selection.FillKeepsEarlier | index.js:66-85 | a later import keeps the earlier keys in place and distinct, sets every non-hidden key of the new document to true, and leaves an earlier entry whose key the new document lacks, stale flag included, as it was |
| Selection.AssignKeeps | index.js:85-87 | after `obj[k] = v` the only entry for k is (k, v), and the entries of every other key are exactly those before |
| Selection.FillNoHidden | index.js:68-69 | a hidden category name that the selection lacks is still absent after an import, first or later |
| Selection.Keys | index.js:66 | `Object.keys`: one key per entry, in entry order; characterised further by AssignSpec and FillKeepsEarlier |
| Selection.ActiveNamesMembers | index.js:106 | the filtered key list holds exactly the names whose flag is `true` |
| Selection.ActiveNames | index.js:106 | no contract of its own; characterised by ActiveNamesMembers and AssignActive |
| Extraction.CategoryOf | index.js:18-23 | `typeToFunc` selects an extractor for exactly the four category names |
| Extraction.PointOf | index.js:127-128 | no contract of its own; the position `[lat, long]` from captures 1 and 3, characterised by PinsSpec, DayListMarkers and VisitedMarkers |
| Extraction.PinOf | index.js:131-135 | no contract of its own; one `addMarker` call for a scanned record, characterised by PinsSpec |
| Extraction.RowRecords | index.js:140-144 | one record per object of an inner list, in order, tooltip heading + first key; characterised by DayRecordAt |
| Extraction.VisitRecords | index.js:150-152 | one record per visit, in order, tooltip the Visited heading + `Time`; characterised by VisitedMarkers |
| Extraction.Pins | index.js:139-153 | no contract of its own; characterised by PinsSpec, PinsStopAt and PinsAppend |
| Extraction.PinsSpec | index.js:139-153 | a run of scans adds one marker per record, in order, built from capture 1 and 3 and labelled with the record's tooltip, up to the first text exec cannot match; it completes exactly when no text fails |
| Extraction.PinsAdd | index.js:143-144 | proof helper (one unfolding of the definition, used by the loop proofs): a record whose text scans adds its own marker after those of the earlier records |
| Extraction.PinsFail | index.js:143 | proof helper (one unfolding of the definition, used by the loop proofs): a record whose text does not scan ends the run with the markers so far |
| Extraction.PinsStopAt | index.js:143 | after a throw, later records add nothing |
| Extraction.PinsAppend | index.js:139-146 | a run over two parts is the run over the first followed, if it completed, by the run over the second |
| Extraction.PinsAddAt | index.js:143-144 | proof helper (one unfolding of the definition, used by the loop proofs): a scanning record adds exactly its own marker |
| Extraction.PinsFailAt | index.js:143 | a failing record ends the whole run with the markers so far |
| Extraction.DayRecordsLength | index.js:139-140 | the nested loops visit as many objects as the inner lists hold together |
| Extraction.DayRecords | index.js:139-140 | no contract of its own; the visiting order of the two nested loops, characterised by DayRecordsLength, DayRecordsPrefix and DayRecordAt |
| Extraction.DayRecordsPrefix | index.js:139 | the objects of the first i lists come first, in order |
| Extraction.DayRecordsStep | index.js:139-140 | proof helper (one unfolding of the definition, used by the loop proofs): the objects of the first i + 1 lists are those of the first i lists, then those of list i |
| Extraction.DayRecordAt | index.js:139-142 | object j of list i is visited at the sum of the earlier lists' lengths plus j, with its text and day |
| Extraction.DayPinsStep | index.js:139-146 | the run over i + 1 lists is the run over i lists followed by the run over list i |
| Extraction.DayPinsStopAt | index.js:139-146 | once list i throws, the later lists add nothing |
| Extraction.DayListMarkers | index.js:138-147 | Daily Top and Six-Day: when every text scans, the marker count is the sum of the inner lengths, and the marker of object j of list i sits at the sum of the earlier lengths plus j, at capture 1 and 3, labelled heading + day |
| Extraction.VisitedMarkers | index.js:149-154 | Visited: when every text scans, one marker per visit, in order, at capture 1 and 3, labelled the Visited heading + `Time` |
| Extraction.HomeAndWorkEffect | index.js:116-129 | Home & Work adds exactly "Home" then "Work"; the Home point becomes the centre and the flag true only when no centre was set; a text that does not scan changes nothing |
| Extraction.HomePoint | index.js:121-123 | no contract of its own; the Home point passed to `setView`, characterised by HomeAndWorkEffect |
| Extraction.CategoryMarkers | index.js:116-165 | no contract of its own; characterised by HomeAndWorkEffect, DayListMarkers and VisitedMarkers |
| Extraction.DayListPins | index.js:138-147 | no contract of its own; characterised by DayListMarkers for day lists, and by its shape cases for the other payloads |
| Extraction.Extract | index.js:18-23 | no contract of its own; characterised by HomeAndWorkEffect, and realised by Viewer.LocationViewer.CallExtractor |
| Rendering.Lookup | index.js:110 | `data[name]` is defined exactly for the document's keys, and then is that key's payload |
| Rendering.RenderOne | index.js:109-110 | no contract of its own; characterised by RenderOneMarkers |
| Rendering.RenderNames | index.js:108-111 | no contract of its own; characterised by RenderNamesMarkers and RenderNamesStopAt |
| Rendering.ChainSkipsUnknown | index.js:109 | an active name without a `typeToFunc` entry contributes nothing, wherever it stands |
| Rendering.ChainSnoc | index.js:108-111 | the reference over one more name extends the reference by that name's contribution |
| Rendering.RenderOneMarkers | index.js:108-111 | one category's step appends exactly that category's own markers |
| Rendering.RenderNamesMarkers | index.js:108-111 | the pass appends the concatenation of the active categories' own markers, in order, and throws exactly when some category throws |
| Rendering.RenderNamesStopAt | index.js:108-111 | after a category throws, later categories are never reached |
| Rendering.RenderNamesStep | index.js:108-111 | proof helper (one unfolding of the definition, used by the loop proofs): the pass over i + 1 names is the pass over i names then name i |
| Rendering.UpdateMarkers | index.js:104-114 | a render pass discards every earlier marker; the layer is the active categories' markers in key order, then the current-location marker, which a throw leaves out |
| Rendering.CurrentMarker | index.js:113 | no contract of its own; the `NotLocated` case is the source's `false` before a geolocation |
| Rendering.UpdateSpec | index.js:104-114 | no contract of its own; characterised by UpdateMarkers, NoStaleMarkers and ToggleOffOnMarkers |
| Rendering.NoStaleMarkers | index.js:105 | the layer after a pass does not depend on what was on it before |
| Rendering.ToggleOffOnMarkers | index.js:86-88 | toggling an active category off and on gives the markers of never toggling it |
| Viewer.LocationViewer.constructor | index.js:8-11 | the page starts with nothing imported, no selection, no markers, no centre and no geolocation |
| Viewer.LocationViewer.AddMarker | index.js:131-135 | `addMarker` appends exactly one marker with the given position and tooltip |
| Viewer.LocationViewer.Located | index.js:94-99 | a geolocation centres the view on it, adds the "Current location" marker, sets the flag and records the location |
| Viewer.LocationViewer.LocationFailed | index.js:100-102 | a failed geolocation clears `hasCenterLocation` |
| Viewer.LocationViewer.LocHomeAndWork | index.js:116-129 | the method does what `Extract(HomeAndWork, …)` states: it completes exactly when both texts scan, then adds "Home" and "Work" and centres on Home if no centre was set; otherwise nothing changes |
| Viewer.LocationViewer.AddRowMarkers | index.js:140-145 | the inner loop appends the run of one inner list's records |
| Viewer.LocationViewer.AddListsMarkers | index.js:139-146 | the outer loop appends the run of all records of the list of lists |
| Viewer.LocationViewer.AddDayListMarkers | index.js:138-147 | the shared list extractor appends `DayListPins`, shape mismatches included |
| Viewer.LocationViewer.LocDailyTopLocs | index.js:138-147 | appends the Daily Top markers of `CategoryMarkers` |
| Viewer.LocationViewer.LocYouHaveVisited | index.js:149-154 | appends the Visited markers of `CategoryMarkers` |
| Viewer.LocationViewer.LocTopLocPrSixDays | index.js:156-165 | appends the Six-Day markers of `CategoryMarkers` |
| Viewer.LocationViewer.CallExtractor | index.js:18-23 | `typeToFunc[c](payload)` changes the map state as `Extract` states |
| Viewer.LocationViewer.RenderCategory | index.js:109-110 | one step of the render loop changes the map state as `RenderOne` states: unknown names are skipped, a missing payload throws |
| Viewer.LocationViewer.UpdateLocations | index.js:104-114 | the loop leaves the map state `UpdateSpec` gives, whose markers `UpdateMarkers` characterises |
| Viewer.LocationViewer.LoadLocations | index.js:63-92 | stores the document, sets the selection to the fill over its keys (keeping keys distinct), then renders as `UpdateSpec` |
| Viewer.LocationViewer.Toggle | index.js:86-89 | sets only that category's flag, keeps the key order, then renders as `UpdateSpec` |

## Left out

- The DOM work is not modelled, because it is page layout with no effect on the markers. This covers element lookup, checkbox and label creation, the resize handler and the `alert` checks on file count and MIME type (index.js:1-4, 28-52, 70-84).
- `FileReader` and `JSON.parse` are not modelled, because they are host I/O. The document arrives already parsed, as a sequence of (key, payload) pairs in key order.
- JavaScript orders integer-like object keys before the other keys. That ordering is not modelled; key order is taken as document order.
- Leaflet is not modelled, being a foreign library with floating point. This covers `L.map`, the tile layer, string-to-float conversion in `L.latLng`, the zoom level, and tooltip binding and opening. Markers are recorded as (place, tooltip); the view centre is recorded as the point passed to `setView`.
- Viewer.LocationViewer.UpdateLocations: the source always calls `addMarker(currentLocation, "Current location")`, even while `currentLocation` is still `false`. The model records a `NotLocated` marker there. How Leaflet treats a `false` position is not modelled. The viewer's documented behaviour is that no such marker appears without a geolocation. The model follows the code, so the marker is present but has no position.
- The documented behaviour also has the current-location marker present after every render pass. In the code it is added only when no extractor threw; the model follows the code.
- The geolocation callbacks are methods, so any interleaving with imports can be expressed. Their timing relative to an import is not modelled, because it is a race in the host.
- The `console.log` calls are not modelled, because they are output only.
- Payload shapes are approximate. A payload is one of the four recognised shapes, or `Other` for anything else. A daily or six-day object is reduced to its first key and that key's text; an object without keys is not modelled. A visit without `Time` is not modelled, and neither is the "undefined" text it would render.
- `Other` and every shape mismatch throw, except when a list extractor receives an empty list of the other list shape, which completes. Extractors given values of other JavaScript types (`null`, numbers, strings) are modelled as throwing. A list that is well formed only up to some element, such as a day list followed by a number or a visits list holding `null`, is `Other` and throws with no markers; in the source the earlier elements' markers are added before the throw and stay on the layer.
- `typeToFunc[locType]` also finds inherited `Object.prototype` members, such as `toString`. That lookup is not modelled: only the four names select an extractor. Likewise `activeLocations["__proto__"] = true` calls the inherited setter and creates no entry, whereas `Fill` appends a `("__proto__", true)` entry; the markers agree, since that name selects no extractor.
- Viewer.LocationViewer.Toggle requires the category to have an entry, because the source creates a checkbox only for such a name. Re-import is modelled, including the stale keys it keeps. The duplicate checkboxes it creates are DOM work.
- Keys of the imported document are not required to be distinct, although `Object.keys` of a parsed JSON object always is, and `JSON.parse` keeps the last of duplicate keys while `Lookup` returns the first. `Selection.FillFresh` assumes distinct keys; `Viewer.LocationViewer.LoadLocations` states its result through `Fill` for any document.
