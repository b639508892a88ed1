/**
  The page state of index.js and the handlers that change it: the import (`loadLocations`), the
  checkbox `change` handler, the geolocation callbacks, `updateLocations` and the four extractors,
  which append to the marker layer one `addMarker` at a time.
  A handler that throws in the source returns false here; what it changed before the throw stays.
*/
module Viewer {
  import opened Wrappers
  import opened CoordinateScanner
  import opened Selection
  import opened Extraction
  import opened Rendering

  class LocationViewer {
    /** `data`: the imported document. */
    var data: Document
    /** `activeLocations`: category name to checkbox state, in key order. */
    var activeLocations: Entries
    var hasCenterLocation: bool
    /** `currentLocation`: the geolocation, None while it is still `false`. */
    var currentLocation: Option<LatLng>
    /** The centre of the map view, None until setView is first called. */
    var center: Option<LatLng>
    /** `markerLayer`: the markers on the map, in the order they were added. */
    var markers: seq<Marker>

    /** A JavaScript object has each key once. */
    ghost predicate Valid()
      reads this
    {
      Distinct(Keys(activeLocations))
    }

    /** The part of the state an extractor reads and writes. */
    function View(): MapView
      reads this
    {
      MapView(markers, hasCenterLocation, center)
    }

    /** The state when the page has loaded, before any callback has run. */
    constructor ()
      ensures Valid()
      ensures data == [] && activeLocations == [] && markers == []
      ensures !hasCenterLocation && currentLocation == None && center == None
    {
      data := [];
      activeLocations := [];
      hasCenterLocation := false;
      currentLocation := None;
      center := None;
      markers := [];
    }

    /** `addMarker(loc, tooltip)`: one marker more on the layer. */
    method AddMarker(place: Place, tooltip: string)
      modifies this`markers
      ensures markers == old(markers) + [Marker(place, tooltip)]
    {
      markers := markers + [Marker(place, tooltip)];
    }

    /** The geolocation success callback: centre on the device, add its marker, remember it. */
    method Located(p: LatLng)
      modifies this`center, this`markers, this`hasCenterLocation, this`currentLocation
      ensures center == Some(p) && hasCenterLocation && currentLocation == Some(p)
      ensures markers == old(markers) + [Marker(At(p), "Current location")]
    {
      center := Some(p);
      AddMarker(At(p), "Current location");
      hasCenterLocation := true;
      currentLocation := Some(p);
    }

    /** The geolocation failure callback. */
    method LocationFailed()
      modifies this`hasCenterLocation
      ensures !hasCenterLocation
    {
      hasCenterLocation := false;
    }

    /**
      LocHomeAndWork: scan Home, then Work; if no centre is set, centre on Home; then add the Home
      and Work markers. A payload without both texts, or a text exec cannot match, throws before
      anything changes.
    */
    method LocHomeAndWork(p: Payload) returns (done: bool)
      modifies this`markers, this`hasCenterLocation, this`center
      ensures Step(View(), done) == Extract(HomeAndWork, p, old(View()))
      ensures done <==> p.HomeWork? && Exec(p.home).Some? && Exec(p.work).Some?
      ensures done ==> markers == old(markers) + [Marker(At(PointOf(Exec(p.home).value)), "Home"),
                                                  Marker(At(PointOf(Exec(p.work).value)), "Work")]
      ensures done ==> hasCenterLocation
      ensures done && !old(hasCenterLocation) ==> center == Some(PointOf(Exec(p.home).value))
      ensures !done || old(hasCenterLocation) ==> center == old(center)
      ensures !done ==> markers == old(markers) && hasCenterLocation == old(hasCenterLocation)
    {
      if !p.HomeWork? {
        // `data.Home` is undefined, and exec of it gives null
        return false;
      }
      var home := Exec(p.home);
      if home.None? {
        return false;
      }
      var work := Exec(p.work);
      if work.None? {
        return false;
      }
      if !hasCenterLocation {
        center := Some(PointOf(home.value));
        hasCenterLocation := true;
      }
      AddMarker(At(PointOf(home.value)), "Home");
      AddMarker(At(PointOf(work.value)), "Work");
      done := true;
    }

    /**
      The inner forEach of LocDailyTopLocs and LocTopLocPrSixDays: one marker per object of one
      list, labelled with the heading and the day.
    */
    method AddRowMarkers(heading: string, locations: seq<DayEntry>) returns (done: bool)
      modifies this`markers
      ensures markers == old(markers) + Pins(RowRecords(heading, locations)).markers
      ensures done == Pins(RowRecords(heading, locations)).completed
    {
      ghost var recs := RowRecords(heading, locations);
      var j := 0;
      while j < |locations|
        invariant 0 <= j <= |locations|
        invariant Pins(recs[..j]).completed
        invariant markers == old(markers) + Pins(recs[..j]).markers
      {
        var day := locations[j].day;
        var locText := locations[j].text;
        assert recs[j] == Record(locText, heading + day);
        var loc := Exec(locText);
        if loc.None? {
          PinsFailAt(recs, j);
          return false;
        }
        PinsAddAt(recs, j, loc.value);
        AddMarker(At(PointOf(loc.value)), heading + day);
        j := j + 1;
      }
      assert recs[..j] == recs;
      done := true;
    }

    /** The outer forEach of LocDailyTopLocs and LocTopLocPrSixDays, over the inner lists. */
    method AddListsMarkers(heading: string, lists: seq<seq<DayEntry>>) returns (done: bool)
      modifies this`markers
      ensures markers == old(markers) + Pins(DayRecords(heading, lists)).markers
      ensures done == Pins(DayRecords(heading, lists)).completed
    {
      var i := 0;
      assert lists[..i] == [];
      while i < |lists|
        invariant 0 <= i <= |lists|
        invariant Pins(DayRecords(heading, lists[..i])).completed
        invariant markers == old(markers) + Pins(DayRecords(heading, lists[..i])).markers
      {
        ghost var sofar := Pins(DayRecords(heading, lists[..i])).markers;
        var rowDone := AddRowMarkers(heading, lists[i]);
        ghost var row := Pins(RowRecords(heading, lists[i])).markers;
        DayPinsStep(heading, lists, i);
        AppendTwice(old(markers), sofar, row);
        if !rowDone {
          DayPinsStopAt(heading, lists, i + 1);
          return false;
        }
        i := i + 1;
      }
      assert lists[..i] == lists;
      done := true;
    }

    /** LocDailyTopLocs and LocTopLocPrSixDays, for one heading: the payload must be a list of lists. */
    method AddDayListMarkers(heading: string, p: Payload) returns (done: bool)
      modifies this`markers
      ensures markers == old(markers) + DayListPins(heading, p).markers
      ensures done == DayListPins(heading, p).completed
    {
      if p.Visits? {
        // forEach over an empty list does nothing; the first visit object has no forEach
        done := p.visits == [];
        return;
      }
      if !p.DayLists? {
        return false;
      }
      done := AddListsMarkers(heading, p.lists);
    }

    /** LocDailyTopLocs. */
    method LocDailyTopLocs(p: Payload) returns (done: bool)
      modifies this`markers
      ensures markers == old(markers) + CategoryMarkers(DailyTop, p).markers
      ensures done == CategoryMarkers(DailyTop, p).completed
    {
      done := AddDayListMarkers(DailyTopHeading, p);
    }

    /** LocTopLocPrSixDays. */
    method LocTopLocPrSixDays(p: Payload) returns (done: bool)
      modifies this`markers
      ensures markers == old(markers) + CategoryMarkers(SixDay, p).markers
      ensures done == CategoryMarkers(SixDay, p).completed
    {
      done := AddDayListMarkers(SixDayHeading, p);
    }

    /** LocYouHaveVisited: one marker per visit, labelled with its time. */
    method LocYouHaveVisited(p: Payload) returns (done: bool)
      modifies this`markers
      ensures markers == old(markers) + CategoryMarkers(Visited, p).markers
      ensures done == CategoryMarkers(Visited, p).completed
    {
      if p.DayLists? {
        // an inner list has no "Latitude, Longitude": exec of undefined gives null
        done := p.lists == [];
        return;
      }
      if !p.Visits? {
        return false;
      }
      var visits := p.visits;
      ghost var recs := VisitRecords(visits);
      var i := 0;
      while i < |visits|
        invariant 0 <= i <= |visits|
        invariant Pins(recs[..i]).completed
        invariant markers == old(markers) + Pins(recs[..i]).markers
      {
        var locObj := visits[i];
        assert recs[i] == Record(locObj.latLong, VisitedHeading + locObj.time);
        var loc := Exec(locObj.latLong);
        if loc.None? {
          PinsFailAt(recs, i);
          return false;
        }
        PinsAddAt(recs, i, loc.value);
        AddMarker(At(PointOf(loc.value)), VisitedHeading + locObj.time);
        i := i + 1;
      }
      assert recs[..i] == recs;
      done := true;
    }

    /** `typeToFunc[c](payload)`. */
    method CallExtractor(c: Category, p: Payload) returns (done: bool)
      modifies this`markers, this`hasCenterLocation, this`center
      ensures Step(View(), done) == Extract(c, p, old(View()))
    {
      match c
      case HomeAndWork => done := LocHomeAndWork(p);
      case DailyTop => done := LocDailyTopLocs(p);
      case SixDay => done := LocTopLocPrSixDays(p);
      case Visited => done := LocYouHaveVisited(p);
    }

    /** The forEach callback of updateLocations: run the category's extractor if `typeToFunc` has one. */
    method RenderCategory(locType: string) returns (ok: bool)
      modifies this`markers, this`hasCenterLocation, this`center
      ensures Step(View(), ok) == RenderOne(locType, data, old(View()))
    {
      var category := CategoryOf(locType);
      if category.None? {
        return true;
      }
      var payload := Lookup(data, locType);
      if payload.None? {
        // `undefined.Home` or `undefined.forEach`
        return false;
      }
      ok := CallExtractor(category.value, payload.value);
    }

    /**
      updateLocations: clear the layer, run the extractor of each active, known category in key
      order, then add the current-location marker.
    */
    method UpdateLocations() returns (done: bool)
      modifies this`markers, this`hasCenterLocation, this`center
      ensures Step(View(), done) == UpdateSpec(activeLocations, data, old(View()), currentLocation)
    {
      markers := [];
      ghost var start := View();
      var activeLocTypes := ActiveNames(activeLocations);
      var i := 0;
      while i < |activeLocTypes|
        invariant 0 <= i <= |activeLocTypes|
        invariant RenderNames(activeLocTypes[..i], data, start) == Step(View(), true)
      {
        RenderNamesStep(activeLocTypes, i, data, start);
        var ok := RenderCategory(activeLocTypes[i]);
        if !ok {
          RenderNamesStopAt(activeLocTypes, i + 1, data, start);
          return false;
        }
        i := i + 1;
      }
      assert activeLocTypes[..i] == activeLocTypes;
      AddMarker(if currentLocation.Some? then At(currentLocation.value) else NotLocated, "Current location");
      done := true;
    }

    /**
      loadLocations(json): keep the document, set every key that is not hidden to true (in
      document order, keeping the keys an earlier import left), then render.
    */
    method LoadLocations(json: Document) returns (done: bool)
      requires Valid()
      modifies this`data, this`activeLocations, this`markers, this`hasCenterLocation, this`center
      ensures Valid() && data == json
      ensures activeLocations == Fill(old(activeLocations), Keys(json))
      ensures Step(View(), done) == UpdateSpec(activeLocations, json, old(View()), currentLocation)
    {
      data := json;
      var locationTypes := Keys(json);
      var i := 0;
      while i < |locationTypes|
        invariant 0 <= i <= |locationTypes|
        invariant activeLocations == Fill(old(activeLocations), locationTypes[..i])
        invariant data == json && View() == old(View())
      {
        var locType := locationTypes[i];
        assert locationTypes[..i + 1][..i] == locationTypes[..i];
        if locType !in HiddenNames {
          activeLocations := Assign(activeLocations, locType, true);
        }
        i := i + 1;
      }
      assert locationTypes[..i] == locationTypes;
      FillKeepsEarlier(old(activeLocations), locationTypes);
      done := UpdateLocations();
    }

    /**
      The checkbox `change` handler of one category: a checkbox exists only for a name the import
      gave an entry. Set that entry to the checkbox state, then render.
    */
    method Toggle(locType: string, checked: bool) returns (done: bool)
      requires Valid() && locType in Keys(activeLocations)
      modifies this`activeLocations, this`markers, this`hasCenterLocation, this`center
      ensures Valid() && activeLocations == Assign(old(activeLocations), locType, checked)
      ensures Keys(activeLocations) == Keys(old(activeLocations))
      ensures Step(View(), done) == UpdateSpec(activeLocations, data, old(View()), currentLocation)
    {
      AssignSpec(activeLocations, locType, checked);
      activeLocations := Assign(activeLocations, locType, checked);
      done := UpdateLocations();
    }
  }
}
