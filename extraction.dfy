/**
  The four extractors of index.js (LocHomeAndWork, LocDailyTopLocs, LocYouHaveVisited,
  LocTopLocPrSixDays) as functions from a category's payload to the markers they add.
  Each extractor scans a coordinate text with `fourNumberReg` and destructures the result; when
  exec gives null the destructuring throws, so the extractor stops there. `Emitted` records the
  markers added before that point and whether the extractor ran to its end.
*/
module Extraction {
  import opened Wrappers
  import opened CoordinateScanner

  /** A map position as the source passes it to Leaflet: two capture strings, never converted. */
  datatype LatLng = LatLng(lat: string, long: string)

  /** What `L.marker` is given: a point, or the `false` that `currentLocation` holds until a geolocation arrives. */
  datatype Place = At(point: LatLng) | NotLocated

  /** One marker of the marker layer, with its tooltip text. */
  datatype Marker = Marker(place: Place, tooltip: string)

  /** One single-key object of a daily or six-day list: the key is the day, the value the coordinate text. */
  datatype DayEntry = DayEntry(day: string, text: string)

  /** One object of "Locations You Have Visited". */
  datatype Visit = Visit(latLong: string, time: string)

  /** The payload of one category of the imported document, by shape. */
  datatype Payload =
    | HomeWork(home: string, work: string)      // an object with "Home" and "Work" texts
    | DayLists(lists: seq<seq<DayEntry>>)       // a list of lists of single-key objects
    | Visits(visits: seq<Visit>)                // a list of { "Latitude, Longitude", "Time" } objects
    | Other                                     // any value none of the extractors can read

  /** The extractors of `typeToFunc`. */
  datatype Category = HomeAndWork | DailyTop | Visited | SixDay

  /** `typeToFunc[name]`: which extractor, if any, a category name selects. */
  function CategoryOf(name: string): (r: Option<Category>)
    ensures r == Some(HomeAndWork) <==> name == "Home & Work"
    ensures r == Some(DailyTop) <==> name == "Daily Top Locations"
    ensures r == Some(Visited) <==> name == "Locations You Have Visited"
    ensures r == Some(SixDay) <==> name == "Top Locations Per Six-Day Period"
  {
    if name == "Home & Work" then Some(HomeAndWork)
    else if name == "Daily Top Locations" then Some(DailyTop)
    else if name == "Locations You Have Visited" then Some(Visited)
    else if name == "Top Locations Per Six-Day Period" then Some(SixDay)
    else None
  }

  const DailyTopHeading := "<b>Daily Top Location</b><br>"
  const VisitedHeading := "<b>Locations You Have Visited</b><br>"
  const SixDayHeading := "<b>Top Locations Per Six-Day Period</b><br>"

  /** The position a marker gets from exec's captures: capture 1, then capture 3. */
  function PointOf(g: Groups): LatLng {
    LatLng(g.lat, g.long)
  }

  /** One coordinate text to scan and the tooltip its marker gets. */
  datatype Record = Record(text: string, tooltip: string)

  /** The records of one inner list, labelled with the heading and the day. */
  function RowRecords(heading: string, row: seq<DayEntry>): (rs: seq<Record>)
    ensures |rs| == |row|
  {
    seq(|row|, k requires 0 <= k < |row| => Record(row[k].text, heading + row[k].day))
  }

  /** The records of a list of lists, in nested order (the two nested forEach loops). */
  function DayRecords(heading: string, lists: seq<seq<DayEntry>>): seq<Record>
    decreases |lists|
  {
    if lists == [] then []
    else DayRecords(heading, lists[..|lists| - 1]) + RowRecords(heading, lists[|lists| - 1])
  }

  /** The records of "Locations You Have Visited", labelled with the heading and the time. */
  function VisitRecords(visits: seq<Visit>): (rs: seq<Record>)
    ensures |rs| == |visits|
  {
    seq(|visits|, k requires 0 <= k < |visits| => Record(visits[k].latLong, VisitedHeading + visits[k].time))
  }

  /** The markers a run of records adds, and whether the run got past its last record. */
  datatype Emitted = Emitted(markers: seq<Marker>, completed: bool)

  /** Associativity of `+` on marker sequences, stated once so the loop proofs can cite it. */
  lemma AppendTwice(layer: seq<Marker>, first: seq<Marker>, second: seq<Marker>)
    ensures layer + first + second == layer + (first + second)
  {
  }

  /** The marker of one record whose text scanned to g. */
  function PinOf(r: Record, g: Groups): Marker {
    Marker(At(PointOf(g)), r.tooltip)
  }

  /** scan, then addMarker, for each record in turn; the first text exec cannot match throws. */
  function Pins(recs: seq<Record>): Emitted
    decreases |recs|
  {
    if recs == [] then Emitted([], true)
    else
      var before := Pins(recs[..|recs| - 1]);
      var r := recs[|recs| - 1];
      if !before.completed then before
      else match Exec(r.text)
        case None => Emitted(before.markers, false)
        case Some(g) => Emitted(before.markers + [PinOf(r, g)], true)
  }

  /**
    Pins adds one marker per record, in record order, built from capture 1 and capture 3 of that
    record's text and labelled with its tooltip, up to the first text exec cannot match; it
    completes exactly when there is no such text.
  */
  lemma {:induction false} PinsSpec(recs: seq<Record>)
    ensures |Pins(recs).markers| <= |recs|
    ensures forall k | 0 <= k < |Pins(recs).markers| ::
      Exec(recs[k].text).Some? && Pins(recs).markers[k] == PinOf(recs[k], Exec(recs[k].text).value)
    ensures Pins(recs).completed <==> |Pins(recs).markers| == |recs|
    ensures !Pins(recs).completed ==> Exec(recs[|Pins(recs).markers|].text).None?
    decreases |recs|
  {
    if recs != [] {
      var init, r := recs[..|recs| - 1], recs[|recs| - 1];
      PinsSpec(init);
      var before, after := Pins(init), Pins(recs);
      forall k | 0 <= k < |after.markers|
        ensures Exec(recs[k].text).Some? && after.markers[k] == PinOf(recs[k], Exec(recs[k].text).value)
      {
        if k < |before.markers| {
          assert recs[k] == init[k];
          assert after.markers[k] == before.markers[k];
        } else {
          assert k == |init| && recs[k] == r;
        }
      }
    }
  }

  /** Once a record throws, later records change nothing: the run stops there. */
  lemma {:induction false} PinsStopAt(recs: seq<Record>, j: nat)
    requires j <= |recs| && !Pins(recs[..j]).completed
    ensures Pins(recs) == Pins(recs[..j])
    decreases |recs| - j
  {
    if j < |recs| {
      var init := recs[..|recs| - 1];
      assert init[..j] == recs[..j];
      PinsStopAt(init, j);
    } else {
      assert recs[..j] == recs;
    }
  }

  /** A record whose text scans to g adds its marker to a run that has not thrown. */
  lemma PinsAdd(recs: seq<Record>, r: Record, g: Groups)
    requires Pins(recs).completed && Exec(r.text) == Some(g)
    ensures Pins(recs + [r]) == Emitted(Pins(recs).markers + [PinOf(r, g)], true)
  {
    assert (recs + [r])[..|recs|] == recs;
  }

  /** A record whose text exec cannot match ends the run with the markers so far. */
  lemma PinsFail(recs: seq<Record>, r: Record)
    requires Pins(recs).completed && Exec(r.text).None?
    ensures Pins(recs + [r]) == Emitted(Pins(recs).markers, false)
  {
    assert (recs + [r])[..|recs|] == recs;
  }

  /** PinsAdd for the record at index k of a run, as a loop over the run takes it. */
  lemma PinsAddAt(recs: seq<Record>, k: nat, g: Groups)
    requires k < |recs| && Pins(recs[..k]).completed && Exec(recs[k].text) == Some(g)
    ensures Pins(recs[..k + 1]) == Emitted(Pins(recs[..k]).markers + [PinOf(recs[k], g)], true)
  {
    var t := recs[..k + 1];
    assert t[..|t| - 1] == recs[..k] && t[|t| - 1] == recs[k];
  }

  /** The first record of a run whose text exec cannot match ends the whole run there. */
  lemma PinsFailAt(recs: seq<Record>, k: nat)
    requires k < |recs| && Pins(recs[..k]).completed && Exec(recs[k].text).None?
    ensures Pins(recs) == Emitted(Pins(recs[..k]).markers, false)
  {
    var t := recs[..k + 1];
    assert t[..|t| - 1] == recs[..k] && t[|t| - 1] == recs[k];
    assert Pins(t) == Emitted(Pins(recs[..k]).markers, false);
    PinsStopAt(recs, k + 1);
  }

  /** A run over two parts is the run over the first, then, if that completed, the run over the second. */
  lemma {:induction false} PinsAppend(a: seq<Record>, b: seq<Record>)
    ensures Pins(a + b) ==
      if Pins(a).completed then Emitted(Pins(a).markers + Pins(b).markers, Pins(b).completed) else Pins(a)
    decreases |b|
  {
    if b == [] {
      assert a + b == a;
    } else {
      var init, r := b[..|b| - 1], b[|b| - 1];
      var ab := a + b;
      assert ab[..|ab| - 1] == a + init && ab[|ab| - 1] == r;
      PinsAppend(a, init);
      if Pins(a).completed && Pins(init).completed && Exec(r.text).Some? {
        AppendTwice(Pins(a).markers, Pins(init).markers, [PinOf(r, Exec(r.text).value)]);
      }
    }
  }

  /** The number of inner objects of a list of lists. */
  function TotalLength(lists: seq<seq<DayEntry>>): nat
    decreases |lists|
  {
    if lists == [] then 0 else TotalLength(lists[..|lists| - 1]) + |lists[|lists| - 1]|
  }

  lemma {:induction false} DayRecordsLength(heading: string, lists: seq<seq<DayEntry>>)
    ensures |DayRecords(heading, lists)| == TotalLength(lists)
    decreases |lists|
  {
    if lists != [] {
      DayRecordsLength(heading, lists[..|lists| - 1]);
    }
  }

  /** The records of the first i lists, followed by those of list i, are those of the first i + 1. */
  lemma DayRecordsStep(heading: string, lists: seq<seq<DayEntry>>, i: nat)
    requires i < |lists|
    ensures DayRecords(heading, lists[..i + 1]) == DayRecords(heading, lists[..i]) + RowRecords(heading, lists[i])
  {
    assert lists[..i + 1][..i] == lists[..i];
  }

  /** The records of the first i lists come first among the records of all of them. */
  lemma {:induction false} DayRecordsPrefix(heading: string, lists: seq<seq<DayEntry>>, i: nat)
    requires i <= |lists|
    ensures |DayRecords(heading, lists[..i])| <= |DayRecords(heading, lists)|
    ensures DayRecords(heading, lists)[..|DayRecords(heading, lists[..i])|] == DayRecords(heading, lists[..i])
    decreases |lists| - i
  {
    if i < |lists| {
      var init := lists[..|lists| - 1];
      assert init[..i] == lists[..i];
      DayRecordsPrefix(heading, init, i);
    } else {
      assert lists[..i] == lists;
    }
  }

  /** The run over the first i + 1 lists is the run over the first i, then the run over list i. */
  lemma DayPinsStep(heading: string, lists: seq<seq<DayEntry>>, i: nat)
    requires i < |lists| && Pins(DayRecords(heading, lists[..i])).completed
    ensures Pins(DayRecords(heading, lists[..i + 1])) ==
      Emitted(Pins(DayRecords(heading, lists[..i])).markers + Pins(RowRecords(heading, lists[i])).markers,
              Pins(RowRecords(heading, lists[i])).completed)
  {
    DayRecordsStep(heading, lists, i);
    PinsAppend(DayRecords(heading, lists[..i]), RowRecords(heading, lists[i]));
  }

  /** Once the run over the first i lists throws, the later lists add nothing. */
  lemma DayPinsStopAt(heading: string, lists: seq<seq<DayEntry>>, i: nat)
    requires i <= |lists| && !Pins(DayRecords(heading, lists[..i])).completed
    ensures Pins(DayRecords(heading, lists)) == Pins(DayRecords(heading, lists[..i]))
  {
    DayRecordsPrefix(heading, lists, i);
    PinsStopAt(DayRecords(heading, lists), |DayRecords(heading, lists[..i])|);
  }

  /**
    Daily Top / Six-Day on a list of lists: when every text scans, one marker per inner object, in
    nested order, as many as there are inner objects, each labelled with the heading and the day.
  */
  lemma DayListMarkers(heading: string, lists: seq<seq<DayEntry>>)
    ensures Pins(DayRecords(heading, lists)).completed ==>
      |Pins(DayRecords(heading, lists)).markers| == TotalLength(lists)
    ensures forall i, j | 0 <= i < |lists| && 0 <= j < |lists[i]| ::
      Pins(DayRecords(heading, lists)).completed ==>
        var k := TotalLength(lists[..i]) + j;
        k < |Pins(DayRecords(heading, lists)).markers|
        && Exec(lists[i][j].text).Some?
        && Pins(DayRecords(heading, lists)).markers[k]
           == Marker(At(PointOf(Exec(lists[i][j].text).value)), heading + lists[i][j].day)
  {
    var recs := DayRecords(heading, lists);
    var out := Pins(recs);
    DayRecordsLength(heading, lists);
    PinsSpec(recs);
    forall i, j | 0 <= i < |lists| && 0 <= j < |lists[i]| && out.completed
      ensures var k := TotalLength(lists[..i]) + j;
        k < |out.markers| && Exec(lists[i][j].text).Some?
        && out.markers[k] == Marker(At(PointOf(Exec(lists[i][j].text).value)), heading + lists[i][j].day)
    {
      DayRecordAt(heading, lists, i, j);
      var k := TotalLength(lists[..i]) + j;
      var r := recs[k];
      assert r == Record(lists[i][j].text, heading + lists[i][j].day);
      assert out.markers[k] == PinOf(r, Exec(r.text).value);
    }
  }

  /** Object j of inner list i gives record number TotalLength(lists[..i]) + j. */
  lemma DayRecordAt(heading: string, lists: seq<seq<DayEntry>>, i: nat, j: nat)
    requires i < |lists| && j < |lists[i]|
    ensures TotalLength(lists[..i]) + j < |DayRecords(heading, lists)|
    ensures DayRecords(heading, lists)[TotalLength(lists[..i]) + j] == Record(lists[i][j].text, heading + lists[i][j].day)
  {
    var all, upto := DayRecords(heading, lists), DayRecords(heading, lists[..i + 1]);
    var before, row := DayRecords(heading, lists[..i]), RowRecords(heading, lists[i]);
    DayRecordsPrefix(heading, lists, i + 1);
    DayRecordsStep(heading, lists, i);
    DayRecordsLength(heading, lists[..i]);
    var k := |before| + j;
    assert upto[k] == row[j];
    assert all[..|upto|][k] == upto[k];
  }

  /**
    Visited on a list of visits: when every text scans, one marker per visit, in order, labelled
    with the heading and that visit's time.
  */
  lemma VisitedMarkers(vs: seq<Visit>)
    ensures Pins(VisitRecords(vs)).completed ==> |Pins(VisitRecords(vs)).markers| == |vs|
    ensures forall k | 0 <= k < |vs| :: Pins(VisitRecords(vs)).completed ==>
      && Exec(vs[k].latLong).Some?
      && Pins(VisitRecords(vs)).markers[k] == Marker(At(PointOf(Exec(vs[k].latLong).value)), VisitedHeading + vs[k].time)
  {
    var recs := VisitRecords(vs);
    PinsSpec(recs);
    forall k | 0 <= k < |vs|
      ensures Pins(recs).completed ==>
        && Exec(vs[k].latLong).Some?
        && Pins(recs).markers[k] == Marker(At(PointOf(Exec(vs[k].latLong).value)), VisitedHeading + vs[k].time)
    {
      assert recs[k] == Record(vs[k].latLong, VisitedHeading + vs[k].time);
    }
  }

  /** The markers one extractor adds for a payload, shape mismatches included. */
  function CategoryMarkers(c: Category, p: Payload): Emitted {
    match c
    case HomeAndWork =>
      // both texts are scanned before either marker is added
      if p.HomeWork? && Exec(p.home).Some? && Exec(p.work).Some? then
        Emitted([Marker(At(PointOf(Exec(p.home).value)), "Home"),
                 Marker(At(PointOf(Exec(p.work).value)), "Work")], true)
      else Emitted([], false)
    case DailyTop => DayListPins(DailyTopHeading, p)
    case SixDay => DayListPins(SixDayHeading, p)
    case Visited =>
      match p
      case Visits(vs) => Pins(VisitRecords(vs))
      // an inner list has no "Latitude, Longitude": exec of undefined is null and throws
      case DayLists(ls) => Emitted([], ls == [])
      case _ => Emitted([], false)
  }

  /** The shared body of LocDailyTopLocs and LocTopLocPrSixDays. */
  function DayListPins(heading: string, p: Payload): Emitted {
    match p
    case DayLists(ls) => Pins(DayRecords(heading, ls))
    // a visit object has no forEach: the call throws at the first one
    case Visits(vs) => Emitted([], vs == [])
    case _ => Emitted([], false)
  }

  /** The point LocHomeAndWork centres the map on when it gets past both scans: the Home point. */
  function HomePoint(c: Category, p: Payload): Option<LatLng> {
    if c == HomeAndWork && p.HomeWork? && Exec(p.home).Some? && Exec(p.work).Some?
    then Some(PointOf(Exec(p.home).value))
    else None
  }

  /** The state an extractor touches: the marker layer, `hasCenterLocation` and the view centre. */
  datatype MapView = MapView(markers: seq<Marker>, hasCenter: bool, center: Option<LatLng>)

  /** A map state and whether the pass that led to it ran to its end (false: it threw). */
  datatype Step = Step(view: MapView, completed: bool)

  /** One extractor call: its markers are appended, and the Home point becomes the centre if none is set. */
  function Extract(c: Category, p: Payload, v: MapView): Step {
    var e := CategoryMarkers(c, p);
    var home := HomePoint(c, p);
    var view :=
      if home.Some? && !v.hasCenter then MapView(v.markers + e.markers, true, home)
      else MapView(v.markers + e.markers, v.hasCenter, v.center);
    Step(view, e.completed)
  }

  /**
    Home & Work: exactly two markers, "Home" then "Work", from capture 1 and 3 of each text, when
    both texts scan; the Home point becomes the view centre only when no centre was set.
    When either text does not scan, nothing changes and the call throws.
  */
  lemma HomeAndWorkEffect(home: string, work: string, v: MapView)
    ensures var st := Extract(HomeAndWork, HomeWork(home, work), v);
      && (st.completed <==> Exec(home).Some? && Exec(work).Some?)
      && (st.completed ==>
            && |st.view.markers| == |v.markers| + 2
            && st.view.markers[..|v.markers|] == v.markers
            && st.view.markers[|v.markers|] == Marker(At(LatLng(Exec(home).value.lat, Exec(home).value.long)), "Home")
            && st.view.markers[|v.markers| + 1] == Marker(At(LatLng(Exec(work).value.lat, Exec(work).value.long)), "Work")
            && st.view.hasCenter
            && st.view.center == (if v.hasCenter then v.center else Some(LatLng(Exec(home).value.lat, Exec(home).value.long))))
      && (!st.completed ==> st.view == v)
  {
    var st := Extract(HomeAndWork, HomeWork(home, work), v);
    if !st.completed {
      assert v.markers + [] == v.markers;
    }
  }
}
