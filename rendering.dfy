/**
  The render pass of index.js, `updateLocations`: clear the marker layer, run the extractor of
  every active category that `typeToFunc` knows, in key order, then add the current-location
  marker. An extractor that throws ends the pass; the markers added until then stay on the layer.
*/
module Rendering {
  import opened Wrappers
  import opened Selection
  import opened Extraction

  /** The imported document: its top-level keys in order, each with its payload. */
  type Document = seq<(string, Payload)>

  /** `data[name]`: the payload of a top-level key, or None where JavaScript gives undefined. */
  function Lookup(data: Document, name: string): (r: Option<Payload>)
    ensures r.Some? <==> name in Keys(data)
    ensures r.Some? ==> (name, r.value) in data
    decreases |data|
  {
    if data == [] then None
    else if data[0].0 == name then assert Keys(data)[0] == name; Some(data[0].1)
    else
      assert Keys(data) == [data[0].0] + Keys(data[1..]);
      Lookup(data[1..], name)
  }

  /** The step for one active category: unknown names are skipped, a missing payload throws. */
  function RenderOne(name: string, data: Document, v: MapView): Step {
    match CategoryOf(name)
    case None => Step(v, true)
    case Some(c) =>
      match Lookup(data, name)
      // `undefined.Home` or `undefined.forEach`: a TypeError
      case None => Step(v, false)
      case Some(p) => Extract(c, p, v)
  }

  /** The markers one active category adds on its own, unknown names adding none. */
  function Contribution(name: string, data: Document): Emitted {
    match CategoryOf(name)
    case None => Emitted([], true)
    case Some(c) =>
      match Lookup(data, name)
      case None => Emitted([], false)
      case Some(p) => CategoryMarkers(c, p)
  }

  /** The forEach over the active names, from a given map state. */
  function RenderNames(names: seq<string>, data: Document, v: MapView): Step
    decreases |names|
  {
    if names == [] then Step(v, true)
    else
      var before := RenderNames(names[..|names| - 1], data, v);
      if !before.completed then before else RenderOne(names[|names| - 1], data, before.view)
  }

  /**
    The reference: the contributions of the names concatenated in order, up to and including the
    first one that throws.
  */
  function Chain(names: seq<string>, data: Document): Emitted
    decreases |names|
  {
    if names == [] then Emitted([], true)
    else
      var first := Contribution(names[0], data);
      if !first.completed then first
      else
        var rest := Chain(names[1..], data);
        Emitted(first.markers + rest.markers, rest.completed)
  }

  lemma {:induction false} ChainSnoc(names: seq<string>, n: string, data: Document)
    ensures Chain(names + [n], data) ==
      if !Chain(names, data).completed then Chain(names, data)
      else Emitted(Chain(names, data).markers + Contribution(n, data).markers, Contribution(n, data).completed)
    decreases |names|
  {
    if names == [] {
      assert [n][1..] == [];
      assert Contribution(n, data).markers + [] == Contribution(n, data).markers;
    } else {
      assert (names + [n])[0] == names[0];
      assert (names + [n])[1..] == names[1..] + [n];
      ChainSnoc(names[1..], n, data);
      AppendTwice(Contribution(names[0], data).markers, Chain(names[1..], data).markers, Contribution(n, data).markers);
    }
  }

  /** An active category that `typeToFunc` does not know contributes nothing wherever it stands. */
  lemma {:induction false} ChainSkipsUnknown(a: seq<string>, n: string, b: seq<string>, data: Document)
    requires CategoryOf(n).None?
    ensures Chain(a + [n] + b, data) == Chain(a + b, data)
    decreases |a|
  {
    if a == [] {
      assert a + [n] + b == [n] + b && a + b == b;
      assert ([n] + b)[1..] == b;
      assert [] + Chain(b, data).markers == Chain(b, data).markers;
    } else {
      assert (a + [n] + b)[0] == a[0] && (a + b)[0] == a[0];
      assert (a + [n] + b)[1..] == a[1..] + [n] + b;
      assert (a + b)[1..] == a[1..] + b;
      ChainSkipsUnknown(a[1..], n, b, data);
    }
  }

  /** Each step appends that category's own markers to the layer and nothing else. */
  lemma RenderOneMarkers(name: string, data: Document, v: MapView)
    ensures RenderOne(name, data, v).view.markers == v.markers + Contribution(name, data).markers
    ensures RenderOne(name, data, v).completed == Contribution(name, data).completed
  {
    if CategoryOf(name).None? || Lookup(data, name).None? {
      assert v.markers + [] == v.markers;
    }
  }

  /**
    The markers of a pass are the markers the layer had, followed by the concatenation of the
    active categories' own markers; they do not depend on the centre.
  */
  lemma {:induction false} RenderNamesMarkers(names: seq<string>, data: Document, v: MapView)
    ensures RenderNames(names, data, v).view.markers == v.markers + Chain(names, data).markers
    ensures RenderNames(names, data, v).completed == Chain(names, data).completed
    decreases |names|
  {
    if names == [] {
      assert v.markers + [] == v.markers;
    } else {
      var init, n := names[..|names| - 1], names[|names| - 1];
      assert names == init + [n];
      RenderNamesMarkers(init, data, v);
      ChainSnoc(init, n, data);
      var before := RenderNames(init, data, v);
      if before.completed {
        RenderOneMarkers(n, data, before.view);
        AppendTwice(v.markers, Chain(init, data).markers, Contribution(n, data).markers);
      }
    }
  }

  /** Once a category throws, the names after it are never reached. */
  lemma {:induction false} RenderNamesStopAt(names: seq<string>, j: nat, data: Document, v: MapView)
    requires j <= |names| && !RenderNames(names[..j], data, v).completed
    ensures RenderNames(names, data, v) == RenderNames(names[..j], data, v)
    decreases |names| - j
  {
    if j < |names| {
      var init := names[..|names| - 1];
      assert init[..j] == names[..j];
      RenderNamesStopAt(init, j, data, v);
    } else {
      assert names[..j] == names;
    }
  }

  /** The names before position i + 1, in the form the render loop takes a step. */
  lemma RenderNamesStep(names: seq<string>, i: nat, data: Document, v: MapView)
    requires i < |names|
    ensures RenderNames(names[..i + 1], data, v) ==
      var before := RenderNames(names[..i], data, v);
      if !before.completed then before else RenderOne(names[i], data, before.view)
  {
    assert names[..i + 1][..i] == names[..i];
  }

  /** `addMarker(currentLocation, "Current location")`; without a geolocation the source passes `false`. */
  function CurrentMarker(current: Option<LatLng>): Marker {
    Marker(if current.Some? then At(current.value) else NotLocated, "Current location")
  }

  /** updateLocations from map state v, with the current location as it stands. */
  function UpdateSpec(sel: Entries, data: Document, v: MapView, current: Option<LatLng>): Step {
    var st := RenderNames(ActiveNames(sel), data, v.(markers := []));
    if st.completed then Step(st.view.(markers := st.view.markers + [CurrentMarker(current)]), true)
    else st
  }

  /**
    Render pass: all earlier markers are discarded; the new layer is the concatenation, over the
    active categories in key order, of what each known extractor adds, then the current-location
    marker last. When an extractor throws, the layer keeps what was added before the throw and
    the current-location marker is not added.
  */
  lemma UpdateMarkers(sel: Entries, data: Document, v: MapView, current: Option<LatLng>)
    ensures UpdateSpec(sel, data, v, current).completed == Chain(ActiveNames(sel), data).completed
    ensures UpdateSpec(sel, data, v, current).view.markers ==
      if Chain(ActiveNames(sel), data).completed
      then Chain(ActiveNames(sel), data).markers + [CurrentMarker(current)]
      else Chain(ActiveNames(sel), data).markers
  {
    RenderNamesMarkers(ActiveNames(sel), data, v.(markers := []));
  }

  /** No residue: two passes over the same selection and document leave the same markers, whatever was drawn before. */
  lemma NoStaleMarkers(sel: Entries, data: Document, v1: MapView, v2: MapView, current: Option<LatLng>)
    ensures UpdateSpec(sel, data, v1, current).view.markers == UpdateSpec(sel, data, v2, current).view.markers
  {
    UpdateMarkers(sel, data, v1, current);
    UpdateMarkers(sel, data, v2, current);
  }

  /**
    Toggling an active category off and then on again leaves the marker layer as it would be had
    the checkbox never been touched.
  */
  lemma ToggleOffOnMarkers(sel: Entries, k: string, data: Document, v1: MapView, v2: MapView,
                           current: Option<LatLng>)
    requires Distinct(Keys(sel)) && (k, true) in sel
    ensures UpdateSpec(Assign(Assign(sel, k, false), k, true), data, v1, current).view.markers
         == UpdateSpec(sel, data, v2, current).view.markers
  {
    ToggleRestores(sel, k, true);
    NoStaleMarkers(sel, data, v1, v2, current);
  }
}
