/** `MarkerPointLayer`: points become URL markers whose shape type is made to
    match WorldWind's shape constants exactly, and a select listener keeps at
    most one marker highlighted with a tooltip showing for it. */
module MarkerLayers {
  import opened Wrappers
  import Text

  /** WorldWind's `BasicMarkerShape` constants, in the order the code tests them:
      sphere, cone, cylinder, heading arrow, heading line, then the oriented
      sphere, cone, cylinder, sphere line, cone line and cylinder line. */
  const ShapeTypes: seq<string> := [
    "gov.nasa.worldwind.render.markers.Sphere",
    "gov.nasa.worldwind.render.markers.Cone",
    "gov.nasa.worldwind.render.markers.Cylinder",
    "gov.nasa.worldwind.render.markers.HeadingArrow",
    "gov.nasa.worldwind.render.markers.HeadingLine",
    "gov.nasa.worldwind.render.markers.DirectionalSphere",
    "gov.nasa.worldwind.render.markers.DirectionalCone",
    "gov.nasa.worldwind.render.markers.DirectionalCylinder",
    "gov.nasa.worldwind.render.markers.DirectionalSphereLine",
    "gov.nasa.worldwind.render.markers.DirectionalConeLine",
    "gov.nasa.worldwind.render.markers.DirectionalCylinderLine"]

  /** `fixShapeType` over any list of canonical names: a missing shape type stays
      missing, one equal ignoring case to a canonical name becomes the first such
      name, and any other is left as it is. */
  function FixShapeTypeAmong(names: seq<string>, shapeType: Option<string>): (r: Option<string>)
    ensures shapeType.None? ==> r.None?
    ensures shapeType.Some? && (forall j :: 0 <= j < |names| ==> !Text.EqualsIgnoreCase(names[j], shapeType.value)) ==> r == shapeType
    ensures shapeType.Some? && r != shapeType ==> r.Some? && r.value in names && Text.EqualsIgnoreCase(r.value, shapeType.value)
  {
    match shapeType
    case None => None
    case Some(s) =>
      match Text.FirstEqualIgnoringCase(names, s)
      case Some(i) => Some(names[i])
      case None => shapeType
  }

  function FixShapeType(shapeType: Option<string>): (r: Option<string>)
    ensures r == FixShapeTypeAmong(ShapeTypes, shapeType)
  {
    FixShapeTypeAmong(ShapeTypes, shapeType)
  }

  /** Fixing a fixed shape type changes nothing, whatever the canonical names:
      a canonical name found first for `s` is also the first found for itself. */
  lemma FixShapeTypeIdempotent(names: seq<string>, shapeType: Option<string>)
    ensures FixShapeTypeAmong(names, FixShapeTypeAmong(names, shapeType)) == FixShapeTypeAmong(names, shapeType)
  {
    if shapeType.Some? {
      var s := shapeType.value;
      var o := Text.FirstEqualIgnoringCase(names, s);
      if o.Some? {
        var i := o.value;
        var c := names[i];
        Text.EqualsIgnoreCaseIsLowerEquality(c, c);
        var o2 := Text.FirstEqualIgnoringCase(names, c);
        assert o2.Some? && o2.value <= i;
        if o2.value < i {
          assert false;
        }
      }
    }
  }

  /** A shape type that differs from a canonical name only in case becomes that
      name, provided no earlier canonical name also matches it. */
  lemma FixShapeTypeCanonicalises(names: seq<string>, i: nat, s: string)
    requires i < |names| && Text.EqualsIgnoreCase(names[i], s)
    requires forall j :: 0 <= j < i ==> !Text.EqualsIgnoreCase(names[j], s)
    ensures FixShapeTypeAmong(names, Some(s)) == Some(names[i])
  {
    var o := Text.FirstEqualIgnoringCase(names, s);
    assert o.Some?;
    if o.value > i {
      assert false;
    }
  }

  datatype Position = Position(latitude: real, longitude: real, elevation: real)

  /** A `UrlMarker`; `ref` tells apart markers made by separate `addPoint` calls. */
  datatype UrlMarker = UrlMarker(ref: nat, position: Position, shapeType: Option<string>, url: Option<string>, tooltipText: Option<string>)

  /** What the point style gives a new marker: its link, its text and the shape
      type the style's attributes name. */
  datatype PointProperties = PointProperties(link: Option<string>, text: Option<string>, shapeType: Option<string>)

  datatype Tooltip = Tooltip(text: Option<string>, position: Position, visible: bool)

  datatype Layer = Layer(markers: seq<UrlMarker>, picked: Option<UrlMarker>, highlighted: set<UrlMarker>, tooltip: Tooltip)

  /** The constructed layer: no markers, nothing picked, tooltip hidden. */
  const Initial := Layer([], None, {}, Tooltip(Some(""), Position(0.0, 0.0, 0.0), false))

  /** At most the picked marker is highlighted, and the tooltip shows exactly
      while a marker is picked. */
  predicate Valid(l: Layer) {
    && l.highlighted == (if l.picked.Some? then {l.picked.value} else {})
    && (l.tooltip.visible <==> l.picked.Some?)
  }

  lemma InitialIsValid()
    ensures Valid(Initial) && Initial.picked.None?
  {
  }

  /** `addPoint`: exactly one marker is appended, carrying the style's link and
      text and the fixed shape type. */
  function AddPoint(l: Layer, position: Position, properties: PointProperties): (l': Layer)
    ensures |l'.markers| == |l.markers| + 1 && l'.markers[..|l.markers|] == l.markers
    ensures var m := l'.markers[|l.markers|];
      && m.position == position && m.url == properties.link && m.tooltipText == properties.text
      && m.shapeType == FixShapeType(properties.shapeType)
    ensures l' == l.(markers := l'.markers)
  {
    var m := UrlMarker(|l.markers|, position, FixShapeType(properties.shapeType), properties.link, properties.text);
    var l' := l.(markers := l.markers + [m]);
    assert l'.markers[..|l.markers|] == l.markers;
    l'
  }

  /** `highlight`. */
  function Highlight(l: Layer, m: UrlMarker, on: bool): (l': Layer)
    ensures on ==> l'.highlighted == l.highlighted + {m} && l'.tooltip == Tooltip(m.tooltipText, m.position, true)
    ensures !on ==> l'.highlighted == l.highlighted - {m} && l'.tooltip == l.tooltip.(visible := false)
    ensures l'.markers == l.markers && l'.picked == l.picked
  {
    if on then l.(highlighted := l.highlighted + {m}, tooltip := Tooltip(m.tooltipText, m.position, true))
    else l.(highlighted := l.highlighted - {m}, tooltip := l.tooltip.(visible := false))
  }

  datatype PickedObject = PickedMarker(marker: UrlMarker) | PickedOther

  datatype EventAction = LeftClick | Rollover | Hover | OtherAction

  datatype SelectEvent = SelectEvent(top: Option<PickedObject>, action: EventAction)

  /** `selected`: returns the new layer state and the link to open, if any. */
  function Selected(l: Layer, e: Option<SelectEvent>): (r: (Layer, Option<string>))
    ensures e.None? ==> r == (l, None)
    ensures e.Some? && e.value.top.Some? && e.value.top.value.PickedMarker? ==>
      var m := e.value.top.value.marker;
      && r.0.picked == Some(m)
      && m in r.0.highlighted
      && r.0.tooltip == Tooltip(m.tooltipText, m.position, true)
      && r.1 == (if e.value.action == LeftClick then m.url else None)
    ensures e.Some? && !(e.value.top.Some? && e.value.top.value.PickedMarker?) ==>
      r.1.None? && r.0.picked.None? && r.0.markers == l.markers
      && (l.picked.Some? ==> l.picked.value !in r.0.highlighted && !r.0.tooltip.visible)
      && (l.picked.None? ==> r.0 == l)
    ensures r.0.markers == l.markers
    ensures Valid(l) ==> Valid(r.0)
  {
    match e
    case None => (l, None)
    case Some(ev) =>
      if ev.top.Some? && ev.top.value.PickedMarker? then
        var m := ev.top.value.marker;
        var l1 := if l.picked.Some? then Highlight(l, l.picked.value, false) else l;
        var l2 := Highlight(l1.(picked := Some(m)), m, true);
        (l2, if ev.action == LeftClick then m.url else None)
      else if l.picked.Some? then
        (Highlight(l, l.picked.value, false).(picked := None), None)
      else (l, None)
  }

  /** Whatever sequence of events arrives, at most one marker is highlighted and
      the tooltip shows exactly while one is picked. */
  lemma {:induction false} SelectionKeepsOneHighlight(l: Layer, events: seq<Option<SelectEvent>>)
    requires Valid(l)
    ensures Valid(Replay(l, events)) && |Replay(l, events).highlighted| <= 1
    decreases |events|
  {
    if |events| > 0 {
      SelectionKeepsOneHighlight(Selected(l, events[0]).0, events[1..]);
    } else {
      assert |l.highlighted| <= 1;
    }
  }

  function Replay(l: Layer, events: seq<Option<SelectEvent>>): Layer
    decreases |events|
  {
    if |events| == 0 then l else Replay(Selected(l, events[0]).0, events[1..])
  }
}
