/** The per-feature callbacks handed to the GeoJSON layer in
    static/js/logic.js: `style` and the popup text bound in `onEachFeature`. */
module FeatureLayer {
  import opened Wrappers
  import DepthColor

  /** A GeoJSON position list: longitude, latitude and, optionally, depth. */
  datatype Geometry = Geometry(coordinates: seq<real>)

  /** The two feature properties the script reads, already rendered as text. */
  datatype Properties = Properties(mag: string, place: string)

  datatype Feature = Feature(geometry: Geometry, properties: Properties)

  /** The path options the `style` callback returns. */
  datatype PathStyle = PathStyle(
    opacity: real,
    fillOpacity: real,
    fillColor: Option<string>,
    color: string,
    stroke: bool,
    weight: real)

  /** `feature.geometry.coordinates[2]`; `undefined` when the position has no
      third element. */
  function Depth(f: Feature): (d: Option<real>)
    ensures d.Some? <==> |f.geometry.coordinates| > 2
  {
    if |f.geometry.coordinates| > 2 then Some(f.geometry.coordinates[2]) else None
  }

  /** `color(feature.geometry.coordinates[2])`: an `undefined` depth fails every
      `>` test of `color` and so also yields `undefined`. */
  function FillColor(depth: Option<real>): (c: Option<string>)
    ensures c.Some? <==> depth.Some? && depth.value > 20.0
  {
    match depth
    case None => None
    case Some(d) => DepthColor.Color(d)
  }

  /** The `style` callback. */
  function Style(f: Feature): (r: PathStyle)
    ensures r.fillColor.Some? <==> |f.geometry.coordinates| > 2 && f.geometry.coordinates[2] > 20.0
  {
    PathStyle(
      opacity := 1.0,
      fillOpacity := 1.0,
      fillColor := FillColor(Depth(f)),
      color := "#07260a",
      stroke := true,
      weight := 0.5)
  }

  /** Every field but `fillColor` is the same for all features. */
  lemma StyleConstantFields(f: Feature)
    ensures Style(f).opacity == 1.0 && Style(f).fillOpacity == 1.0
    ensures Style(f).color == "#07260a" && Style(f).stroke && Style(f).weight == 0.5
  {
  }

  /** The style depends on a feature only through its third coordinate. */
  lemma StyleDependsOnlyOnDepth(f1: Feature, f2: Feature)
    requires Depth(f1) == Depth(f2)
    ensures Style(f1) == Style(f2)
  {
  }

  /** The fill colour is the marker colour of the feature's depth. */
  lemma StyleFillColorIsDepthColor(f: Feature)
    requires |f.geometry.coordinates| > 2
    ensures Style(f).fillColor == DepthColor.Color(f.geometry.coordinates[2])
  {
  }

  const MagnitudeLabel: string := "Magnitude: "
  const LocationLabel: string := "<br> Location: "

  /** The popup text `onEachFeature` binds to a feature's layer: the magnitude
      and the place, each after its label. */
  function PopupText(p: Properties): (r: string)
    ensures |r| == |MagnitudeLabel| + |p.mag| + |LocationLabel| + |p.place|
    ensures r[..|MagnitudeLabel|] == MagnitudeLabel
    ensures r[|r| - |p.place|..] == p.place
  {
    MagnitudeLabel + p.mag + LocationLabel + p.place
  }

  /** The first position of `c` in `s`, if any. */
  function IndexOf(s: string, c: char): (r: Option<nat>)
    ensures r.None? ==> c !in s
    ensures r.Some? ==> r.value < |s| && s[r.value] == c && c !in s[..r.value]
  {
    if s == [] then None
    else if s[0] == c then Some(0)
    else match IndexOf(s[1..], c)
      case None => None
      case Some(k) => assert s[1..][..k] == s[1..k + 1]; Some(k + 1)
  }

  /** Splits a popup text back into magnitude and place. The magnitude ends at
      the first '<', which starts the location label. */
  function ParsePopup(s: string): (r: Option<(string, string)>)
  {
    var m := |MagnitudeLabel|;
    if |s| < m || s[..m] != MagnitudeLabel then None
    else
      var rest := s[m..];
      match IndexOf(rest, '<')
      case None => None
      case Some(k) =>
        var tail := rest[k..];
        if |tail| < |LocationLabel| || tail[..|LocationLabel|] != LocationLabel then None
        else Some((rest[..k], tail[|LocationLabel|..]))
  }

  /** The first '<' of `mag + LocationLabel + place` is the one that opens the
      label, when `mag` has none. */
  lemma IndexOfLabel(mag: string, place: string)
    requires '<' !in mag
    ensures IndexOf(mag + LocationLabel + place, '<') == Some(|mag|)
  {
    var s := mag + LocationLabel + place;
    assert s[|mag|] == '<';
    assert s[..|mag|] == mag;
  }

  /** A magnitude without '<' and any place are recovered from the popup text;
      a magnitude number rendered as text never contains '<'. */
  lemma {:induction false} PopupRoundTrip(mag: string, place: string)
    requires '<' !in mag
    ensures ParsePopup(PopupText(Properties(mag, place))) == Some((mag, place))
  {
    var s := PopupText(Properties(mag, place));
    var m := |MagnitudeLabel|;
    var rest := s[m..];
    assert rest == mag + LocationLabel + place;
    IndexOfLabel(mag, place);
    assert rest[..|mag|] == mag;
    assert rest[|mag|..] == LocationLabel + place;
  }

  /** Conversely, whatever parses is exactly the popup text of what it parses to. */
  lemma ParsePopupSound(s: string)
    requires ParsePopup(s).Some?
    ensures s == PopupText(Properties(ParsePopup(s).value.0, ParsePopup(s).value.1))
    ensures '<' !in ParsePopup(s).value.0
  {
    var m := |MagnitudeLabel|;
    var rest := s[m..];
    var k := IndexOf(rest, '<').value;
    var tail := rest[k..];
    assert s == s[..m] + rest;
    assert rest == rest[..k] + tail;
    assert tail == tail[..|LocationLabel|] + tail[|LocationLabel|..];
  }
}
