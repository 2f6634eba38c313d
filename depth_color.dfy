/** The depth-to-colour bucketing of earthquake markers: `color(depth)` in
    static/js/logic.js. Depth is the third element of a GeoJSON position, in
    kilometres; only comparisons are made on it, so it is a `real` here. */
module DepthColor {
  import opened Wrappers

  /** The five band boundaries, shallowest first. */
  const Thresholds: seq<real> := [20.0, 40.0, 60.0, 80.0, 100.0]

  /** The marker palette: `MarkerPalette[k]` is the colour of a depth in
      (Thresholds[k], Thresholds[k + 1]], the last band being unbounded above. */
  const MarkerPalette: seq<string> := ["#f0f005", "#f0d105", "#f09a05", "#d43d0b", "#9c0909"]

  /** `color(depth)`: strict `>` tests from the deepest threshold down, the first
      match wins; a depth of 20 or less matches no case and gives `undefined`. */
  function Color(depth: real): (r: Option<string>)
    ensures r.Some? <==> depth > 20.0
    ensures r.Some? ==> r.value in MarkerPalette
  {
    if depth > 100.0 then Some("#9c0909")
    else if depth > 80.0 then Some("#d43d0b")
    else if depth > 60.0 then Some("#f09a05")
    else if depth > 40.0 then Some("#f0d105")
    else if depth > 20.0 then Some("#f0f005")
    else None
  }

  /** How many of the thresholds `ts` lie strictly below `depth`. */
  function CountBelow(ts: seq<real>, depth: real): (n: nat)
    ensures n <= |ts|
  {
    if ts == [] then 0 else (if ts[0] < depth then 1 else 0) + CountBelow(ts[1..], depth)
  }

  /** The band of a depth, independently of `Color`: 0 for no colour, k > 0 for
      the k-th marker colour. */
  function Band(depth: real): nat {
    CountBelow(Thresholds, depth)
  }

  predicate StrictlyAscending(ts: seq<real>) {
    forall i, j :: 0 <= i < j < |ts| ==> ts[i] < ts[j]
  }

  /** With ascending thresholds, exactly the first `k` lie below `depth`. */
  lemma {:induction false} CountBelowExact(ts: seq<real>, depth: real, k: nat)
    requires StrictlyAscending(ts) && k <= |ts|
    requires forall i :: 0 <= i < k ==> ts[i] < depth
    requires forall i :: k <= i < |ts| ==> depth <= ts[i]
    ensures CountBelow(ts, depth) == k
    decreases |ts|
  {
    if ts != [] {
      var tail := ts[1..];
      if k == 0 {
        CountBelowExact(tail, depth, 0);
      } else {
        CountBelowExact(tail, depth, k - 1);
      }
    }
  }

  /** `Color` agrees with the band reference definition. */
  lemma ColorIsBand(depth: real)
    ensures Band(depth) <= |MarkerPalette|
    ensures Color(depth) == if Band(depth) == 0 then None else Some(MarkerPalette[Band(depth) - 1])
  {
    var ts := Thresholds;
    var k := if depth > 100.0 then 5 else if depth > 80.0 then 4 else if depth > 60.0 then 3
             else if depth > 40.0 then 2 else if depth > 20.0 then 1 else 0;
    CountBelowExact(ts, depth, k);
  }

  /** Counting thresholds below a depth is monotone in the depth. */
  lemma {:induction false} CountBelowMonotone(ts: seq<real>, d1: real, d2: real)
    requires d1 <= d2
    ensures CountBelow(ts, d1) <= CountBelow(ts, d2)
    decreases |ts|
  {
    if ts != [] {
      CountBelowMonotone(ts[1..], d1, d2);
    }
  }

  /** A deeper earthquake never falls in a shallower band. */
  lemma BandMonotone(d1: real, d2: real)
    requires d1 <= d2
    ensures Band(d1) <= Band(d2)
  {
    CountBelowMonotone(Thresholds, d1, d2);
  }

  /** Once a depth has a colour, every deeper one has a colour, and its palette
      position is at least as deep. */
  lemma ColorMonotone(d1: real, d2: real)
    requires d1 <= d2
    ensures Color(d1).Some? ==> Color(d2).Some?
    ensures forall j, k ::
      (0 <= j < |MarkerPalette| && 0 <= k < |MarkerPalette| &&
       Color(d1) == Some(MarkerPalette[j]) && Color(d2) == Some(MarkerPalette[k])) ==> j <= k
  {
    BandMonotone(d1, d2);
    ColorIsBand(d1);
    ColorIsBand(d2);
  }

  /** Band `k` is the half-open interval (Thresholds[k], Thresholds[k + 1]],
      unbounded above for the deepest band. */
  lemma ColorBand(depth: real, k: nat)
    requires k < |MarkerPalette|
    ensures Color(depth) == Some(MarkerPalette[k]) <==>
      Thresholds[k] < depth && (k + 1 == |Thresholds| || depth <= Thresholds[k + 1])
  {
  }

  /** A depth strictly beyond 100 km is drawn in the deepest colour. */
  lemma DeepestColor(depth: real)
    requires depth > 100.0
    ensures Color(depth) == Some("#9c0909")
  {
  }

  /** No colour for 20 km or shallower: 20 itself, zero and negative depths. */
  lemma NoColorWhenShallow(depth: real)
    ensures Color(depth) == None <==> depth <= 20.0
  {
  }

  /** Each boundary belongs to the band below it, because the tests are strict. */
  lemma BoundariesBelongBelow()
    ensures Color(100.0) == Some("#d43d0b")
    ensures Color(80.0) == Some("#f09a05")
    ensures Color(60.0) == Some("#f0d105")
    ensures Color(40.0) == Some("#f0f005")
    ensures Color(20.0) == None && Color(0.0) == None && Color(-5.0) == None
  {
  }

  /** For a depth past 20 km exactly one palette entry is returned. */
  lemma ExactlyOneColor(depth: real)
    requires depth > 20.0
    ensures exists k :: 0 <= k < |MarkerPalette| && Color(depth) == Some(MarkerPalette[k])
    ensures forall j ::
      (0 <= j < |MarkerPalette| && Color(depth) == Some(MarkerPalette[j])) ==> j == Band(depth) - 1
  {
    ColorIsBand(depth);
    var k := Band(depth) - 1;
    assert Color(depth) == Some(MarkerPalette[k]);
  }

  /** Two depths get the same result exactly when they lie in the same band. */
  lemma SameColorSameBand(d1: real, d2: real)
    ensures Color(d1) == Color(d2) <==> Band(d1) == Band(d2)
  {
    ColorIsBand(d1);
    ColorIsBand(d2);
  }
}
