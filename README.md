# Earthquake map encoding, modelled in Dafny

The script `static/js/logic.js` draws one day of earthquakes from a GeoJSON
feature collection on a Leaflet map. Apart from calls into Leaflet and d3, it
has three pieces of logic of its own, and this project models and proves them:

- **Depth colour** (`DepthColor`, `depth_color.dfy`): `color(depth)` tests
  `depth > 100`, `> 80`, `> 60`, `> 40` and `> 20` in that order, and the first
  test that holds picks the colour. A depth of 20 km or less matches none of
  them, so the function returns `undefined`. The model keeps this gap:
  `Color` returns `Option<string>`, and `None` stands for `undefined`.
  `Band`, which counts the thresholds strictly below a depth, is a second,
  independent definition. The lemmas tie `Color` to `Band` and prove that
  `Band` is monotone in the depth.
- **Per-feature style and popup** (`FeatureLayer`, `feature_layer.dfy`): the
  `style` callback returns a constant record except for `fillColor`, which is
  the colour of the third coordinate of the feature's position. The popup text
  is `"Magnitude: " + mag + "<br> Location: " + place`. `ParsePopup` splits a
  popup text back into its two parts, and two lemmas prove that it inverts the popup text in both directions for a magnitude text
  without '<', which no JavaScript number text contains.
- **Legend markup** (`Legend`, `legend.dfy`): `legend.onAdd` loops over
  `grades = [0, 20, 40, 60, 80, 100]` and a six-entry `colors` table. On each
  pass it appends one fragment to the legend's `innerHTML`. `OnAdd` is that
  loop over a string accumulator that collects the text appended, and it is
  proved equal to `LegendMarkup`, the concatenation of the fragments. What the
  browser makes of that text once assigned to `innerHTML` is not modelled.
  The markup is kept exactly as the script writes it:
  - the typographic quote `”`;
  - the unclosed `<i>` tag;
  - the colour followed directly by the grade number (`#0261170`).

  `Fragment` models JavaScript's truthiness test on `grades[i + 1]`: an
  `undefined` or `0` grade gives `"+"`. A lemma proves that for strictly
  ascending grades this test fails exactly at the last grade.

Two helper modules sit beside these. `Wrappers` holds the `Option` type.
`Decimal` renders grade numbers as decimal text, which is what JavaScript's
`"" + 20` does for the small integers used as grades, and proves that this text
reads back to the same number.

`color` is partial: depths of 20 km and less give `undefined`, and the model
keeps `None` there rather than adding a fallback colour.

The legend palette (`#026117` … `#10075c`) and the marker palette (`#f0f005`
… `#9c0909`) are different tables in the code. The model keeps them apart and
proves that they share no colour. The legend also shows a 0–20 band that no
marker colour corresponds to.

When a position has no third element, `coordinates[2]` is `undefined`. Every
`>` test in `color` is then false, so `fillColor` is `undefined`. `Depth` and
`FillColor` model this case with `None`.

## Model

| member | source | states |
|---|---|---|
| DepthColor.Color | static/js/logic.js:88-101 | a colour is returned exactly when depth > 20, and it is always one of the five marker colours |
| DepthColor.ColorIsBand | static/js/logic.js:88-101 | `Color` matches the independent band count: no colour when no threshold lies below the depth, otherwise the palette entry for the number of thresholds passed |
| DepthColor.CountBelowMonotone | static/js/logic.js:89-99 | for any threshold list, the number of thresholds below a depth never decreases as the depth grows |
| DepthColor.BandMonotone | static/js/logic.js:89-99 | if d1 <= d2 then the band of d2 is at least the band of d1 |
| DepthColor.ColorMonotone | static/js/logic.js:89-99 | a deeper quake keeps a colour once a shallower one has one, and its palette position is never shallower |
| DepthColor.ColorBand | static/js/logic.js:89-99 | colour k is returned exactly for depths in the half-open band (threshold k, threshold k+1], and the last band is unbounded above |
| DepthColor.DeepestColor | static/js/logic.js:90-91 | every depth strictly greater than 100 gets `#9c0909` |
| DepthColor.NoColorWhenShallow | static/js/logic.js:89-100 | no colour exactly when depth <= 20, which includes 20, 0 and negative depths |
| DepthColor.BoundariesBelongBelow | static/js/logic.js:89-99 | 100 gives `#d43d0b`, 80 gives `#f09a05`, 60 gives `#f0d105`, 40 gives `#f0f005`, and 20, 0 and -5 give no colour |
| DepthColor.ExactlyOneColor | static/js/logic.js:89-99 | for depth > 20 some palette entry is returned, and only the one at the depth's band |
| DepthColor.SameColorSameBand | static/js/logic.js:89-99 | two depths get the same result exactly when they fall in the same band |
| FeatureLayer.Depth | static/js/logic.js:116 | the depth is defined exactly when the position has a third element |
| FeatureLayer.FillColor | static/js/logic.js:116 | a missing depth, or one of at most 20, gives no fill colour; any deeper depth gives one |
| FeatureLayer.Style | static/js/logic.js:112-120 | the style has a fill colour exactly when the feature's third coordinate exists and exceeds 20 |
| FeatureLayer.StyleConstantFields | static/js/logic.js:113-119 | opacity 1, fillOpacity 1, color `#07260a`, stroke true and weight 0.5 for every feature |
| FeatureLayer.StyleDependsOnlyOnDepth | static/js/logic.js:112-120 | two features with the same third coordinate get the same style |
| FeatureLayer.StyleFillColorIsDepthColor | static/js/logic.js:116 | the fill colour is `color` applied to the third coordinate |
| FeatureLayer.PopupText | static/js/logic.js:124-125 | the popup starts with "Magnitude: ", ends with the place, and is as long as the two labels plus magnitude and place |
| FeatureLayer.PopupRoundTrip | static/js/logic.js:124-125 | from the popup text of a magnitude without '<' and any place, `ParsePopup` recovers exactly that magnitude and place |
| FeatureLayer.ParsePopupSound | static/js/logic.js:124-125 | every text that `ParsePopup` accepts is exactly the popup text of the pair it returns, and that magnitude has no '<' |
| Legend.Fragment | static/js/logic.js:149-152 | every fragment opens with the swatch text `<i style=”background:`, and it ends in "+" exactly when `grades[i + 1]` is falsy (undefined or 0) |
| Legend.LegendMarkup | static/js/logic.js:148-153 | the joined fragments are empty exactly when there are no grades, and otherwise open with the swatch text |
| Legend.OnAdd | static/js/logic.js:137-156 | starting from empty markup, the loop leaves exactly the concatenation of fragments 0..5; the invariant is that after i passes the markup is the concatenation of fragments 0..i-1 |
| Legend.ConcatSnoc | static/js/logic.js:149 | appending one fragment to the list appends it to the joined markup (the `+=` step) |
| Legend.GradesAscend | static/js/logic.js:139 | the legend grades are strictly ascending |
| Legend.NextGradeTruthy | static/js/logic.js:152 | for strictly ascending grades, `grades[i + 1]` is truthy exactly when i is not the last index |
| Legend.LegendFragment | static/js/logic.js:149-152 | fragment i is the swatch opening, colours[i] and grade i, then "&ndash;", grade i+1 and "<br>" for i < 5, or "+" for i = 5 |
| Legend.LegendFragmentCount | static/js/logic.js:148 | the loop emits exactly six fragments, one per grade |
| Legend.LegendFragmentsWritten | static/js/logic.js:139-153 | the six fragments, written out character for character |
| Legend.LegendMarkupText | static/js/logic.js:137-156 | the whole legend markup, written out as one string |
| Legend.LegendPaletteDiffersFromMarkers | static/js/logic.js:140-146 | no legend colour is one of the marker colours |
| Legend.GradesAreThresholds | static/js/logic.js:139 | after the leading 0, the legend grades are the five marker thresholds in order |
| Decimal.NatToString | static/js/logic.js:151 | the decimal text of a grade is non-empty, all digits, with no leading zero except for 0 itself |
| Decimal.ParseNatToString | static/js/logic.js:151 | reading the decimal text of n back gives n |
| Decimal.NatToStringInjective | static/js/logic.js:151 | distinct grades have distinct decimal texts |

## Left out

- Tile layers, the map object, the layer control and every `.addTo(...)` call (static/js/logic.js:4-77, 128-131, 159): these are calls into Leaflet.
- The `d3.json` fetch of the feed and `console.log` (static/js/logic.js:81-85): network I/O and logging.
- `L.geoJson`, `L.circleMarker` and `L.DomUtil.create` (static/js/logic.js:103-110, 138): Leaflet decides how the `pointToLayer` options (radius 10, fillOpacity 0.85) and the `style` result are merged, and it creates the legend's `div`. The model starts the legend markup from the empty `innerHTML` of a fresh `div`.
- Number-to-text formatting of `mag`: the magnitude and the place are taken as strings that are already formatted. NaN and non-numeric depths are not modelled, because depth is a mathematical real. A position without a third element is modelled.
- Decimal.NatToString: covers only the non-negative integers that the legend grades are, not JavaScript's general number-to-string conversion.
- Legend.OnAdd: `html` is the text the script appends with `div.innerHTML += …`, not what the `div` holds afterwards. The browser parses each assignment to `innerHTML` as HTML and serializes it again on the next read. With this markup, the `”background:…` text becomes an unquoted attribute value and the last, unterminated tag is dropped. That parsing and re-serialization is not modelled.
- The commented-out tectonic-plates layer (static/js/logic.js:161-171): it is not code.
