/** The legend control of static/js/logic.js: `legend.onAdd` writes one HTML
    fragment per depth grade into the legend's `div`. The markup is kept exactly
    as the script writes it: the opening quote of the style attribute is the
    typographic `”` (U+201D), the `<i>` tag is never closed, and the colour is
    followed directly by the grade number. */
module Legend {
  import opened Wrappers
  import Decimal
  import DepthColor

  /** The grade boundaries shown in the legend. */
  const Grades: seq<nat> := [0, 20, 40, 60, 80, 100]

  /** The legend's own palette, parallel to `Grades`; it is not the marker palette. */
  const LegendColors: seq<string> := ["#026117", "#7fc227", "#1b695a", "#1b4e69", "#01318f", "#10075c"]

  /** The text that opens every fragment. */
  const SwatchOpen: string := "<i style=\U{201D}background:"

  /** `colors[i]` as string concatenation renders it: "undefined" past the end. */
  function ColorAt(colors: seq<string>, i: nat): string {
    if i < |colors| then colors[i] else "undefined"
  }

  /** `grades[i]`, `undefined` past the end. */
  function GradeAt(grades: seq<nat>, i: nat): Option<nat> {
    if i < |grades| then Some(grades[i]) else None
  }

  /** JavaScript truthiness of a grade: `undefined` and `0` are falsy. */
  predicate Truthy(g: Option<nat>) {
    g.Some? && g.value != 0
  }

  /** The fragment appended in iteration `i`: the swatch, the grade, then either
      "&ndash;" and the next grade or, when `grades[i + 1]` is falsy, "+". */
  function Fragment(grades: seq<nat>, colors: seq<string>, i: nat): (r: string)
    requires i < |grades|
    ensures |r| > |SwatchOpen| && r[..|SwatchOpen|] == SwatchOpen
    ensures r[|r| - 1] == '+' <==> !Truthy(GradeAt(grades, i + 1))
  {
    SwatchOpen + ColorAt(colors, i) + Decimal.NatToString(grades[i]) +
      (if Truthy(GradeAt(grades, i + 1))
       then "&ndash;" + Decimal.NatToString(grades[i + 1]) + "<br>"
       else "+")
  }

  /** One fragment per grade, in the order of the grades. */
  function Fragments(grades: seq<nat>, colors: seq<string>): seq<string> {
    seq(|grades|, i requires 0 <= i < |grades| => Fragment(grades, colors, i))
  }

  /** The strings of `ss`, joined in order. */
  function Concat(ss: seq<string>): string {
    if ss == [] then "" else ss[0] + Concat(ss[1..])
  }

  /** Appending one string to the list appends it to the joined text. */
  lemma {:induction false} ConcatSnoc(ss: seq<string>, s: string)
    ensures Concat(ss + [s]) == Concat(ss) + s
  {
    if ss != [] {
      assert (ss + [s])[1..] == ss[1..] + [s];
      ConcatSnoc(ss[1..], s);
    }
  }

  /** The whole legend markup for the given tables: empty exactly when there
      are no grades, and otherwise opening with the first swatch. */
  function LegendMarkup(grades: seq<nat>, colors: seq<string>): (r: string)
    ensures r == "" <==> grades == []
    ensures grades != [] ==> |r| > |SwatchOpen| && r[..|SwatchOpen|] == SwatchOpen
  {
    var fs := Fragments(grades, colors);
    if grades != [] then
      assert Concat(fs) == fs[0] + Concat(fs[1..]);
      assert fs[0] == Fragment(grades, colors, 0);
      Concat(fs)
    else
      Concat(fs)
  }

  /** `legend.onAdd`: the loop over `grades`. `html` accumulates the text the
      script appends to the `div`'s `innerHTML`, starting from empty; creating
      the `div`, and the browser's parsing of what is assigned, are left out. */
  method OnAdd() returns (html: string)
    ensures html == LegendMarkup(Grades, LegendColors)
  {
    var grades := Grades;
    var colors := LegendColors;
    html := "";
    ghost var fs := Fragments(grades, colors);
    for i := 0 to |grades|
      invariant html == Concat(fs[..i])
    {
      var tail := if i + 1 < |grades| && grades[i + 1] != 0
                  then "&ndash;" + Decimal.NatToString(grades[i + 1]) + "<br>"
                  else "+";
      FragmentIs(grades, colors, i, tail);
      ConcatPrefixStep(fs, i);
      html := html + (SwatchOpen + colors[i] + Decimal.NatToString(grades[i]) + tail);
    }
    assert fs[..|grades|] == fs;
  }

  /** The text one iteration of `OnAdd` appends is fragment `i`. */
  lemma FragmentIs(grades: seq<nat>, colors: seq<string>, i: nat, tail: string)
    requires i < |grades| && i < |colors|
    requires tail == if i + 1 < |grades| && grades[i + 1] != 0
                     then "&ndash;" + Decimal.NatToString(grades[i + 1]) + "<br>"
                     else "+"
    ensures SwatchOpen + colors[i] + Decimal.NatToString(grades[i]) + tail == Fragment(grades, colors, i)
  {
  }

  /** Joining one more fragment of a list appends that fragment. */
  lemma ConcatPrefixStep(fs: seq<string>, i: nat)
    requires i < |fs|
    ensures Concat(fs[..i + 1]) == Concat(fs[..i]) + fs[i]
  {
    assert fs[..i + 1] == fs[..i] + [fs[i]];
    ConcatSnoc(fs[..i], fs[i]);
  }

  predicate StrictlyAscending(gs: seq<nat>) {
    forall i, j :: 0 <= i < j < |gs| ==> gs[i] < gs[j]
  }

  /** The legend's grades ascend strictly. */
  lemma GradesAscend()
    ensures StrictlyAscending(Grades)
  {
  }

  /** For strictly ascending grades the test on `grades[i + 1]` fails exactly at
      the last grade: only there is `grades[i + 1]` undefined, and no later
      grade can be 0. */
  lemma NextGradeTruthy(grades: seq<nat>, i: nat)
    requires StrictlyAscending(grades) && i < |grades|
    ensures Truthy(GradeAt(grades, i + 1)) <==> i + 1 < |grades|
  {
    if i + 1 < |grades| {
      assert grades[i] < grades[i + 1];
    }
  }

  /** Fragment `i` of the legend: "&ndash;" and the next grade for the first
      five, "+" for the last. */
  lemma LegendFragment(i: nat)
    requires i < |Grades|
    ensures Fragment(Grades, LegendColors, i) ==
      SwatchOpen + LegendColors[i] + Decimal.NatToString(Grades[i]) +
      (if i < 5 then "&ndash;" + Decimal.NatToString(Grades[i + 1]) + "<br>" else "+")
  {
    GradesAscend();
    NextGradeTruthy(Grades, i);
  }

  /** The legend has exactly six fragments, one per grade. */
  lemma LegendFragmentCount()
    ensures |Fragments(Grades, LegendColors)| == |Grades| == 6
  {
  }

  /** The decimal forms of the six grades. */
  lemma GradeTexts()
    ensures Decimal.NatToString(0) == "0" && Decimal.NatToString(20) == "20"
    ensures Decimal.NatToString(40) == "40" && Decimal.NatToString(60) == "60"
    ensures Decimal.NatToString(80) == "80" && Decimal.NatToString(100) == "100"
  {
    assert Decimal.NatToString(10) == "10";
  }

  /** Joining a six-element list. */
  lemma ConcatSix(fs: seq<string>)
    requires |fs| == 6
    ensures Concat(fs) == fs[0] + fs[1] + fs[2] + fs[3] + fs[4] + fs[5]
  {
    assert Concat(fs[5..]) == fs[5] by { assert fs[5..][1..] == []; }
    assert Concat(fs[4..]) == fs[4] + Concat(fs[5..]) by { assert fs[4..][1..] == fs[5..]; }
    assert Concat(fs[3..]) == fs[3] + Concat(fs[4..]) by { assert fs[3..][1..] == fs[4..]; }
    assert Concat(fs[2..]) == fs[2] + Concat(fs[3..]) by { assert fs[2..][1..] == fs[3..]; }
    assert Concat(fs[1..]) == fs[1] + Concat(fs[2..]) by { assert fs[1..][1..] == fs[2..]; }
  }

  /** Fragment 0 written out; the five lemmas after it do the same for
      fragments 1 to 5. */
  lemma Fragment0Text()
    ensures Fragment(Grades, LegendColors, 0) == "<i style=\U{201D}background:#0261170&ndash;20<br>"
  {
    GradeTexts();
    LegendFragment(0);
  }

  lemma Fragment1Text()
    ensures Fragment(Grades, LegendColors, 1) == "<i style=\U{201D}background:#7fc22720&ndash;40<br>"
  {
    GradeTexts();
    LegendFragment(1);
  }

  lemma Fragment2Text()
    ensures Fragment(Grades, LegendColors, 2) == "<i style=\U{201D}background:#1b695a40&ndash;60<br>"
  {
    GradeTexts();
    LegendFragment(2);
  }

  lemma Fragment3Text()
    ensures Fragment(Grades, LegendColors, 3) == "<i style=\U{201D}background:#1b4e6960&ndash;80<br>"
  {
    GradeTexts();
    LegendFragment(3);
  }

  lemma Fragment4Text()
    ensures Fragment(Grades, LegendColors, 4) == "<i style=\U{201D}background:#01318f80&ndash;100<br>"
  {
    GradeTexts();
    LegendFragment(4);
  }

  lemma Fragment5Text()
    ensures Fragment(Grades, LegendColors, 5) == "<i style=\U{201D}background:#10075c100+"
  {
    GradeTexts();
    LegendFragment(5);
  }

  /** The six fragments of the legend, written out. */
  lemma LegendFragmentsWritten()
    ensures Fragments(Grades, LegendColors) == [
      "<i style=\U{201D}background:#0261170&ndash;20<br>",
      "<i style=\U{201D}background:#7fc22720&ndash;40<br>",
      "<i style=\U{201D}background:#1b695a40&ndash;60<br>",
      "<i style=\U{201D}background:#1b4e6960&ndash;80<br>",
      "<i style=\U{201D}background:#01318f80&ndash;100<br>",
      "<i style=\U{201D}background:#10075c100+"]
  {
    Fragment0Text();
    Fragment1Text();
    Fragment2Text();
    Fragment3Text();
    Fragment4Text();
    Fragment5Text();
  }

  /** The exact text `onAdd` appends to the legend, joined. */
  lemma LegendMarkupText()
    ensures LegendMarkup(Grades, LegendColors) ==
      "<i style=\U{201D}background:#0261170&ndash;20<br>" +
      "<i style=\U{201D}background:#7fc22720&ndash;40<br>" +
      "<i style=\U{201D}background:#1b695a40&ndash;60<br>" +
      "<i style=\U{201D}background:#1b4e6960&ndash;80<br>" +
      "<i style=\U{201D}background:#01318f80&ndash;100<br>" +
      "<i style=\U{201D}background:#10075c100+"
  {
    LegendFragmentsWritten();
    ConcatSix(Fragments(Grades, LegendColors));
  }

  /** The legend palette shares no colour with the marker palette. */
  lemma LegendPaletteDiffersFromMarkers()
    ensures forall i, j :: 0 <= i < |LegendColors| && 0 <= j < |DepthColor.MarkerPalette| ==>
      LegendColors[i] != DepthColor.MarkerPalette[j]
  {
  }

  /** Past the first grade 0, the legend grades are the marker thresholds. */
  lemma GradesAreThresholds()
    ensures Grades[0] == 0 && |Grades| == |DepthColor.Thresholds| + 1
    ensures forall k :: 0 <= k < |DepthColor.Thresholds| ==> Grades[k + 1] as real == DepthColor.Thresholds[k]
  {
  }
}
