/** CSS helpers of the `respo` crate: `respo/src/node/css.rs` (a style built by value) and
  * `respo/src/respo/css.rs` (the same style built in place). A style is a list of
  * property/value pairs kept in insertion order. Numbers that the source formats from
  * floats are taken here as their already formatted text. */
module Css {
  import opened Wrappers
  import opened Strings

  type Style = seq<(string, string)>

  /** `RespoStyle::insert` of `respo/src/node/css.rs`: a new style with the pair at the end. */
  function Insert(s: Style, property: string, value: string): (r: Style)
    ensures |r| == |s| + 1 && r[..|s|] == s && r[|s|] == (property, value)
  {
    s + [(property, value)]
  }

  /** `len` and `is_empty`. */
  function Len(s: Style): (n: nat)
    ensures n == 0 <==> s == []
  {
    |s|
  }

  /** One declaration as `Display` writes it. */
  function Declaration(pair: (string, string)): string
  {
    pair.0 + ": " + pair.1 + ";\n"
  }

  /** The text `Display for RespoStyle` writes: the declarations in insertion order. */
  function StyleText(s: Style): string
  {
    if |s| == 0 then "" else StyleText(s[..|s| - 1]) + Declaration(s[|s| - 1])
  }

  /** The text of a style is the texts of its parts in order. */
  lemma {:induction false} StyleTextAppend(a: Style, b: Style)
    ensures StyleText(a + b) == StyleText(a) + StyleText(b)
    decreases |b|
  {
    if |b| == 0 {
      assert a + b == a;
    } else {
      var init, last := b[..|b| - 1], b[|b| - 1];
      assert (a + b)[..|a + b| - 1] == a + init;
      assert (a + b)[|a + b| - 1] == last;
      calc {
        StyleText(a + b);
        StyleText(a + init) + Declaration(last);
        { StyleTextAppend(a, init); }
        (StyleText(a) + StyleText(init)) + Declaration(last);
        StyleText(a) + (StyleText(init) + Declaration(last));
        StyleText(a) + StyleText(b);
      }
    }
  }

  /** Inserting a pair adds exactly its declaration at the end of the text. */
  lemma InsertText(s: Style, property: string, value: string)
    ensures StyleText(Insert(s, property, value)) == StyleText(s) + property + ": " + value + ";\n"
  {
    assert Insert(s, property, value)[..|s|] == s;
  }

  /** `Display for RespoStyle`: the declarations written one after another. */
  method DisplayStyle(s: Style) returns (text: string)
    ensures text == StyleText(s)
  {
    text := "";
    for i := 0 to |s|
      invariant text == StyleText(s[..i])
    {
      assert s[..i + 1][..i] == s[..i];
      text := text + Declaration(s[i]);
    }
    assert s[..|s|] == s;
  }

  /** One rule as `render_rules` writes it. */
  function RuleText(rule: (string, Style)): string
  {
    rule.0 + " {\n" + StyleText(rule.1) + "\n}"
  }

  function RulesText(rules: seq<(string, Style)>): string
  {
    if |rules| == 0 then "" else RulesText(rules[..|rules| - 1]) + RuleText(rules[|rules| - 1])
  }

  /** `render_rules`: each rule as `query {`, its declarations and `}`, in order. */
  method RenderRules(rules: seq<(string, Style)>) returns (result: string)
    ensures result == RulesText(rules)
  {
    result := "";
    for i := 0 to |rules|
      invariant result == RulesText(rules[..i])
    {
      assert rules[..i + 1][..i] == rules[..i];
      result := result + RuleText(rules[i]);
    }
    assert rules[..|rules|] == rules;
  }

  /** Rendering rules distributes over concatenation, so each rule's text appears in
    * order and unchanged. */
  lemma {:induction false} RulesTextAppend(a: seq<(string, Style)>, b: seq<(string, Style)>)
    ensures RulesText(a + b) == RulesText(a) + RulesText(b)
    decreases |b|
  {
    if |b| == 0 {
      assert a + b == a;
    } else {
      var init, last := b[..|b| - 1], b[|b| - 1];
      assert (a + b)[..|a + b| - 1] == a + init;
      assert (a + b)[|a + b| - 1] == last;
      calc {
        RulesText(a + b);
        RulesText(a + init) + RuleText(last);
        { RulesTextAppend(a, init); }
        (RulesText(a) + RulesText(init)) + RuleText(last);
        RulesText(a) + (RulesText(init) + RuleText(last));
        RulesText(a) + RulesText(b);
      }
    }
  }

  datatype CssBorderStyle = Solid | Dashed | Dotted

  function BorderStyleText(b: CssBorderStyle): string
  {
    match b
    case Solid => "solid"
    case Dashed => "dashed"
    case Dotted => "dotted"
  }

  /** A border or outline given as its width (already formatted), style and colour text. */
  datatype Line = Line(width: string, style: CssBorderStyle, color: string)

  /** The three pairs `border` and `outline` add under `prefix` ("border" or "outline"):
    * the given line, or no line at all for `None`. */
  function LinePairs(prefix: string, rule: Option<Line>): (r: Style)
    ensures |r| == 3
    ensures r[0].0 == prefix + "-width" && r[1].0 == prefix + "-style" && r[2].0 == prefix + "-color"
    ensures rule.None? ==> r[0].1 == "0px" && r[1].1 == "none" && r[2].1 == "transparent"
    ensures rule.Some? ==>
      r[0].1 == rule.value.width + "px" && r[1].1 == BorderStyleText(rule.value.style) && r[2].1 == rule.value.color
  {
    match rule
    case Some(Line(width, style, color)) =>
      [(prefix + "-width", width + "px"), (prefix + "-style", BorderStyleText(style)), (prefix + "-color", color)]
    case None => [(prefix + "-width", "0px"), (prefix + "-style", "none"), (prefix + "-color", "transparent")]
  }

  /** `border` and `outline` of `respo/src/node/css.rs`: the old pairs kept, the three
    * line pairs inserted after them. */
  function Border(s: Style, rule: Option<Line>): (r: Style)
    ensures |r| == |s| + 3 && r[..|s|] == s && r[|s|..] == LinePairs("border", rule)
  {
    s + LinePairs("border", rule)
  }


  function Outline(s: Style, rule: Option<Line>): (r: Style)
    ensures |r| == |s| + 3 && r[..|s|] == s && r[|s|..] == LinePairs("outline", rule)
  {
    s + LinePairs("outline", rule)
  }


  /** `transform_origin` as written: the pair is stored under the misspelt "tranform-origin". */
  function TransformOrigin(s: Style, origin: string): (r: Style)
    ensures r == Insert(s, "tranform-origin", origin)
  {
    s + [("tranform-origin", origin)]
  }

  /** `transform_origin` as intended: the CSS property "transform-origin". */
  function TransformOriginFixed(s: Style, origin: string): (r: Style)
    ensures r == Insert(s, "transform-origin", origin)
  {
    s + [("transform-origin", origin)]
  }

  /** The misspelt property is not the CSS property; the corrected one is. */
  lemma TransformOriginMisspelt(s: Style, origin: string)
    ensures TransformOrigin(s, origin)[|s|].0 != "transform-origin"
    ensures TransformOriginFixed(s, origin)[|s|] == ("transform-origin", origin)
  {
    assert "tranform-origin"[4] != "transform-origin"[4];
  }

  /** `CssSize` of `respo/src/respo/css.rs`; numeric sizes carry their formatted number. */
  datatype CssSize = Auto | Px(v: string) | Percent(v: string) | Vw(v: string) | Vh(v: string) | Custom(text: string)

  function CssSizeText(s: CssSize): (r: string)
    ensures s.Auto? ==> r == "auto"
    ensures s.Custom? ==> r == s.text
  {
    match s
    case Auto => "auto"
    case Px(v) => v + "px"
    case Percent(v) => v + "%"
    case Vw(v) => v + "vw"
    case Vh(v) => v + "vh"
    case Custom(v) => v
  }

  datatype CssPosition = Static | Relative | Absolute | Fixed
  datatype CssFontStyle = Normal | Italic | Oblique
  datatype CssDisplay = Flex | FlexColumn | FlexRow | FlexWrap | Inline | Block | InlineBlock | None
  datatype CssFlexWrap = NoWrap | Wrap | WrapReverse
  datatype CssFlexDirection = Row | RowReverse | Column | ColumnReverse
  datatype CssVerticalAlign = Top | Middle | Bottom
  datatype CssFlexJustifyContent = FlexStart | FlexEnd | Center | SpaceBetween | SpaceAround | SpaceEvenly
  datatype CssFlexAlignItems = FlexStart | FlexEnd | Center | Baseline | Stretch
  datatype CssOverflow = Visible | Hidden | Scroll | Auto
  datatype CssTimingFunction = Linear | Ease | EaseIn | EaseOut | EaseInOut | StepStart | StepEnd
  datatype CssTextOverflow = Clip | Ellipsis
  datatype CssBoxSizing = ContentBox | BorderBox
  datatype CssTextAlign = Left | Right | Center | Justify
  datatype CssFontWeight = Normal | Bold | Bolder | Lighter | Weight(w: nat)
  datatype CssTextDecoration = Underline | None

  function PositionText(p: CssPosition): string
  {
    match p
    case Static => "static"
    case Relative => "relative"
    case Absolute => "absolute"
    case Fixed => "fixed"
  }

  function FontStyleText(f: CssFontStyle): string
  {
    match f
    case Normal => "normal"
    case Italic => "italic"
    case Oblique => "oblique"
  }

  function DisplayText(d: CssDisplay): string
  {
    match d
    case Flex => "flex"
    case FlexColumn => "flex-column"
    case FlexRow => "flex-row"
    case FlexWrap => "flex-wrap"
    case Inline => "inline"
    case Block => "block"
    case InlineBlock => "inline-block"
    case None => "none"
  }

  function FlexWrapText(w: CssFlexWrap): string
  {
    match w
    case NoWrap => "nowrap"
    case Wrap => "wrap"
    case WrapReverse => "wrap-reverse"
  }

  function FlexDirectionText(d: CssFlexDirection): string
  {
    match d
    case Row => "row"
    case RowReverse => "row-reverse"
    case Column => "column"
    case ColumnReverse => "column-reverse"
  }

  function VerticalAlignText(a: CssVerticalAlign): string
  {
    match a
    case Top => "top"
    case Middle => "middle"
    case Bottom => "bottom"
  }

  function JustifyContentText(j: CssFlexJustifyContent): string
  {
    match j
    case FlexStart => "flex-start"
    case FlexEnd => "flex-end"
    case Center => "center"
    case SpaceBetween => "space-between"
    case SpaceAround => "space-around"
    case SpaceEvenly => "space-evenly"
  }

  function AlignItemsText(a: CssFlexAlignItems): string
  {
    match a
    case FlexStart => "flex-start"
    case FlexEnd => "flex-end"
    case Center => "center"
    case Baseline => "baseline"
    case Stretch => "stretch"
  }

  function OverflowText(o: CssOverflow): string
  {
    match o
    case Visible => "visible"
    case Hidden => "hidden"
    case Scroll => "scroll"
    case Auto => "auto"
  }

  function TimingFunctionText(t: CssTimingFunction): string
  {
    match t
    case Linear => "linear"
    case Ease => "ease"
    case EaseIn => "ease-in"
    case EaseOut => "ease-out"
    case EaseInOut => "ease-in-out"
    case StepStart => "step-start"
    case StepEnd => "step-end"
  }

  function TextOverflowText(t: CssTextOverflow): string
  {
    match t
    case Clip => "clip"
    case Ellipsis => "ellipsis"
  }

  function BoxSizingText(b: CssBoxSizing): string
  {
    match b
    case ContentBox => "content-box"
    case BorderBox => "border-box"
  }

  function TextAlignText(a: CssTextAlign): string
  {
    match a
    case Left => "left"
    case Right => "right"
    case Center => "center"
    case Justify => "justify"
  }

  /** `CssFontWeight`: a keyword, or a `u32` weight in decimal. */
  function FontWeightText(w: CssFontWeight): (r: string)
    ensures w.Weight? ==> IsDigits(r) && DecimalValue(r) == w.w
  {
    match w
    case Normal => "normal"
    case Bold => "bold"
    case Bolder => "bolder"
    case Lighter => "lighter"
    case Weight(n) =>
      DecimalRoundTrip(n);
      NatToString(n)
  }

  function TextDecorationText(d: CssTextDecoration): string
  {
    match d
    case Underline => "underline"
    case None => "none"
  }

  /** Each keyword enum renders distinct variants as distinct keywords, so the CSS text
    * determines the variant. */
  lemma KeywordsDistinct()
    ensures forall a: CssPosition, b: CssPosition :: PositionText(a) == PositionText(b) ==> a == b
    ensures forall a: CssDisplay, b: CssDisplay :: DisplayText(a) == DisplayText(b) ==> a == b
    ensures forall a: CssFlexWrap, b: CssFlexWrap :: FlexWrapText(a) == FlexWrapText(b) ==> a == b
    ensures forall a: CssFlexDirection, b: CssFlexDirection :: FlexDirectionText(a) == FlexDirectionText(b) ==> a == b
    ensures forall a: CssFlexJustifyContent, b: CssFlexJustifyContent ::
      JustifyContentText(a) == JustifyContentText(b) ==> a == b
    ensures forall a: CssFlexAlignItems, b: CssFlexAlignItems :: AlignItemsText(a) == AlignItemsText(b) ==> a == b
    ensures forall a: CssTimingFunction, b: CssTimingFunction :: TimingFunctionText(a) == TimingFunctionText(b) ==> a == b
    ensures forall a: CssFontStyle, b: CssFontStyle :: FontStyleText(a) == FontStyleText(b) ==> a == b
    ensures forall a: CssVerticalAlign, b: CssVerticalAlign :: VerticalAlignText(a) == VerticalAlignText(b) ==> a == b
    ensures forall a: CssOverflow, b: CssOverflow :: OverflowText(a) == OverflowText(b) ==> a == b
    ensures forall a: CssTextOverflow, b: CssTextOverflow :: TextOverflowText(a) == TextOverflowText(b) ==> a == b
    ensures forall a: CssBoxSizing, b: CssBoxSizing :: BoxSizingText(a) == BoxSizingText(b) ==> a == b
    ensures forall a: CssTextAlign, b: CssTextAlign :: TextAlignText(a) == TextAlignText(b) ==> a == b
    ensures forall a: CssTextDecoration, b: CssTextDecoration :: TextDecorationText(a) == TextDecorationText(b) ==> a == b
    ensures forall a: CssBorderStyle, b: CssBorderStyle :: BorderStyleText(a) == BorderStyleText(b) ==> a == b
  {
  }

  /** A keyword weight never reads as a numeric one. */
  lemma FontWeightDistinct(a: CssFontWeight, b: CssFontWeight)
    requires FontWeightText(a) == FontWeightText(b)
    ensures a == b
  {
    if a.Weight? && b.Weight? {
      NatToStringInjective(a.w, b.w);
    }
  }

  /** `css_name_from_path`: drop a leading "src/" and a trailing ".rs", then turn "::",
    * "/" and "." into "_". */
  function CssNameFromPath(p: string): (r: string)
  {
    var s1 := match StripPrefix(p, "src/") case Some(x) => x case None => p;
    var s2 := match StripSuffix(s1, ".rs") case Some(x) => x case None => s1;
    ReplaceChar(ReplaceChar(ReplaceAll(s2, "::", "_"), '/', '_'), '.', '_')
  }

  /** Turning one character into '_' cannot create a "::". */
  lemma ReplaceCharKeepsNoColons(s: string, c: char)
    requires c != ':'
    requires forall i :: 0 <= i ==> !OccursAt(s, "::", i)
    ensures forall i :: 0 <= i ==> !OccursAt(ReplaceChar(s, c, '_'), "::", i)
  {
    var r := ReplaceChar(s, c, '_');
    forall i | 0 <= i ensures !OccursAt(r, "::", i) {
      ColonsAt(s, i);
      ColonsAt(r, i);
    }
  }

  lemma ColonsAt(s: string, i: nat)
    ensures OccursAt(s, "::", i) <==> i + 2 <= |s| && s[i] == ':' && s[i + 1] == ':'
  {
    if i + 2 <= |s| {
      assert s[i..i + 2] == [s[i], s[i + 1]];
    }
  }

  /** A generated class name contains no "::", no '/' and no '.'. */
  lemma CssNameIsIdentifier(p: string)
    ensures '/' !in CssNameFromPath(p) && '.' !in CssNameFromPath(p)
    ensures forall i :: 0 <= i ==> !OccursAt(CssNameFromPath(p), "::", i)
  {
    var s1 := match StripPrefix(p, "src/") case Some(x) => x case None => p;
    var s2 := match StripSuffix(s1, ".rs") case Some(x) => x case None => s1;
    var a := ReplaceAll(s2, "::", "_");
    ReplaceColonsRemovesAll(s2);
    ReplaceCharKeepsNoColons(a, '/');
    var b := ReplaceChar(a, '/', '_');
    ReplaceCharKeepsNoColons(b, '.');
    ReplaceCharRemoves(a, '/', '_');
    ReplaceCharRemoves(b, '.', '_');
    var r := ReplaceChar(b, '.', '_');
    forall i | 0 <= i < |r| ensures r[i] != '/' {
      assert b[i] != '/';
    }
  }

  /** The documented example: "src/a/b.rs" becomes "a_b". */
  lemma CssNameExample()
    ensures CssNameFromPath("src/a/b.rs") == "a_b"
  {
    assert StripPrefix("src/a/b.rs", "src/") == Some("a/b.rs");
    assert "a/b.rs"[3..] == ".rs" && "a/b.rs"[..3] == "a/b";
    assert IsSuffix(".rs", "a/b.rs");
    assert StripSuffix("a/b.rs", ".rs") == Some("a/b");
    assert !("::" <= "a/b") && !("::" <= "/b") && !("::" <= "b");
    assert ReplaceAll("", "::", "_") == "";
    assert ReplaceAll("b", "::", "_") == "b";
    assert ReplaceAll("/b", "::", "_") == "/b";
    assert ReplaceAll("a/b", "::", "_") == "a/b";
  }

  /** The selector of a static rule: "$0" and then "&" each become "." + name. */
  function Selector(query: string, name: string): string
  {
    ReplaceAll(ReplaceAll(query, "$0", "." + name), "&", "." + name)
  }

  /** The CSS `declare_static_style` generates for one rule. */
  function RuleCss(name: string, rule: (string, Style)): string
  {
    Selector(rule.0, name) + " {\n" + StyleText(rule.1) + "}\n"
  }

  function StaticCss(name: string, rules: seq<(string, Style)>): string
  {
    if |rules| == 0 then "" else StaticCss(name, rules[..|rules| - 1]) + RuleCss(name, rules[|rules| - 1])
  }

  /** `&` and `$0` both name the element that carries the class (for a class name without
    * an `&` of its own, which the second substitution would otherwise also rewrite). */
  lemma SelectorExamples(name: string)
    requires '&' !in name
    ensures Selector("&", name) == "." + name
    ensures Selector("$0", name) == "." + name
  {
    var n := "." + name;
    assert ReplaceAll("&", "$0", n) == "&" by {
      assert !("$0" <= "&");
      assert "&"[1..] == "";
      assert ReplaceAll("", "$0", n) == "";
    }
    assert ReplaceAll("&", "&", n) == n by {
      assert "&" <= "&";
      assert "&"[1..] == "";
      assert ReplaceAll("", "&", n) == "";
    }
    assert ReplaceAll("$0", "$0", n) == n by {
      assert "$0" <= "$0";
      assert "$0"[2..] == "";
      assert ReplaceAll("", "$0", n) == "";
    }
    forall i | 0 <= i <= |n| ensures !OccursAt(n, "&", i) {
      if i + 1 <= |n| {
        assert n[i..i + 1] == [n[i]];
        if i > 0 {
          assert n[i] == name[i - 1];
        }
      }
    }
    ReplaceAllNoOccurrence(n, "&", n);
  }

  /** The registry of declared class names (`CLASS_NAME_IN_TAGS`), and the style tags
    * written into the document head, as (id, css) pairs; the DOM write is abstract. */
  class StyleRegistry {
    var declared: set<string>
    var tags: seq<(string, string)>

    constructor()
      ensures declared == {} && tags == []
    {
      declared := {};
      tags := [];
    }

    /** `declare_static_style`: returns the name; the first declaration of a name writes one
      * style tag "def__<name>" holding the rules, later ones change nothing. */
    method DeclareStaticStyle(name: string, rules: seq<(string, Style)>) returns (r: string)
      modifies this
      ensures r == name
      ensures name in old(declared) ==> declared == old(declared) && tags == old(tags)
      ensures name !in old(declared) ==>
        declared == old(declared) + {name} && tags == old(tags) + [("def__" + name, StaticCss(name, rules))]
    {
      if name in declared {
        return name;
      }
      var styles := "";
      for i := 0 to |rules|
        invariant styles == StaticCss(name, rules[..i])
      {
        assert rules[..i + 1][..i] == rules[..i];
        styles := styles + Selector(rules[i].0, name);
        styles := styles + " {\n";
        styles := styles + StyleText(rules[i].1);
        styles := styles + "}\n";
      }
      assert rules[..|rules|] == rules;
      tags := tags + [("def__" + name, styles)];
      declared := declared + {name};
      return name;
    }
  }

  /** `RespoStyle` of `respo/src/respo/css.rs`, whose builders push in place. */
  class StyleBuilder {
    var pairs: Style

    constructor()
      ensures pairs == []
    {
      pairs := [];
    }

    /** `insert`: one pair pushed at the end. */
    method Push(property: string, value: string)
      modifies this
      ensures pairs == old(pairs) + [(property, value)]
    {
      pairs := pairs + [(property, value)];
    }

    /** `border`: the three border pairs pushed, as the by-value builder adds them. */
    method PushBorder(rule: Option<Line>)
      modifies this
      ensures pairs == Border(old(pairs), rule)
    {
      var lines := LinePairs("border", rule);
      Push(lines[0].0, lines[0].1);
      Push(lines[1].0, lines[1].1);
      Push(lines[2].0, lines[2].1);
    }

    /** `outline`. */
    method PushOutline(rule: Option<Line>)
      modifies this
      ensures pairs == Outline(old(pairs), rule)
    {
      var lines := LinePairs("outline", rule);
      Push(lines[0].0, lines[0].1);
      Push(lines[1].0, lines[1].1);
      Push(lines[2].0, lines[2].1);
    }
  }
}
