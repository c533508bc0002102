/** CSS of the older generation, `src/respo/css.rs`: a style is a map from property to
  * value, filled through typed rules whose `get_pair` gives the property and its text.
  * Numbers the source formats from `f32` are taken as their already formatted text. */
module LegacyCss {
  import opened Strings
  import Css

  /** The text of an `f32` as `format!("{}")` writes it. */
  type F32Text = string

  datatype RespoSize = Auto | Px(v: F32Text) | Percent(v: F32Text) | Vw(v: F32Text) | Wh(v: F32Text) | Custom(text: string)

  function SizeText(s: RespoSize): (r: string)
    ensures s.Auto? ==> r == "auto"
    ensures s.Custom? ==> r == s.text
  {
    match s
    case Auto => "auto"
    case Px(v) => v + "px"
    case Percent(v) => v + "%"
    case Vw(v) => v + "vw"
    case Wh(v) => v + "wh"
    case Custom(v) => v
  }

  /** `RespoColor`; the `u8` channels are naturals below 256. */
  datatype RespoColor =
    | Hsla(h: F32Text, s: F32Text, l: F32Text, a: F32Text)
    | Hcla(h: F32Text, c: F32Text, l: F32Text, a: F32Text)
    | Rgba(r: nat, g: nat, b: nat, alpha: nat)
    | Hex(byte: nat)
    | Red | Green | Blue | White | Black | Gray | Yellow | Purple | Cyan | Orange | Pink

  predicate ColorValid(c: RespoColor)
  {
    match c
    case Rgba(r, g, b, a) => r < 256 && g < 256 && b < 256 && a < 256
    case Hex(h) => h < 256
    case _ => true
  }

  function ColorText(c: RespoColor): (r: string)
    requires ColorValid(c)
    ensures c.Hex? ==> |r| == 3 && r[0] == '#' && r[1..] == Hex2(c.byte)
  {
    match c
    case Hsla(h, s, l, a) => "hsla(" + h + ", " + s + "%, " + l + "%, " + a + ")"
    case Hcla(h, ch, l, a) => "hcla(" + h + ", " + ch + ", " + l + ", " + a + ")"
    case Rgba(r, g, b, a) =>
      "rgba(" + NatToString(r) + ", " + NatToString(g) + ", " + NatToString(b) + ", " + NatToString(a) + ")"
    case Hex(h) => "#" + Hex2(h)
    case Red => "red"
    case Green => "green"
    case Blue => "blue"
    case White => "white"
    case Black => "black"
    case Gray => "gray"
    case Yellow => "yellow"
    case Purple => "purple"
    case Cyan => "cyan"
    case Orange => "orange"
    case Pink => "pink"
  }

  /** A hexadecimal colour is always "#" and two lowercase hex digits. */
  lemma HexColorShape(h: nat)
    requires h < 256
    ensures |ColorText(Hex(h))| == 3 && ColorText(Hex(h))[0] == '#'
    ensures forall i :: 1 <= i < 3 ==> ColorText(Hex(h))[i] in "0123456789abcdef"
  {
    var r := ColorText(Hex(h));
    forall i | 1 <= i < 3 ensures r[i] in "0123456789abcdef" {
      assert r[i] == r[1..][i - 1];
    }
  }

  datatype RespoLineHeight = Em(v: F32Text) | Px(v: F32Text)

  function LineHeightText(l: RespoLineHeight): string
  {
    match l
    case Em(v) => v + "em"
    case Px(v) => v + "px"
  }

  datatype RespoBackgroundSize = Cover | Contain | Wh(w: F32Text, h: F32Text)

  function BackgroundSizeText(b: RespoBackgroundSize): string
  {
    match b
    case Cover => "cover"
    case Contain => "contain"
    case Wh(w, h) => w + "px " + h + "px"
  }

  /** The older `RespoFlexJustifyContent`, which has no `SpaceEvenly`. */
  datatype RespoFlexJustifyContent = FlexStart | FlexEnd | Center | SpaceBetween | SpaceAround

  function JustifyContentText(j: RespoFlexJustifyContent): (r: string)
    ensures r == Css.JustifyContentText(AsCss(j))
  {
    match j
    case FlexStart => "flex-start"
    case FlexEnd => "flex-end"
    case Center => "center"
    case SpaceBetween => "space-between"
    case SpaceAround => "space-around"
  }

  function AsCss(j: RespoFlexJustifyContent): Css.CssFlexJustifyContent
  {
    match j
    case FlexStart => Css.CssFlexJustifyContent.FlexStart
    case FlexEnd => Css.CssFlexJustifyContent.FlexEnd
    case Center => Css.CssFlexJustifyContent.Center
    case SpaceBetween => Css.CssFlexJustifyContent.SpaceBetween
    case SpaceAround => Css.CssFlexJustifyContent.SpaceAround
  }

  /** `RespoTransform`, with its numbers as text. */
  datatype RespoTransform =
    | Translate(x: F32Text, y: F32Text)
    | Scale(x: F32Text, y: F32Text)
    | Rotate(deg: F32Text)
    | Skew(x: F32Text, y: F32Text)
    | Matrix(a: F32Text, b: F32Text, c: F32Text, d: F32Text, e: F32Text, g: F32Text)

  function TransformText(t: RespoTransform): string
  {
    match t
    case Translate(x, y) => "translate(" + x + "px, " + y + "px)"
    case Scale(x, y) => "scale(" + x + ", " + y + ")"
    case Rotate(r) => "rotate(" + r + "deg)"
    case Skew(x, y) => "skew(" + x + "deg, " + y + "deg)"
    case Matrix(a, b, c, d, e, g) => "matrix(" + a + ", " + b + ", " + c + ", " + d + ", " + e + ", " + g + ")"
  }

  /** `RespoStyleRule`. The keyword enums that are the same in both generations are shared. */
  datatype RespoStyleRule =
    | Width(size: RespoSize)
    | Height(size: RespoSize)
    | Margin(m: F32Text)
    | Margin4(top: F32Text, right: F32Text, bottom: F32Text, left: F32Text)
    | Padding(p: F32Text)
    | Padding4(top: F32Text, right: F32Text, bottom: F32Text, left: F32Text)
    | Border(width: F32Text, style: Css.CssBorderStyle, color: RespoColor)
    | Outline(width: F32Text, style: Css.CssBorderStyle, color: RespoColor)
    | BoxShadow(x: F32Text, y: F32Text, blur: F32Text, spread: F32Text, color: RespoColor)
    | BorderRadius(radius: F32Text)
    | Overflow(overflow: Css.CssOverflow)
    | MaxWidth(size: RespoSize)
    | MaxHeight(size: RespoSize)
    | Opacity(opacity: F32Text)
    | BackgroundColor(color: RespoColor)
    | BackgroundImage(image: string)
    | BackgroundSize(bgSize: RespoBackgroundSize)
    | BackgroundFilter(filter: string)
    | Color(color: RespoColor)
    | FontFamily(family: string)
    | FontSize(fontSize: F32Text)
    | FontStyle(fontStyle: Css.CssFontStyle)
    | TextShadow(x: F32Text, y: F32Text, blur: F32Text, color: RespoColor)
    | LineHeight(lineHeight: RespoLineHeight)
    | VerticalAlign(align: Css.CssVerticalAlign)
    | TextOverflow(textOverflow: Css.CssTextOverflow)
    | Cursor(cursor: string)
    | Display(display: Css.CssDisplay)
    | FlexDirection(direction: Css.CssFlexDirection)
    | FlexWrap(wrap: Css.CssFlexWrap)
    | JustifyContent(content: RespoFlexJustifyContent)
    | AlignItems(alignItems: Css.CssFlexAlignItems)
    | Position(position: Css.CssPosition)
    | Top(size: RespoSize)
    | Left(size: RespoSize)
    | Right(size: RespoSize)
    | Bottom(size: RespoSize)
    | ZIndex(index: int)
    | Transform(transform: RespoTransform)
    | TransitionDuration(duration: F32Text)
    | TransitionProperty(property: string)
    | TransitionTimingFunction(timing: Css.CssTimingFunction)
    | TransitionDelay(delay: F32Text)

  /** Every colour inside the rule is in range, and a `z-index` fits an `i32`. */
  predicate RuleValid(rule: RespoStyleRule)
  {
    match rule
    case Border(_, _, c) => ColorValid(c)
    case Outline(_, _, c) => ColorValid(c)
    case BoxShadow(_, _, _, _, c) => ColorValid(c)
    case BackgroundColor(c) => ColorValid(c)
    case Color(c) => ColorValid(c)
    case TextShadow(_, _, _, c) => ColorValid(c)
    case ZIndex(i) => -0x8000_0000 <= i < 0x8000_0000
    case _ => true
  }

  /** The property a rule sets; each rule sets exactly one, fixed by its variant. */
  function Property(rule: RespoStyleRule): string
  {
    match rule
    case Width(_) => "width"
    case Height(_) => "height"
    case Margin(_) => "margin"
    case Margin4(_, _, _, _) => "margin"
    case Padding(_) => "padding"
    case Padding4(_, _, _, _) => "padding"
    case Border(_, _, _) => "border"
    case Outline(_, _, _) => "outline"
    case BoxShadow(_, _, _, _, _) => "box-shadow"
    case BorderRadius(_) => "border-radius"
    case Overflow(_) => "overflow"
    case MaxWidth(_) => "max-width"
    case MaxHeight(_) => "max-height"
    case Opacity(_) => "opacity"
    case BackgroundColor(_) => "background-color"
    case BackgroundImage(_) => "background-image"
    case BackgroundSize(_) => "background-size"
    case BackgroundFilter(_) => "background-filter"
    case Color(_) => "color"
    case FontFamily(_) => "font-family"
    case FontSize(_) => "font-size"
    case FontStyle(_) => "font-style"
    case TextShadow(_, _, _, _) => "text-shadow"
    case LineHeight(_) => "line-height"
    case VerticalAlign(_) => "vertical-align"
    case TextOverflow(_) => "text-overflow"
    case Cursor(_) => "cursor"
    case Display(_) => "display"
    case FlexDirection(_) => "flex-direction"
    case FlexWrap(_) => "flex-wrap"
    case JustifyContent(_) => "justify-content"
    case AlignItems(_) => "align-items"
    case Position(_) => "position"
    case Top(_) => "top"
    case Left(_) => "left"
    case Right(_) => "right"
    case Bottom(_) => "bottom"
    case ZIndex(_) => "z-index"
    case Transform(_) => "transform"
    case TransitionDuration(_) => "transition-duration"
    case TransitionProperty(_) => "transition-property"
    case TransitionTimingFunction(_) => "transition-timing-function"
    case TransitionDelay(_) => "transition-delay"
  }

  /** The value text of every rule whose value `get_pair` writes correctly; the rules it
    * gets wrong are handled by `GetPair` and `GetPairFixed`. */
  function CommonValue(rule: RespoStyleRule): string
    requires RuleValid(rule)
  {
    match rule
    case Width(size) => SizeText(size)
    case Height(size) => SizeText(size)
    case Margin(m) => m + "px"
    case Margin4(t, r, b, l) => t + "px " + r + "px " + b + "px " + l + "px"
    case Padding(p) => p + "px"
    case Padding4(t, r, b, l) => t + "px " + r + "px " + b + "px " + l + "px"
    case Border(w, s, c) => w + "px " + Css.BorderStyleText(s) + " " + ColorText(c)
    case Outline(w, s, c) => w + "px " + Css.BorderStyleText(s) + " " + ColorText(c)
    case BoxShadow(x, y, blur, spread, c) =>
      x + "px " + y + "px " + blur + "px " + spread + "px " + ColorText(c)
    case BorderRadius(r) => r + "px"
    case Overflow(o) => Css.OverflowText(o)
    case MaxWidth(size) => SizeText(size)
    case MaxHeight(size) => SizeText(size)
    case Opacity(o) => o
    case BackgroundColor(c) => ColorText(c)
    case BackgroundImage(i) => i
    case BackgroundSize(b) => BackgroundSizeText(b)
    case BackgroundFilter(f) => f
    case Color(c) => ColorText(c)
    case FontFamily(f) => f
    case FontSize(s) => s + "px"
    case FontStyle(s) => Css.FontStyleText(s)
    case TextShadow(x, y, blur, c) => x + "px " + y + "px " + blur + "px " + ColorText(c)
    case LineHeight(l) => LineHeightText(l)
    case VerticalAlign(a) => Css.VerticalAlignText(a)
    case TextOverflow(t) => Css.TextOverflowText(t)
    case Cursor(v) => v
    case Display(d) => Css.DisplayText(d)
    case FlexDirection(d) => Css.FlexDirectionText(d)
    case FlexWrap(w) => Css.FlexWrapText(w)
    case JustifyContent(j) => JustifyContentText(j)
    case AlignItems(a) => Css.AlignItemsText(a)
    case Position(p) => Css.PositionText(p)
    case Top(size) => SizeText(size)
    case Left(size) => SizeText(size)
    case Right(size) => SizeText(size)
    case Bottom(size) => SizeText(size)
    case ZIndex(i) => IntToString(i)
    case Transform(t) => TransformText(t)
    case TransitionDuration(d) => d
    case TransitionProperty(p) => p
    case TransitionTimingFunction(t) => Css.TimingFunctionText(t)
    case TransitionDelay(d) => d
  }

  /** `get_pair` as written: `max-width` and `max-height` append "px" to a size that already
    * carries its unit, and `text-shadow` appends "px" after the colour. */
  function GetPair(rule: RespoStyleRule): (r: (string, string))
    requires RuleValid(rule)
    ensures r.0 == Property(rule)
    ensures !(rule.MaxWidth? || rule.MaxHeight? || rule.TextShadow?) ==> r.1 == CommonValue(rule)
    ensures (rule.MaxWidth? || rule.MaxHeight?) ==> r.1 == SizeText(rule.size) + "px"
    ensures rule.TextShadow? ==> r.1 == CommonValue(rule) + "px"
  {
    if rule.MaxWidth? || rule.MaxHeight? then (Property(rule), SizeText(rule.size) + "px")
    else if rule.TextShadow? then (Property(rule), CommonValue(rule) + "px")
    else (Property(rule), CommonValue(rule))
  }

  /** `get_pair` as intended: every value is its rule's own text. */
  function GetPairFixed(rule: RespoStyleRule): (r: (string, string))
    requires RuleValid(rule)
    ensures r == (Property(rule), CommonValue(rule))
    ensures (rule.MaxWidth? || rule.MaxHeight?) ==> r.1 == GetPair(Width(rule.size)).1
    ensures !(rule.MaxWidth? || rule.MaxHeight? || rule.TextShadow?) ==> r == GetPair(rule)
  {
    (Property(rule), CommonValue(rule))
  }

  /** The double unit: `MaxWidth(RespoSize.Px("10"))` gives "10pxpx" and `MaxWidth(Auto)` "autopx",
    * where the same sizes as `Width` give "10px" and "auto". */
  lemma MaxWidthDoubleUnit()
    ensures GetPair(MaxWidth(RespoSize.Px("10"))).1 == "10pxpx"
    ensures GetPair(MaxWidth(Auto)).1 == "autopx"
    ensures GetPair(Width(RespoSize.Px("10"))).1 == "10px"
    ensures GetPairFixed(MaxWidth(RespoSize.Px("10"))).1 == "10px"
    ensures GetPairFixed(MaxWidth(Auto)).1 == "auto"
  {
  }

  /** The trailing unit after the colour: `TextShadow("1","2","3",Red)` gives
    * "1px 2px 3px redpx" where "1px 2px 3px red" is meant. */
  lemma TextShadowColorUnit()
    ensures GetPair(TextShadow("1", "2", "3", Red)).1 == "1px 2px 3px redpx"
    ensures GetPairFixed(TextShadow("1", "2", "3", Red)).1 == "1px 2px 3px red"
  {
  }

  /** A `z-index` is written in decimal, with a '-' for a negative index. */
  lemma ZIndexDecimal(i: int)
    requires -0x8000_0000 <= i < 0x8000_0000
    ensures GetPair(ZIndex(i)) == ("z-index", IntToString(i))
    ensures i >= 0 ==> DecimalValue(GetPair(ZIndex(i)).1) == i
  {
    var rule := ZIndex(i);
    assert Property(rule) == "z-index";
    assert CommonValue(rule) == IntToString(i);
    if i >= 0 {
      DecimalRoundTrip(i);
    }
  }

  /** `Display for RespoStyleRule`: the property directly followed by the value. */
  function RuleText(rule: RespoStyleRule): (r: string)
    requires RuleValid(rule)
    ensures r == GetPair(rule).0 + GetPair(rule).1
    ensures Property(rule) <= r
  {
    var (p, v) := GetPair(rule);
    p + v
  }

  type Style = map<string, string>

  /** One entry as `Display for RespoStyle` writes it. */
  function EntryText(s: Style, key: string): string
    requires key in s
  {
    key + ":" + s[key] + ";"
  }

  /** The text of the entries of `s` taken in the order `keys`. */
  function EntriesText(s: Style, keys: seq<string>): string
    requires forall i :: 0 <= i < |keys| ==> keys[i] in s
  {
    if |keys| == 0 then "" else EntriesText(s, keys[..|keys| - 1]) + EntryText(s, keys[|keys| - 1])
  }

  /** Entry texts never run into each other: each ends with ';'. */
  lemma EntriesTextEnds(s: Style, keys: seq<string>)
    requires forall i :: 0 <= i < |keys| ==> keys[i] in s
    requires |keys| > 0
    ensures |EntriesText(s, keys)| > 0 && EntriesText(s, keys)[|EntriesText(s, keys)| - 1] == ';'
  {
  }

  /** `Display for RespoStyle`: every entry written once as "key:value;", in the map's
    * iteration order, which the source leaves unspecified and is returned as `order`. */
  method DisplayStyle(s: Style) returns (text: string, order: seq<string>)
    ensures |order| == |s.Keys| && (forall i :: 0 <= i < |order| ==> order[i] in s)
    ensures forall i, j :: 0 <= i < j < |order| ==> order[i] != order[j]
    ensures forall k :: k in s ==> k in order
    ensures text == EntriesText(s, order)
  {
    text := "";
    order := [];
    var rest := s.Keys;
    while rest != {}
      invariant rest <= s.Keys
      invariant forall i :: 0 <= i < |order| ==> order[i] in s && order[i] !in rest
      invariant forall i, j :: 0 <= i < j < |order| ==> order[i] != order[j]
      invariant forall k :: k in s ==> k in rest || k in order
      invariant |order| + |rest| == |s.Keys|
      invariant text == EntriesText(s, order)
      decreases |rest|
    {
      var k :| k in rest;
      assert (order + [k])[..|order|] == order;
      text := text + EntryText(s, k);
      order := order + [k];
      rest := rest - {k};
    }
  }

  /** The style map the `src/` builders fill through `add` and `insert`. */
  class StyleMap {
    var entries: Style

    constructor()
      ensures entries == map[]
    {
      entries := map[];
    }

    /** `insert`: the property is set, overwriting an earlier value. */
    method Insert(property: string, value: string)
      modifies this
      ensures entries == old(entries)[property := value]
    {
      entries := entries[property := value];
    }

    /** `add`: inserts exactly the rule's pair. */
    method Add(rule: RespoStyleRule)
      requires RuleValid(rule)
      modifies this
      ensures entries == old(entries)[Property(rule) := GetPair(rule).1]
    {
      var (property, value) := GetPair(rule);
      Insert(property, value);
    }
  }

  /** The by-value meaning of `add`, for reasoning about several calls. */
  function AddRule(s: Style, rule: RespoStyleRule): (r: Style)
    requires RuleValid(rule)
    ensures r.Keys == s.Keys + {Property(rule)}
    ensures r[Property(rule)] == GetPair(rule).1
    ensures forall k :: k in s && k != Property(rule) ==> r[k] == s[k]
  {
    s[GetPair(rule).0 := GetPair(rule).1]
  }

  /** Rules for the same property overwrite each other: only the last one is kept, e.g. a
    * `Margin4` after a `Margin`. */
  lemma LaterRuleWins(s: Style, a: RespoStyleRule, b: RespoStyleRule)
    requires RuleValid(a) && RuleValid(b)
    requires Property(a) == Property(b)
    ensures AddRule(AddRule(s, a), b) == AddRule(s, b)
  {
    var l, r := AddRule(AddRule(s, a), b), AddRule(s, b);
    assert l.Keys == r.Keys;
    forall k | k in l
      ensures l[k] == r[k]
    {
    }
  }

  /** Rules for different properties commute. */
  lemma DistinctRulesCommute(s: Style, a: RespoStyleRule, b: RespoStyleRule)
    requires RuleValid(a) && RuleValid(b)
    requires Property(a) != Property(b)
    ensures AddRule(AddRule(s, a), b) == AddRule(AddRule(s, b), a)
  {
    var l, r := AddRule(AddRule(s, a), b), AddRule(AddRule(s, b), a);
    assert l.Keys == r.Keys;
    forall k | k in l
      ensures l[k] == r[k]
    {
    }
  }
}
