/** The colour parser of the PDF export: `#rgb` and `#rrggbb` hex, or a
    `rgb(...)` / `rgba(...)` call found anywhere in the string, turned into
    channels between 0 and 1 and an opacity. `parseInt(s, 16)` and
    `parseFloat` are the runtime's, supplied through `JsMath`. */
module Color {
  import opened Geometry
  import opened JsText

  /** Red, green and blue in 0..1 and an opacity. */
  datatype Rgba = Rgba(r: real, g: real, b: real, alpha: real)

  predicate InUnit(x: real) {
    0.0 <= x <= 1.0
  }

  predicate WellFormed(c: Rgba) {
    InUnit(c.r) && InUnit(c.g) && InUnit(c.b) && InUnit(c.alpha)
  }

  /** The ECMAScript ToInt32 conversion that `>>` applies to its operand. */
  function ToInt32(x: int): (r: int)
    ensures -0x8000_0000 <= r < 0x8000_0000 && (r - x) % 0x1_0000_0000 == 0
  {
    var m := x % 0x1_0000_0000;
    if m >= 0x8000_0000 then m - 0x1_0000_0000 else m
  }

  /** `(n >> shift) & 255` on a 32-bit integer: an arithmetic shift rounds
      toward minus infinity, and the mask keeps the low eight bits, which is
      Euclidean division and remainder. */
  function Byte(n: int, shift: nat): (r: int)
    ensures 0 <= r < 256
  {
    var p := if shift == 16 then 0x1_0000 else if shift == 8 then 0x100 else 1;
    (n / p) % 256
  }

  /** Three hex digits become six by doubling each. */
  function Doubled(hex: string): (r: string)
    ensures |r| == 2 * |hex|
    ensures forall k :: 0 <= k < |r| ==> r[k] == hex[k / 2]
  {
    if hex == [] then [] else [hex[0], hex[0]] + Doubled(hex[1..])
  }

  /** The hex body after `#`, expanded when it is three long. */
  function Normalized(hex: string): string {
    if Utf16Length(hex) == 3 then Doubled(hex) else hex
  }

  /** The hex branch: `None` unless the normalised body is six long; the
      channels are bytes 2, 1 and 0 of the parsed number (NaN counts as 0);
      the opacity is 1. */
  function ParseHexColor(hex: string, math: JsMath): (c: Option<Rgba>)
    ensures c.Some? <==> Utf16Length(Normalized(hex)) == 6
    ensures c.Some? ==> WellFormed(c.value) && c.value.alpha == 1.0
  {
    var normalized := Normalized(hex);
    if Utf16Length(normalized) != 6 then None
    else
      var parsed := math.parseHex(normalized);
      var n := ToInt32(if parsed.Some? then parsed.value else 0);
      Some(Rgba(Byte(n, 16) as real / 255.0, Byte(n, 8) as real / 255.0, Byte(n, 0) as real / 255.0, 1.0))
  }

  /** `rgb` at position `i`, each letter in either case. */
  predicate RgbAt(t: string, i: nat) {
    i + 3 <= |t| && IsLetterIgnoringCase(t[i], 'r') && IsLetterIgnoringCase(t[i + 1], 'g')
    && IsLetterIgnoringCase(t[i + 2], 'b')
  }

  /** The match of `/rgba?\(([^)]+)\)/i` that starts at position `i`, if there
      is one: what lies between the opening parenthesis and the first closing
      one, which must not be empty. */
  function CallAt(t: string, i: nat): (capture: Option<string>)
    ensures capture.Some? ==> RgbAt(t, i) && capture.value != []
  {
    if !RgbAt(t, i) then None
    else
      var open := if i + 3 < |t| && IsLetterIgnoringCase(t[i + 3], 'a') then i + 4 else i + 3;
      if open >= |t| || t[open] != '(' then None
      else
        match IndexOf(t, ')', open + 1)
        case None => None
        case Some(close) =>
          if close == open + 1 then None
          else Some(t[open + 1..close])
  }

  /** The leftmost match at or after position `i`. */
  function FindCall(t: string, i: nat): (capture: Option<string>)
    decreases |t| - i
    ensures capture.Some? ==> exists k :: i <= k < |t| && CallAt(t, k) == capture
    ensures capture.None? ==> forall k :: i <= k < |t| ==> CallAt(t, k).None?
  {
    if i >= |t| then None
    else match CallAt(t, i)
      case Some(capture) => Some(capture)
      case None => FindCall(t, i + 1)
  }

  function TrimAll(parts: seq<string>): (r: seq<string>)
    ensures |r| == |parts| && forall k :: 0 <= k < |r| ==> r[k] == Trim(parts[k])
  {
    seq(|parts|, k requires 0 <= k < |parts| => Trim(parts[k]))
  }

  /** `Math.min(1, Math.max(0, x))`. */
  function Clamp(x: real): (r: real)
    ensures InUnit(r)
    ensures InUnit(x) ==> r == x
  {
    Min(1.0, Max(0.0, x))
  }

  /** The trimmed comma-separated components of the leftmost `rgb(...)` or
      `rgba(...)` call. */
  function Components(t: string): Option<seq<string>> {
    match FindCall(t, 0)
    case None => None
    case Some(capture) => Some(TrimAll(Split(capture, ',')))
  }

  /** The functional branch once the components are known: at least three
      are needed and the first three must parse; each channel is divided by
      255 and clamped, the opacity defaults to 1 when absent or NaN and is
      clamped. */
  function FromComponents(parts: seq<string>, math: JsMath): (c: Option<Rgba>)
    ensures c.Some? ==> WellFormed(c.value)
  {
    if |parts| < 3 then None
    else
      var r := math.parseFloat(parts[0]);
      var g := math.parseFloat(parts[1]);
      var b := math.parseFloat(parts[2]);
      var alpha := if |parts| >= 4 then math.parseFloat(parts[3]) else Some(1.0);
      if r.None? || g.None? || b.None? then None
      else
        Some(Rgba(Clamp(r.value / 255.0), Clamp(g.value / 255.0), Clamp(b.value / 255.0),
                  if alpha.None? then 1.0 else Clamp(alpha.value)))
  }

  function ParseFunctionalColor(t: string, math: JsMath): (c: Option<Rgba>)
    ensures c.Some? ==> WellFormed(c.value)
  {
    match Components(t)
    case None => None
    case Some(parts) => FromComponents(parts, math)
  }

  /** `parseColor`: `None` for a missing or empty value, otherwise the hex
      branch when the trimmed value starts with `#` and the functional branch
      for everything else. */
  function ParseColor(value: Option<string>, math: JsMath): (c: Option<Rgba>)
    ensures c.Some? ==> WellFormed(c.value)
  {
    if value.None? || value.value == [] then None
    else
      var t := Trim(value.value);
      if |t| > 0 && t[0] == '#' then ParseHexColor(t[1..], math) else ParseFunctionalColor(t, math)
  }

  // ------------------------------------------------------------ properties

  /** A trimmed value starting with `#` is parsed as hex: it gives a colour
      exactly when its body, expanded from three digits, is six long, and
      that colour is opaque. */
  lemma HexColorShape(value: string, math: JsMath)
    requires |Trim(value)| > 0 && Trim(value)[0] == '#'
    ensures ParseColor(Some(value), math).Some? <==> Utf16Length(Normalized(Trim(value)[1..])) == 6
    ensures ParseColor(Some(value), math).Some? ==> ParseColor(Some(value), math).value.alpha == 1.0
  {
    assert value != [];
  }

  /** The body of a three-digit colour is read as the six-digit one with every
      digit doubled. */
  lemma ShortHexDoubles(d1: char, d2: char, d3: char, math: JsMath)
    requires d1 as int < 0x1_0000 && d2 as int < 0x1_0000 && d3 as int < 0x1_0000
    ensures ParseHexColor([d1, d2, d3], math) == ParseHexColor([d1, d1, d2, d2, d3, d3], math)
  {
    var six := [d1, d1, d2, d2, d3, d3];
    Utf16LengthInPlane([d1, d2, d3]);
    assert Doubled([d1, d2, d3]) == six;
    Utf16LengthInPlane(six);
  }

  /** Six `f` digits are full intensity in every channel. */
  lemma WhiteBody(math: JsMath)
    requires math.parseHex("ffffff") == Some(0xFF_FFFF)
    ensures ParseHexColor("ffffff", math) == Some(Rgba(1.0, 1.0, 1.0, 1.0))
  {
    Utf16LengthInPlane("ffffff");
    assert ToInt32(0xFF_FFFF) == 0xFF_FFFF;
    assert Byte(0xFF_FFFF, 16) == 255 && Byte(0xFF_FFFF, 8) == 255 && Byte(0xFF_FFFF, 0) == 255;
  }

  /** `#fff` is opaque white. */
  lemma WhiteShorthand(math: JsMath)
    requires math.parseHex("ffffff") == Some(0xFF_FFFF)
    ensures ParseColor(Some("#fff"), math) == Some(Rgba(1.0, 1.0, 1.0, 1.0))
  {
    TrimOfTrimmed("#fff");
    assert "#fff"[1..] == "fff";
    ShortHexDoubles('f', 'f', 'f', math);
    WhiteBody(math);
  }

  /** A colour is found only where `rgb` occurs. */
  lemma {:induction false} NoCallWithoutRgb(t: string, i: nat)
    requires forall k :: i <= k < |t| ==> !RgbAt(t, k)
    ensures FindCall(t, i).None?
    decreases |t| - i
  {
    if i < |t| {
      NoCallWithoutRgb(t, i + 1);
    }
  }

  /** A keyword such as `transparent` (fabric's usual background) is neither
      hex nor a functional colour. */
  lemma TransparentIsNoColor(math: JsMath)
    ensures ParseColor(Some("transparent"), math).None?
  {
    var t := "transparent";
    TrimOfTrimmed(t);
    forall k | 0 <= k < |t| ensures !RgbAt(t, k) {
      if k + 3 <= |t| {
        assert !IsLetterIgnoringCase(t[k], 'r') || !IsLetterIgnoringCase(t[k + 1], 'g');
      }
    }
    NoCallWithoutRgb(t, 0);
  }

  /** Whatever the runtime's parsers return, every colour has channels and
      opacity in 0..1. */
  lemma ColorsWellFormed(value: Option<string>, math: JsMath)
    requires ParseColor(value, math).Some?
    ensures WellFormed(ParseColor(value, math).value)
  {
  }

  /** A functional colour needs three components whose numbers parse; each
      channel is the component over 255, clamped; the opacity is the fourth
      component's, clamped, or 1 when there is none or it is NaN. */
  lemma FunctionalColorShape(parts: seq<string>, math: JsMath)
    ensures FromComponents(parts, math).Some? <==>
      |parts| >= 3 && math.parseFloat(parts[0]).Some? && math.parseFloat(parts[1]).Some?
      && math.parseFloat(parts[2]).Some?
    ensures FromComponents(parts, math).Some? ==>
      FromComponents(parts, math).value.r == Clamp(math.parseFloat(parts[0]).value / 255.0)
      && FromComponents(parts, math).value.g == Clamp(math.parseFloat(parts[1]).value / 255.0)
      && FromComponents(parts, math).value.b == Clamp(math.parseFloat(parts[2]).value / 255.0)
    ensures FromComponents(parts, math).Some? ==>
      FromComponents(parts, math).value.alpha
        == if |parts| >= 4 && math.parseFloat(parts[3]).Some? then Clamp(math.parseFloat(parts[3]).value) else 1.0
  {
  }

  /** A trimmed value that does not start with `#` is read by the
      functional branch. */
  lemma FunctionalBranch(t: string, math: JsMath)
    requires t != [] && Trim(t) == t && t[0] != '#'
    ensures ParseColor(Some(t), math) == match Components(t)
                                           case None => None
                                           case Some(parts) => FromComponents(parts, math)
  {
  }

  /** The call syntax the editor writes, `rgb(body)` or `rgba(body)`, is
      found and its body captured. */
  lemma CallOfWrapped(name: string, body: string)
    requires name == "rgb" || name == "rgba"
    requires body != [] && ')' !in body
    ensures FindCall(name + "(" + body + ")", 0) == Some(body)
  {
    var t := name + "(" + body + ")";
    var open := |name|;
    assert t[open] == '(' && t[open + 1 + |body|] == ')';
    forall k | open + 1 <= k < open + 1 + |body| ensures t[k] != ')' {
      assert t[k] == body[k - open - 1];
    }
    assert IndexOf(t, ')', open + 1) == Some(open + 1 + |body|);
    assert t[open + 1..open + 1 + |body|] == body;
    assert RgbAt(t, 0);
  }

  lemma SplitFour(a: string, b: string, c: string, d: string)
    requires ',' !in a && ',' !in b && ',' !in c && ',' !in d
    ensures Split(a + "," + b + "," + c + "," + d, ',') == [a, b, c, d]
  {
    SplitWithoutSeparator(d, ',');
    SplitAtFirst(c, d, ',');
    assert b + "," + c + "," + d == b + [','] + (c + [','] + d);
    SplitAtFirst(b, c + [','] + d, ',');
    assert a + "," + b + "," + c + "," + d == a + [','] + (b + [','] + (c + [','] + d));
    SplitAtFirst(a, b + [','] + (c + [','] + d), ',');
  }

  /** What the editor writes between commas: a trimmed, non-empty number
      with no comma or closing parenthesis. */
  predicate Component(x: string) {
    x != [] && IsTrimmed(x) && ',' !in x && ')' !in x
  }

  function RgbaText(r: string, g: string, b: string, a: string): string {
    "rgba(" + r + "," + g + "," + b + "," + a + ")"
  }

  lemma RgbaTextCall(r: string, g: string, b: string, a: string)
    requires Component(r) && Component(g) && Component(b) && Component(a)
    ensures FindCall(RgbaText(r, g, b, a), 0) == Some(r + "," + g + "," + b + "," + a)
  {
    var body := r + "," + g + "," + b + "," + a;
    assert ')' !in body;
    assert RgbaText(r, g, b, a) == "rgba" + "(" + body + ")";
    CallOfWrapped("rgba", body);
  }

  lemma RgbaTextParts(r: string, g: string, b: string, a: string)
    requires Component(r) && Component(g) && Component(b) && Component(a)
    ensures TrimAll(Split(r + "," + g + "," + b + "," + a, ',')) == [r, g, b, a]
  {
    SplitFour(r, g, b, a);
    TrimOfTrimmed(r);
    TrimOfTrimmed(g);
    TrimOfTrimmed(b);
    TrimOfTrimmed(a);
  }

  lemma RgbaTextComponents(r: string, g: string, b: string, a: string)
    requires Component(r) && Component(g) && Component(b) && Component(a)
    ensures RgbaText(r, g, b, a) != [] && RgbaText(r, g, b, a)[0] != '#'
    ensures Trim(RgbaText(r, g, b, a)) == RgbaText(r, g, b, a)
    ensures Components(RgbaText(r, g, b, a)) == Some([r, g, b, a])
  {
    var t := RgbaText(r, g, b, a);
    RgbaTextCall(r, g, b, a);
    RgbaTextParts(r, g, b, a);
    assert t[0] == 'r' && t[|t| - 1] == ')';
    TrimOfTrimmed(t);
  }

  lemma FromFourComponents(r: string, g: string, b: string, a: string, math: JsMath)
    requires math.parseFloat(r).Some? && math.parseFloat(g).Some? && math.parseFloat(b).Some?
    ensures FromComponents([r, g, b, a], math)
         == Some(Rgba(Clamp(math.parseFloat(r).value / 255.0), Clamp(math.parseFloat(g).value / 255.0),
                      Clamp(math.parseFloat(b).value / 255.0),
                      if math.parseFloat(a).Some? then Clamp(math.parseFloat(a).value) else 1.0))
  {
    var parts := [r, g, b, a];
    assert parts[0] == r && parts[1] == g && parts[2] == b && parts[3] == a;
  }

  /** A colour written as `rgba(r,g,b,a)` reads back each component: the
      channels over 255, clamped to 0..1, and the opacity clamped, or 1 when
      it is NaN. */
  lemma RgbaComponents(r: string, g: string, b: string, a: string, math: JsMath)
    requires Component(r) && Component(g) && Component(b) && Component(a)
    requires math.parseFloat(r).Some? && math.parseFloat(g).Some? && math.parseFloat(b).Some?
    ensures ParseColor(Some(RgbaText(r, g, b, a)), math)
         == Some(Rgba(Clamp(math.parseFloat(r).value / 255.0), Clamp(math.parseFloat(g).value / 255.0),
                      Clamp(math.parseFloat(b).value / 255.0),
                      if math.parseFloat(a).Some? then Clamp(math.parseFloat(a).value) else 1.0))
  {
    var t := RgbaText(r, g, b, a);
    RgbaTextComponents(r, g, b, a);
    FunctionalBranch(t, math);
    assert ParseColor(Some(t), math) == FromComponents([r, g, b, a], math);
    FromFourComponents(r, g, b, a, math);
  }
}
