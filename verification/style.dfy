/** Text styling: colours, attributes and the style a cell is drawn with
    (src/style.rs). */
module Styles {
  import opened Common

  /** A `u8`. */
  type U8 = x: int | 0 <= x <= 0xFF

  datatype Rgb = Rgb(r: U8, g: U8, b: U8)

  datatype Color =
    | Default
    | Black | DarkGray | LightGray | White
    | Red | DarkRed | Green | DarkGreen | Yellow | DarkYellow
    | Blue | DarkBlue | Magenta | DarkMagenta | Cyan | DarkCyan
    | AnsiValue(value: U8)
    | RgbColor(rgb: Rgb)

  datatype Intensity = Dim | Normal | Bold

  datatype Attributes = Attributes(
    intensity: Intensity,
    italic: bool,
    underlined: bool,
    blinking: bool,
    crossedOut: bool)

  datatype Style = Style(foreground: Color, background: Color, attributes: Attributes)

  /** The derived `Default` of `Color`. */
  function DefaultColor(): (c: Color)
    ensures c.Default?
  {
    Default
  }

  /** The derived `Default` of `Attributes`: every field at its own default. */
  const DefaultAttributes: Attributes := Attributes(Normal, false, false, false, false)

  /** `Attributes::new()`. */
  function NewAttributes(): (a: Attributes)
    ensures a == DefaultAttributes
    ensures a.intensity == Normal && !a.italic && !a.underlined && !a.blinking && !a.crossedOut
  {
    Attributes(Normal, false, false, false, false)
  }

  /** The derived `Default` of `Style`. */
  const DefaultStyle: Style := Style(Default, Default, DefaultAttributes)

  /** `Color::ansi_rgb`: the 6x6x6 colour cube of the 256-colour palette.
      The source asserts each component is at most 5 and panics otherwise. */
  function AnsiRgb(r: U8, g: U8, b: U8): (c: Result<Color>)
    ensures c.Ok? <==> r <= 5 && g <= 5 && b <= 5
    ensures c.Ok? ==> c.value.AnsiValue? && 16 <= c.value.value <= 231
    ensures c.Ok? ==> c.value.value == 16 + 36 * r + 6 * g + b
  {
    if r <= 5 && g <= 5 && b <= 5 then Ok(AnsiValue(16 + 36 * r + 6 * g + b)) else Panic
  }

  /** Distinct cube coordinates give distinct palette entries. */
  lemma AnsiRgbInjective(r: U8, g: U8, b: U8, r': U8, g': U8, b': U8)
    requires AnsiRgb(r, g, b).Ok? && AnsiRgb(r, g, b) == AnsiRgb(r', g', b')
    ensures r == r' && g == g' && b == b'
  {
  }

  /** `Color::ansi_grayscale`: the 24 grey shades after the cube. The source
      asserts the shade is below 24 and panics otherwise. */
  function AnsiGrayscale(shade: U8): (c: Result<Color>)
    ensures c.Ok? <==> shade < 24
    ensures c.Ok? ==> c.value.AnsiValue? && 232 <= c.value.value <= 255
    ensures c.Ok? ==> c.value.value - 232 == shade
  {
    if shade < 24 then Ok(AnsiValue(0xE8 + shade)) else Panic
  }

  /** `Rgb::opposite`: every component mirrored around the middle. */
  function Opposite(c: Rgb): (o: Rgb)
    ensures o.r + c.r == 255 && o.g + c.g == 255 && o.b + c.b == 255
  {
    Rgb(255 - c.r, 255 - c.g, 255 - c.b)
  }

  lemma OppositeInvolution(c: Rgb)
    ensures Opposite(Opposite(c)) == c
  {
  }

  /** The attribute builders: each sets exactly one field. */
  function WithBold(a: Attributes): (r: Attributes)
    ensures r == a.(intensity := Bold)
  {
    Attributes(Bold, a.italic, a.underlined, a.blinking, a.crossedOut)
  }

  function WithDim(a: Attributes): (r: Attributes)
    ensures r == a.(intensity := Dim)
  {
    Attributes(Dim, a.italic, a.underlined, a.blinking, a.crossedOut)
  }

  function WithItalic(a: Attributes): (r: Attributes)
    ensures r == a.(italic := true)
  {
    Attributes(a.intensity, true, a.underlined, a.blinking, a.crossedOut)
  }

  function WithUnderlined(a: Attributes): (r: Attributes)
    ensures r == a.(underlined := true)
  {
    Attributes(a.intensity, a.italic, true, a.blinking, a.crossedOut)
  }

  function WithBlinking(a: Attributes): (r: Attributes)
    ensures r == a.(blinking := true)
  {
    Attributes(a.intensity, a.italic, a.underlined, true, a.crossedOut)
  }

  function WithCrossedOut(a: Attributes): (r: Attributes)
    ensures r == a.(crossedOut := true)
  {
    Attributes(a.intensity, a.italic, a.underlined, a.blinking, true)
  }

  /** Applying a builder twice is the same as applying it once. */
  lemma BuildersIdempotent(a: Attributes)
    ensures WithBold(WithBold(a)) == WithBold(a)
    ensures WithDim(WithDim(a)) == WithDim(a)
    ensures WithItalic(WithItalic(a)) == WithItalic(a)
    ensures WithUnderlined(WithUnderlined(a)) == WithUnderlined(a)
    ensures WithBlinking(WithBlinking(a)) == WithBlinking(a)
    ensures WithCrossedOut(WithCrossedOut(a)) == WithCrossedOut(a)
  {
  }
}
