/** Terminal inputs and the patterns that match them (src/input.rs). */
module Inputs {
  import opened Vectors
  import opened Common

  type U8 = x: int | 0 <= x <= 0xFF

  datatype Key =
    | Backspace | Left | Right | Up | Down | Home | End | PageUp | PageDown
    | Insert | Escape
    | F(n: U8)
    | Char(c: char)

  datatype Modifiers = Modifiers(shift: bool, control: bool, alt: bool)

  const NoModifiers: Modifiers := Modifiers(false, false, false)

  datatype KeyPress = KeyPress(key: Key, modifiers: Modifiers)

  datatype MouseButton = LeftButton | MiddleButton | RightButton

  datatype MouseKind = Press(button: MouseButton) | Release | Hold | ScrollDown | ScrollUp

  datatype Mouse = Mouse(kind: MouseKind, at: Vec2<U16>, size: Vec2<U16>, modifiers: Modifiers)

  datatype Input = KeyInput(press: KeyPress) | MouseInput(mouse: Mouse)

  predicate IsAsciiUpper(c: char) { 'A' <= c <= 'Z' }

  /** `char::to_ascii_lowercase`: only ASCII capitals change. */
  function ToAsciiLower(c: char): (l: char)
    ensures IsAsciiUpper(c) ==> l as int == c as int + 32
    ensures !IsAsciiUpper(c) ==> l == c
    ensures !IsAsciiUpper(l)
  {
    if IsAsciiUpper(c) then (c as int + 32) as char else c
  }

  /** `Modifiers::are_none`. */
  predicate AreNone(m: Modifiers)
  {
    !m.shift && !m.control && !m.alt
  }

  lemma AreNoneIffNoModifiers(m: Modifiers)
    ensures AreNone(m) <==> m == NoModifiers
  {
  }

  /** `KeyPress::from(char)`: an ASCII capital is its lower-case key with
      shift held; every other character is itself with no modifier. */
  function KeyPressFromChar(c: char): (k: KeyPress)
    ensures k.key == Char(ToAsciiLower(c))
    ensures k.modifiers.shift <==> IsAsciiUpper(c)
    ensures !k.modifiers.control && !k.modifiers.alt
  {
    KeyPress(Char(ToAsciiLower(c)), Modifiers(IsAsciiUpper(c), false, false))
  }

  /** Upper and lower case of a letter differ only in the shift flag. */
  lemma KeyPressCaseFolding(c: char)
    requires IsAsciiUpper(c)
    ensures KeyPressFromChar(c).key == KeyPressFromChar(ToAsciiLower(c)).key
    ensures KeyPressFromChar(c).modifiers.shift && !KeyPressFromChar(ToAsciiLower(c)).modifiers.shift
  {
  }

  /** Everything that implements `Pattern`; a tuple is `AnyOf`. */
  datatype Pattern =
    | InputPattern(input: Input)
    | KeyPressPattern(press: KeyPress)
    | MousePattern(mouse: Mouse)
    | CharPattern(c: char)
    | KeyPattern(key: Key)
    | MouseKindPattern(kind: MouseKind)
    | MouseButtonPattern(button: MouseButton)
    | AnyOf(patterns: seq<Pattern>)
    | PredicatePattern(f: Input -> bool)

  /** `Pattern::matches`. */
  predicate Matches(p: Pattern, input: Input)
    decreases p
  {
    match p
    case InputPattern(i) => i == input
    case KeyPressPattern(k) => input == KeyInput(k)
    case MousePattern(m) => input == MouseInput(m)
    case CharPattern(c) => input == KeyInput(KeyPressFromChar(c))
    case KeyPattern(key) => input.KeyInput? && input.press.key == key && AreNone(input.press.modifiers)
    case MouseKindPattern(kind) =>
      input.MouseInput? && input.mouse.kind == kind && AreNone(input.mouse.modifiers)
    case MouseButtonPattern(button) =>
      input.MouseInput? && input.mouse.kind == Press(button) && AreNone(input.mouse.modifiers)
    case AnyOf(ps) => AnyMatches(ps, input)
    case PredicatePattern(f) => f(input)
  }

  /** The `false || a.matches(input) || b.matches(input) || ...` chain of a tuple. */
  predicate AnyMatches(ps: seq<Pattern>, input: Input)
    decreases ps
  {
    |ps| > 0 && (Matches(ps[0], input) || AnyMatches(ps[1..], input))
  }

  /** A tuple pattern matches exactly when one of its components does; in
      particular the empty tuple matches nothing. */
  lemma {:induction false} AnyOfMatchesSome(ps: seq<Pattern>, input: Input)
    ensures Matches(AnyOf(ps), input) <==> exists i :: 0 <= i < |ps| && Matches(ps[i], input)
  {
    AnyMatchesSome(ps, input);
  }

  lemma {:induction false} AnyMatchesSome(ps: seq<Pattern>, input: Input)
    ensures AnyMatches(ps, input) <==> exists i :: 0 <= i < |ps| && Matches(ps[i], input)
    decreases |ps|
  {
    if |ps| > 0 {
      AnyMatchesSome(ps[1..], input);
      if exists i :: 0 <= i < |ps| && Matches(ps[i], input) {
        var i :| 0 <= i < |ps| && Matches(ps[i], input);
        if i > 0 {
          assert ps[1..][i - 1] == ps[i];
        }
      }
      if exists i :: 0 <= i < |ps[1..]| && Matches(ps[1..][i], input) {
        var i :| 0 <= i < |ps[1..]| && Matches(ps[1..][i], input);
        assert ps[1..][i] == ps[i + 1];
      }
    }
  }

  /** A key pattern matches only presses of that key with no modifier. */
  lemma KeyPatternExact(key: Key, input: Input)
    ensures Matches(KeyPattern(key), input) <==> input == KeyInput(KeyPress(key, NoModifiers))
  {
  }

  /** A mouse-kind pattern ignores position and size but not modifiers. */
  lemma MouseKindPatternAnywhere(kind: MouseKind, at: Vec2<U16>, size: Vec2<U16>, m: Modifiers)
    ensures Matches(MouseKindPattern(kind), MouseInput(Mouse(kind, at, size, m))) <==> AreNone(m)
  {
  }

  /** A mouse-button pattern is the press of that button. */
  lemma MouseButtonIsPress(button: MouseButton, input: Input)
    ensures Matches(MouseButtonPattern(button), input) <==> Matches(MouseKindPattern(Press(button)), input)
  {
  }

  /** A character pattern matches the key press the character converts to. */
  lemma CharPatternIsKeyPress(c: char, input: Input)
    ensures Matches(CharPattern(c), input) <==> Matches(KeyPressPattern(KeyPressFromChar(c)), input)
  {
  }
}
