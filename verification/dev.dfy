/** The developer tools' state (src/elements/dev.rs): which part has the
    focus, the sizes of the two dev panels, whether either is being
    resized with the mouse, whether the abort confirmation is showing, and
    the captured standard output. */
module DevTools {
  import opened Common

  /** Which part of the developer tools is focused. */
  datatype Focus = RightDev | BottomDev | Element

  /** `Focus::tab`: forwards cycles right panel, bottom panel, element. */
  function Tab(f: Focus, back: bool): (r: Focus)
    ensures r != f
  {
    if back then
      match f
      case RightDev => Element
      case BottomDev => RightDev
      case Element => BottomDev
    else
      match f
      case RightDev => BottomDev
      case BottomDev => Element
      case Element => RightDev
  }

  /** Tabbing back undoes tabbing forwards and the other way round. */
  lemma TabBackInverts(f: Focus)
    ensures Tab(Tab(f, false), true) == f
    ensures Tab(Tab(f, true), false) == f
  {
  }

  /** Three tabs in the same direction visit every part and return. */
  lemma TabCycles(f: Focus, back: bool)
    ensures Tab(Tab(Tab(f, back), back), back) == f
    ensures {f, Tab(f, back), Tab(Tab(f, back), back)} == {RightDev, BottomDev, Element}
  {
  }

  datatype Dev = Dev(
    focus: Focus,
    rightWidth: U16,
    rightResizing: bool,
    bottomHeight: U16,
    bottomResizing: bool,
    abortConfirm: bool,
    captured: string)

  /** `Dev::new`. */
  function NewDev(): (d: Dev)
    ensures d.focus == Element && d.rightWidth == 64 && d.bottomHeight == 16
    ensures !d.rightResizing && !d.bottomResizing && !d.abortConfirm && d.captured == []
  {
    Dev(Element, 64, false, 16, false, false, [])
  }

  /** The developer tools' events. Captured output arrives already decoded
      as text. */
  datatype Event =
    | FocusOn(focus: Focus)
    | ToggleAbortConfirm
    | Resize(right: Option<U16>, bottom: Option<U16>)
    | SetRightPanelResizing
    | SetBottomPanelResizing
    | StopResizing
    | CapturedData(text: string)

  /** The smallest sizes a resize leaves the panels with. */
  const MinRightWidth: U16 := 32
  const MinBottomHeight: U16 := 8

  /** `Dev::apply`: each event changes only the fields it names. */
  function Apply(d: Dev, e: Event): (r: Dev)
    ensures e.FocusOn? ==> r == d.(focus := e.focus)
    ensures e.ToggleAbortConfirm? ==> r == d.(abortConfirm := !d.abortConfirm)
    ensures e.Resize? ==> r.(rightWidth := d.rightWidth, bottomHeight := d.bottomHeight) == d
    ensures e.Resize? ==> r.rightWidth == (if e.right.Some? then Max(e.right.value, MinRightWidth) else d.rightWidth)
    ensures e.Resize? ==> r.bottomHeight == (if e.bottom.Some? then Max(e.bottom.value, MinBottomHeight) else d.bottomHeight)
    ensures e.SetRightPanelResizing? ==> r == d.(rightResizing := true)
    ensures e.SetBottomPanelResizing? ==> r == d.(bottomResizing := true)
    ensures e.StopResizing? ==> r == d.(rightResizing := false, bottomResizing := false)
    ensures e.CapturedData? ==> r == d.(captured := d.captured + e.text)
  {
    match e
    case FocusOn(f) => d.(focus := f)
    case ToggleAbortConfirm => d.(abortConfirm := !d.abortConfirm)
    case Resize(right, bottom) =>
      var d1 := if right.Some? then d.(rightWidth := Max(right.value, MinRightWidth)) else d;
      if bottom.Some? then d1.(bottomHeight := Max(bottom.value, MinBottomHeight)) else d1
    case SetRightPanelResizing => d.(rightResizing := true)
    case SetBottomPanelResizing => d.(bottomResizing := true)
    case StopResizing => d.(rightResizing := false, bottomResizing := false)
    case CapturedData(text) => d.(captured := d.captured + text)
  }

  /** Applying a sequence of events in order. */
  function ApplyAll(d: Dev, events: seq<Event>): Dev
    decreases |events|
  {
    if |events| == 0 then d else ApplyAll(Apply(d, events[0]), events[1..])
  }

  /** The panels never shrink below their minimum sizes: starting from
      `Dev::new`, any sequence of events keeps the right panel at least 32
      columns wide and the bottom panel at least 8 rows tall. */
  predicate PanelsAtLeastMinimum(d: Dev)
  {
    d.rightWidth >= MinRightWidth && d.bottomHeight >= MinBottomHeight
  }

  lemma {:induction false} ApplyAllKeepsMinimum(d: Dev, events: seq<Event>)
    requires PanelsAtLeastMinimum(d)
    ensures PanelsAtLeastMinimum(ApplyAll(d, events))
    decreases |events|
  {
    if |events| > 0 {
      ApplyAllKeepsMinimum(Apply(d, events[0]), events[1..]);
    }
  }

  lemma NewDevPanelsAtLeastMinimum(events: seq<Event>)
    ensures PanelsAtLeastMinimum(ApplyAll(NewDev(), events))
  {
    ApplyAllKeepsMinimum(NewDev(), events);
  }

  /** Toggling the abort confirmation twice changes nothing; so does
      stopping resizing twice, or resizing twice to the same sizes. */
  lemma ApplyIdempotentOrInvolutive(d: Dev, right: Option<U16>, bottom: Option<U16>)
    ensures Apply(Apply(d, ToggleAbortConfirm), ToggleAbortConfirm) == d
    ensures Apply(Apply(d, StopResizing), StopResizing) == Apply(d, StopResizing)
    ensures Apply(Apply(d, Resize(right, bottom)), Resize(right, bottom)) == Apply(d, Resize(right, bottom))
  {
  }
}
