/** The button widget, as built during construction: a box element tagged
    with the button's id, carrying the button handler and wrapping its
    label.  Its background shows the interaction state, and the call
    reports the click the handlers recorded on the previous frame. */
module Widgets {
  import opened Wrappers
  import opened Geometry
  import opened Arena
  import opened Interaction
  import Layouts

  type Color = Layouts.Color

  const DEFAULT_BACKGROUND: Color := Layouts.Color(200, 200, 200, 255)
  const ACTIVE_BACKGROUND: Color := Layouts.Color(100, 0, 0, 255)
  const HOT_BACKGROUND: Color := Layouts.Color(255, 0, 0, 255)

  /** The id the older button always uses. */
  const LEGACY_BUTTON_ID: ElementId := 1

  /** What `hui_button` leaves behind: the arena with the button's box and
      label, the background it chose, and whether it was clicked. */
  datatype ButtonOut = ButtonOut(builder: Builder, background: Color, clicked: bool)

  /** The background of button `id`: active wins over hot, which wins over
      the default. */
  function ButtonBackground(s: Ui, id: ElementId): (c: Color)
    ensures c in {DEFAULT_BACKGROUND, ACTIVE_BACKGROUND, HOT_BACKGROUND}
  {
    if s.active == id then ACTIVE_BACKGROUND
    else if s.hot == id then HOT_BACKGROUND
    else DEFAULT_BACKGROUND
  }

  /** `hui_button`: pushes the box (style chosen from the state), opens it,
      tags it with `id`, registers the button handler on it, pushes the
      label inside and closes the box. */
  function Button(b: Builder, s: Ui, id: ElementId): (r: Result<ButtonOut>)
    requires Valid(b) && |b.bboxes| > 0
    ensures r.Success? <==> b.cursor.parent.Some? || b.cursor.prevSibling.Some?
    ensures r.Success? ==>
              var n := |b.nodes|;
              var o := r.value;
              && Valid(o.builder) && |o.builder.nodes| == n + 2
              && o.builder.nodes[n].id == id
              && o.builder.nodes[n + 1].parent == Some(n)
              && o.builder.handlers == b.handlers + [Handler(ButtonHandler, n)]
              && o.builder.cursor == OpenSibling(n)
              && o.builder.bboxes == b.bboxes
              && ParentsKept(b, o.builder)
              && (o.clicked <==> s.clicked == id)
  {
    var first :- PushElement(b);
    var b1 := first.0;
    var n := first.1;
    var tagged := b1.(nodes := b1.nodes[n := b1.nodes[n].(id := id)], cursor := StartAddingChildren(b1.cursor));
    var b2 := PushHandler(tagged, ButtonHandler, n);
    var b3 := PushElement(b2).value.0;
    var b4 := b3.(cursor := StopAddingChildren(b3));
    Success(ButtonOut(b4, ButtonBackground(s, id), s.clicked == id))
  }

  /** The older `hui_button`: the same box, always tagged 1, red exactly
      while button 1 is hot. */
  function LegacyButton(b: Builder, s: Ui): (r: Result<(Builder, Color)>)
    requires Valid(b)
    ensures r.Success? <==> b.cursor.parent.Some? || b.cursor.prevSibling.Some?
    ensures r.Success? ==>
              var n := |b.nodes|;
              var (b', c) := r.value;
              && Valid(b') && |b'.nodes| == n + 2
              && b'.nodes[n].id == LEGACY_BUTTON_ID
              && b'.nodes[n + 1].parent == Some(n)
              && b'.handlers == b.handlers + [Handler(LegacyButtonHandler, n)]
              && b'.cursor == OpenSibling(n)
              && (c == HOT_BACKGROUND <==> s.hot == LEGACY_BUTTON_ID)
  {
    var first :- LegacyPushElement(b);
    var b1 := first.0;
    var n := first.1;
    var tagged := b1.(nodes := b1.nodes[n := b1.nodes[n].(id := LEGACY_BUTTON_ID)], cursor := StartAddingChildren(b1.cursor));
    var b2 := PushHandler(tagged, LegacyButtonHandler, n);
    var b3 := LegacyPushElement(b2).value.0;
    var b4 := b3.(cursor := StopAddingChildren(b3));
    Success((b4, if s.hot == LEGACY_BUTTON_ID then HOT_BACKGROUND else DEFAULT_BACKGROUND))
  }
}
