/** The handlers that run after layout, once per frame: buttons track the
    hot (hovered) and active (pressed) element and report a click for
    exactly one frame; scroll containers move their offset with the mouse
    wheel, one container at a time, and keep it inside the scrollable
    range. */
module Interaction {
  import opened Wrappers
  import opened Geometry
  import opened Arena

  /** What the handlers read from the input devices during one frame.
      `hit` answers whether the mouse is inside a rectangle; `dy` is the
      wheel movement already turned into pixels. */
  datatype Mouse = Mouse(hit: Rect -> bool, pressed: bool, released: bool, dy: Pixels)

  /** The interaction state kept across frames: the hot, active and
      clicked element ids (0 for none), the offset that last took the
      wheel with the value it had before, and the offsets the application
      owns, addressed by index. */
  datatype Ui = Ui(hot: ElementId, active: ElementId, clicked: ElementId,
                   lastScrolled: Option<nat>, lastPrev: Pixels, offsets: seq<Pixels>)

  /** The state at program start. */
  function InitialUi(offsets: seq<Pixels>): (r: Ui)
    ensures r.hot == 0 && r.active == 0 && r.clicked == 0 && r.lastScrolled.None?
    ensures r.offsets == offsets
  {
    Ui(0, 0, 0, None, UNSET, offsets)
  }

  // ---------------------------------------------------------------------
  // Buttons

  /** `hui_button_handle`: the button is hot while the mouse is over both
      its rectangle and its clip box; a press over it makes it active; a
      release while active makes it the clicked button if it is still hot,
      and clears the active button.  A click is cleared on the next run. */
  function ButtonHandle(s: Ui, id: ElementId, layout: Rect, bbox: Rect, m: Mouse): (r: Ui)
    ensures r.offsets == s.offsets && r.lastScrolled == s.lastScrolled && r.lastPrev == s.lastPrev
    ensures r.hot == id || r.hot == s.hot || r.hot == 0
    ensures r.active == id || r.active == s.active || r.active == 0
    ensures r.clicked == id || r.clicked == s.clicked || r.clicked == 0
  {
    var inside := m.hit(layout) && m.hit(bbox);
    var s1 := if inside then s.(hot := id, active := if m.pressed then id else s.active)
              else if s.hot == id then s.(hot := 0)
              else s;
    var s2 := if s1.clicked == id then s1.(clicked := 0) else s1;
    if s2.active == id && m.released then
      s2.(clicked := if s2.hot == id then id else s2.clicked, active := 0)
    else s2
  }

  /** The older `hui_button_handle`: hot tracking only, on the button's own
      rectangle. */
  function LegacyButtonHandle(s: Ui, id: ElementId, layout: Rect, m: Mouse): (r: Ui)
    ensures r.active == s.active && r.clicked == s.clicked && r.offsets == s.offsets
    ensures r.lastScrolled == s.lastScrolled && r.lastPrev == s.lastPrev
  {
    if m.hit(layout) then s.(hot := id)
    else if s.hot == id then s.(hot := 0)
    else s
  }

  // ---------------------------------------------------------------------
  // Scrolling

  /** The offset that last took the wheel, if any, is one the application
      owns. */
  predicate Tracked(s: Ui) {
    s.lastScrolled.Some? ==> s.lastScrolled.value < |s.offsets|
  }

  /** `hui_scroll_handle` for the scroll element with rectangle `layout`,
      whose only child is `childHeight` tall, on offset `k`.  When the
      mouse is over it, the offset that took the wheel earlier in the frame
      gets back the value it had before, this one takes the wheel and moves
      by `dy`.  Whether or not the mouse is over it, the offset is then
      pulled down to the scrollable range and up to 0. */
  function ScrollHandle(s: Ui, k: nat, layout: Rect, childHeight: Pixels, m: Mouse): (r: Ui)
    requires k < |s.offsets| && Tracked(s)
    ensures Tracked(r) && |r.offsets| == |s.offsets|
    ensures r.hot == s.hot && r.active == s.active && r.clicked == s.clicked
    ensures r.offsets[k] >= 0.0
    ensures r.offsets[k] <= childHeight - layout.height || r.offsets[k] == 0.0
    ensures m.hit(layout) ==> r.lastScrolled == Some(k) && r.lastPrev == s.offsets[k]
    ensures !m.hit(layout) ==> r.lastScrolled == s.lastScrolled && r.lastPrev == s.lastPrev
    ensures forall j :: 0 <= j < |s.offsets| && j != k && Some(j) != s.lastScrolled ==> r.offsets[j] == s.offsets[j]
    ensures m.hit(layout) && s.lastScrolled.Some? && s.lastScrolled.value != k ==>
              r.offsets[s.lastScrolled.value] == s.lastPrev
    ensures !m.hit(layout) && s.lastScrolled.Some? && s.lastScrolled.value != k ==>
              r.offsets[s.lastScrolled.value] == s.offsets[s.lastScrolled.value]
  {
    var s1 :=
      if m.hit(layout) then
        var restored := if s.lastScrolled.Some? && s.lastScrolled.value != k
                        then s.offsets[s.lastScrolled.value := s.lastPrev] else s.offsets;
        s.(offsets := restored[k := restored[k] + m.dy], lastScrolled := Some(k), lastPrev := restored[k])
      else s;
    s1.(offsets := s1.offsets[k := Clamp(s1.offsets[k], childHeight - layout.height)])
  }

  /** The range step of `hui_scroll_handle`: pulled down to `high`, then
      up to 0. */
  function Clamp(v: Pixels, high: Pixels): (r: Pixels)
    ensures r >= 0.0 && (r <= high || r == 0.0)
    ensures 0.0 <= v <= high ==> r == v
    ensures v > high ==> r == Max(high, 0.0)
    ensures v < 0.0 ==> r == 0.0
  {
    var o1 := if v > high then high else v;
    if o1 < 0.0 then 0.0 else o1
  }

  /** `hui_scroll_handle` with the value saved for a later restore taken
      inside the range, so that giving the wheel to another container puts
      this offset back where the range allows instead of where it was. */
  function ScrollHandleFixed(s: Ui, k: nat, layout: Rect, childHeight: Pixels, m: Mouse): (r: Ui)
    requires k < |s.offsets| && Tracked(s)
    ensures Tracked(r) && |r.offsets| == |s.offsets| && r.offsets == ScrollHandle(s, k, layout, childHeight, m).offsets
    ensures m.hit(layout) ==> r.lastScrolled == Some(k) && r.lastPrev == Clamp(s.offsets[k], childHeight - layout.height)
    ensures !m.hit(layout) ==> r == ScrollHandle(s, k, layout, childHeight, m)
  {
    var r := ScrollHandle(s, k, layout, childHeight, m);
    if m.hit(layout) then r.(lastPrev := Clamp(r.lastPrev, childHeight - layout.height)) else r
  }

  /** The offset's position after the wheel, before the range is applied. */
  function Moved(s: Ui, k: nat, layout: Rect, m: Mouse): Pixels
    requires k < |s.offsets|
  {
    s.offsets[k] + (if m.hit(layout) then m.dy else 0.0)
  }

  /** The wheel's share of `hui_scroll_start`: no offset has taken the
      wheel yet. */
  function ScrollReset(s: Ui): (r: Ui)
    ensures r.lastScrolled.None? && Tracked(r)
    ensures r.hot == s.hot && r.active == s.active && r.clicked == s.clicked && r.offsets == s.offsets
  {
    s.(lastScrolled := None)
  }

  // ---------------------------------------------------------------------
  // Running the queue

  /** Calls the handler `h` registered on an element of `b`.  A scroll
      element reads its child's height from its first child; a handler
      whose element, child or offset is missing (undefined in the library)
      does nothing. */
  function RunHandler(b: Builder, m: Mouse, s: Ui, h: Handler): (r: Ui)
    ensures Tracked(s) ==> Tracked(r)
    ensures |r.offsets| == |s.offsets|
  {
    if h.element >= |b.nodes| then s
    else
      var el := b.nodes[h.element];
      match h.fn
      case ButtonHandler =>
        if el.bbox < |b.nodes| then ButtonHandle(s, el.id, el.rect, b.nodes[el.bbox].rect, m) else s
      case LegacyButtonHandler => LegacyButtonHandle(s, el.id, el.rect, m)
      case ScrollHandler(k) =>
        if k < |s.offsets| && Tracked(s) && el.firstChild.Some? && el.firstChild.value < |b.nodes|
        then ScrollHandle(s, k, el.rect, b.nodes[el.firstChild.value].rect.height, m)
        else s
  }

  /** The queue runner `hui_root_end` uses for frame `b`. */
  function Runner(b: Builder, m: Mouse): (Ui, Handler) -> Ui {
    (s: Ui, h: Handler) => RunHandler(b, m, s, h)
  }

  /** `hui_scroll_start` queues the scroll handler in the same call that
      forgets the wheel owner, so a frame started a scroll container
      exactly when its queue holds a scroll handler. */
  predicate StartedScroll(b: Builder) {
    exists i :: 0 <= i < |b.handlers| && b.handlers[i].fn.ScrollHandler?
  }

  /** The state `hui_root_end` replays the queue on.  The owner reset of
      `hui_scroll_start` runs while the frame is built, before any handler
      of the frame, so a frame that started a scroll container replays
      with no wheel owner; any other frame keeps the owner it was handed. */
  function ReplayStart(b: Builder, s: Ui): (r: Ui)
    ensures StartedScroll(b) ==> r.lastScrolled.None?
    ensures !StartedScroll(b) ==> r == s
    ensures r.hot == s.hot && r.active == s.active && r.clicked == s.clicked && r.offsets == s.offsets
    ensures r.lastPrev == s.lastPrev && (Tracked(s) ==> Tracked(r))
  {
    if StartedScroll(b) then ScrollReset(s) else s
  }

  /** One whole frame with arena `b` and mouse `m`: building it (with the
      owner reset of any scroll container), then `hui_root_end`. */
  function Frame(b: Builder, m: Mouse, s: Ui): Ui {
    RootEnd(b, ReplayStart(b, s), Runner(b, m)).1
  }

  /** Every offset, and the saved value of the one that took the wheel,
      is non-negative. */
  predicate Settled(s: Ui) {
    && Tracked(s)
    && (forall j :: 0 <= j < |s.offsets| ==> s.offsets[j] >= 0.0)
    && (s.lastScrolled.Some? ==> s.lastPrev >= 0.0)
  }
}
