/** What the button and scroll handlers promise, proved about their
    definitions. */
module InteractionProps {
  import opened Wrappers
  import opened Geometry
  import opened Arena
  import opened Interaction

  // ---------------------------------------------------------------------
  // Buttons

  /** The mouse is over the button: its rectangle and its clip box. */
  predicate Over(m: Mouse, layout: Rect, bbox: Rect) {
    m.hit(layout) && m.hit(bbox)
  }

  /** A button is hot exactly while the mouse is over it; leaving clears
      the hot id only when it was this button's. */
  lemma ButtonHot(s: Ui, id: ElementId, layout: Rect, bbox: Rect, m: Mouse)
    requires id != 0
    ensures var r := ButtonHandle(s, id, layout, bbox, m);
            && (r.hot == id <==> Over(m, layout, bbox))
            && (!Over(m, layout, bbox) && s.hot != id ==> r.hot == s.hot)
  {
  }

  /** A button is active after the run exactly when it was pressed now or
      before and the button has not been released. */
  lemma ButtonActive(s: Ui, id: ElementId, layout: Rect, bbox: Rect, m: Mouse)
    requires id != 0
    ensures var r := ButtonHandle(s, id, layout, bbox, m);
            && (r.active == id <==> !m.released && (s.active == id || (Over(m, layout, bbox) && m.pressed)))
            && (m.released && (s.active == id || (Over(m, layout, bbox) && m.pressed)) ==> r.active == 0)
            && (!m.released && s.active != id && !Over(m, layout, bbox) ==> r.active == s.active)
  {
  }

  /** A click is a release over the button while it is active. */
  lemma ButtonClickIff(s: Ui, id: ElementId, layout: Rect, bbox: Rect, m: Mouse)
    requires id != 0
    ensures var r := ButtonHandle(s, id, layout, bbox, m);
            r.clicked == id <==> m.released && Over(m, layout, bbox) && (s.active == id || m.pressed)
  {
  }

  /** A click is reported for one run only: without a new release it is
      gone on the next run, and another button's click is left alone. */
  lemma ClickLastsOneRun(s: Ui, id: ElementId, layout: Rect, bbox: Rect, m: Mouse)
    requires id != 0 && !m.released
    ensures var r := ButtonHandle(s, id, layout, bbox, m);
            r.clicked == (if s.clicked == id then 0 else s.clicked)
  {
  }

  /** Pressing, then releasing over the button, then one more run: the
      button is clicked after the release and not after the next run. */
  lemma PressReleaseClicksOnce(s: Ui, id: ElementId, layout: Rect, bbox: Rect, press: Mouse, release: Mouse, idle: Mouse)
    requires id != 0
    requires Over(press, layout, bbox) && press.pressed && !press.released
    requires Over(release, layout, bbox) && release.released
    requires !idle.released
    ensures var s1 := ButtonHandle(s, id, layout, bbox, press);
            var s2 := ButtonHandle(s1, id, layout, bbox, release);
            var s3 := ButtonHandle(s2, id, layout, bbox, idle);
            && s1.active == id && s1.clicked != id
            && s2.clicked == id && s2.active == 0
            && s3.clicked == 0
  {
    var s1 := ButtonHandle(s, id, layout, bbox, press);
    var s2 := ButtonHandle(s1, id, layout, bbox, release);
    ButtonActive(s, id, layout, bbox, press);
    ButtonClickIff(s, id, layout, bbox, press);
    ButtonClickIff(s1, id, layout, bbox, release);
    ButtonActive(s1, id, layout, bbox, release);
    ClickLastsOneRun(s2, id, layout, bbox, idle);
  }

  /** The older handler tracks hot exactly as the current one does when the
      clip box does not hide the button, and never presses or clicks. */
  lemma LegacyButtonAgrees(s: Ui, id: ElementId, layout: Rect, bbox: Rect, m: Mouse)
    requires m.hit(bbox)
    ensures LegacyButtonHandle(s, id, layout, m).hot == ButtonHandle(s, id, layout, bbox, m).hot
    ensures id != 0 ==> (LegacyButtonHandle(s, id, layout, m).hot == id <==> m.hit(layout))
  {
  }

  // ---------------------------------------------------------------------
  // Scrolling

  /** The offset follows the wheel when that stays in range, and otherwise
      stops at the nearer end of the range. */
  lemma ScrollFollowsWheel(s: Ui, k: nat, layout: Rect, childHeight: Pixels, m: Mouse)
    requires k < |s.offsets| && Tracked(s)
    ensures var r := ScrollHandle(s, k, layout, childHeight, m);
            var v := Moved(s, k, layout, m);
            var high := childHeight - layout.height;
            && (0.0 <= v <= high ==> r.offsets[k] == v)
            && (v > high ==> r.offsets[k] == Max(high, 0.0))
            && (v < 0.0 ==> r.offsets[k] == 0.0)
  {
  }

  /** Running the handler again without the mouse over the container
      changes nothing: the offset is already in range. */
  lemma ScrollSettles(s: Ui, k: nat, layout: Rect, childHeight: Pixels, m: Mouse, away: Mouse)
    requires k < |s.offsets| && Tracked(s) && !away.hit(layout)
    ensures var r := ScrollHandle(s, k, layout, childHeight, m);
            ScrollHandle(r, k, layout, childHeight, away) == r
  {
    var r := ScrollHandle(s, k, layout, childHeight, m);
    assert r.offsets[k := r.offsets[k]] == r.offsets;
  }

  /** Two containers under the mouse in one frame (a scroll nested in a
      scroll): the later handler takes the wheel as if the earlier had
      never moved, and the earlier offset is back at its value from before
      the frame -- the range step it took in between is undone too. */
  lemma LaterScrollTakesWheel(s: Ui, k1: nat, l1: Rect, c1: Pixels, k2: nat, l2: Rect, c2: Pixels, m: Mouse)
    requires k1 < |s.offsets| && k2 < |s.offsets| && k1 != k2
    requires s.lastScrolled.None? && m.hit(l1) && m.hit(l2)
    ensures var r1 := ScrollHandle(s, k1, l1, c1, m);
            var r2 := ScrollHandle(r1, k2, l2, c2, m);
            && r2.offsets[k1] == s.offsets[k1]
            && r2.offsets[k2] == ScrollHandle(s, k2, l2, c2, m).offsets[k2]
            && r2.lastScrolled == Some(k2)
            && (forall j :: 0 <= j < |s.offsets| && j != k1 && j != k2 ==> r2.offsets[j] == s.offsets[j])
  {
  }

  /** The older offset, restored as written, can stay outside its range:
      an outer container scrolled to 100 whose content shrank to a range of
      50, with the mouse over a container nested in it. */
  lemma RestoreLeavesOffsetOutOfRange()
    ensures var s := InitialUi([100.0, 0.0]);
            var m := Mouse((r: Rect) => true, false, false, 0.0);
            var outer := Rect(0.0, 0.0, 200.0, 50.0);
            var inner := Rect(0.0, 0.0, 200.0, 20.0);
            var r2 := ScrollHandle(ScrollHandle(s, 0, outer, 100.0, m), 1, inner, 10.0, m);
            r2.offsets[0] == 100.0 && r2.offsets[0] > 100.0 - outer.height
  {
    var s := InitialUi([100.0, 0.0]);
    var m := Mouse((r: Rect) => true, false, false, 0.0);
    var outer := Rect(0.0, 0.0, 200.0, 50.0);
    var inner := Rect(0.0, 0.0, 200.0, 20.0);
    LaterScrollTakesWheel(s, 0, outer, 100.0, 1, inner, 10.0, m);
  }

  /** With the saved value kept in range, both nested offsets end the
      frame inside their ranges, and the earlier one sits where its own
      range step would have put it without the wheel. */
  lemma NestedScrollsStayInRange(s: Ui, k1: nat, l1: Rect, c1: Pixels, k2: nat, l2: Rect, c2: Pixels, m: Mouse, away: Mouse)
    requires k1 < |s.offsets| && k2 < |s.offsets| && k1 != k2
    requires s.lastScrolled.None? && m.hit(l1) && m.hit(l2) && !away.hit(l1)
    ensures var r1 := ScrollHandleFixed(s, k1, l1, c1, m);
            var r2 := ScrollHandleFixed(r1, k2, l2, c2, m);
            && r2.offsets[k1] == ScrollHandle(s, k1, l1, c1, away).offsets[k1]
            && 0.0 <= r2.offsets[k1] && (r2.offsets[k1] <= c1 - l1.height || r2.offsets[k1] == 0.0)
            && 0.0 <= r2.offsets[k2] && (r2.offsets[k2] <= c2 - l2.height || r2.offsets[k2] == 0.0)
            && r2.lastScrolled == Some(k2)
  {
  }

  // ---------------------------------------------------------------------
  // A frame's handler queue

  /** One handler keeps offsets and the saved value non-negative. */
  lemma RunHandlerKeepsSettled(b: Builder, m: Mouse, s: Ui, h: Handler)
    requires Settled(s)
    ensures Settled(RunHandler(b, m, s, h))
  {
    var r := RunHandler(b, m, s, h);
    if h.element < |b.nodes| && h.fn.ScrollHandler? {
      var el := b.nodes[h.element];
      var k := h.fn.offset;
      if k < |s.offsets| && Tracked(s) && el.firstChild.Some? && el.firstChild.value < |b.nodes| {
        forall j | 0 <= j < |r.offsets|
          ensures r.offsets[j] >= 0.0
        {
          if j != k && Some(j) != s.lastScrolled {
            assert r.offsets[j] == s.offsets[j];
          }
        }
      }
    }
  }

  /** A whole queue keeps offsets and the saved value non-negative, so no
      container is ever scrolled above its top. */
  lemma {:induction false} ReplayKeepsSettled(b: Builder, m: Mouse, queue: seq<Handler>, s: Ui)
    requires Settled(s)
    ensures Settled(Replay(queue, Runner(b, m), s))
    decreases |queue|
  {
    if |queue| > 0 {
      RunHandlerKeepsSettled(b, m, s, queue[0]);
      ReplayKeepsSettled(b, m, queue[1..], RunHandler(b, m, s, queue[0]));
    }
  }

  /** A whole frame, owner reset and `hui_root_end`, on a settled state
      leaves it settled. */
  lemma FrameKeepsSettled(b: Builder, m: Mouse, s: Ui)
    requires Settled(s)
    ensures Settled(Frame(b, m, s))
  {
    ReplayKeepsSettled(b, m, b.handlers, ReplayStart(b, s));
  }

  /** Two states that differ at most in the saved value, and only while no
      offset holds the wheel (when that value is never read). */
  predicate SameButIdlePrev(s: Ui, t: Ui) {
    && s.hot == t.hot && s.active == t.active && s.clicked == t.clicked
    && s.offsets == t.offsets && s.lastScrolled == t.lastScrolled
    && (s.lastScrolled.Some? ==> s.lastPrev == t.lastPrev)
  }

  /** A handler never reads the saved value while no offset holds the
      wheel. */
  lemma RunHandlerIgnoresIdlePrev(b: Builder, m: Mouse, s: Ui, t: Ui, h: Handler)
    requires SameButIdlePrev(s, t)
    ensures SameButIdlePrev(RunHandler(b, m, s, h), RunHandler(b, m, t, h))
  {
    if h.element < |b.nodes| {
      var el := b.nodes[h.element];
      match h.fn
      case ButtonHandler =>
        if el.bbox < |b.nodes| {
          ButtonIgnoresPrev(s, t.lastPrev, el.id, el.rect, b.nodes[el.bbox].rect, m);
          assert t == s.(lastPrev := t.lastPrev);
        }
      case LegacyButtonHandler =>
      case ScrollHandler(k) =>
        if k < |s.offsets| && Tracked(s) && el.firstChild.Some? && el.firstChild.value < |b.nodes| {
          ScrollIgnoresIdlePrev(s, t, k, el.rect, b.nodes[el.firstChild.value].rect.height, m);
        }
    }
  }

  lemma ButtonIgnoresPrev(s: Ui, prev: Pixels, id: ElementId, layout: Rect, bbox: Rect, m: Mouse)
    ensures var r := ButtonHandle(s, id, layout, bbox, m);
            var q := ButtonHandle(s.(lastPrev := prev), id, layout, bbox, m);
            r.hot == q.hot && r.active == q.active && r.clicked == q.clicked
  {
  }

  lemma ScrollIgnoresIdlePrev(s: Ui, t: Ui, k: nat, layout: Rect, childHeight: Pixels, m: Mouse)
    requires k < |s.offsets| && Tracked(s) && SameButIdlePrev(s, t)
    ensures SameButIdlePrev(ScrollHandle(s, k, layout, childHeight, m), ScrollHandle(t, k, layout, childHeight, m))
  {
    var r := ScrollHandle(s, k, layout, childHeight, m);
    var q := ScrollHandle(t, k, layout, childHeight, m);
    if m.hit(layout) {
      assert r.lastPrev == q.lastPrev;
    }
  }

  lemma {:induction false} ReplayIgnoresIdlePrev(b: Builder, m: Mouse, queue: seq<Handler>, s: Ui, t: Ui)
    requires SameButIdlePrev(s, t)
    ensures SameButIdlePrev(Replay(queue, Runner(b, m), s), Replay(queue, Runner(b, m), t))
    decreases |queue|
  {
    if |queue| > 0 {
      RunHandlerIgnoresIdlePrev(b, m, s, t, queue[0]);
      ReplayIgnoresIdlePrev(b, m, queue[1..], RunHandler(b, m, s, queue[0]), RunHandler(b, m, t, queue[0]));
    }
  }

  /** A frame that starts a scroll container does not depend on which
      offset held the wheel in earlier frames, nor on the value saved for
      it: scrolling one container and then hovering another in a later
      frame never puts the first one back. */
  lemma FrameForgetsOwner(b: Builder, m: Mouse, s: Ui, owner: Option<nat>, prev: Pixels)
    requires StartedScroll(b)
    ensures var a := Frame(b, m, s);
            var c := Frame(b, m, s.(lastScrolled := owner, lastPrev := prev));
            && a.offsets == c.offsets && a.lastScrolled == c.lastScrolled
            && a.hot == c.hot && a.active == c.active && a.clicked == c.clicked
  {
    ReplayIgnoresIdlePrev(b, m, b.handlers, ReplayStart(b, s), ReplayStart(b, s.(lastScrolled := owner, lastPrev := prev)));
  }

  /** One frame per pair: the arena built that frame and the mouse. */
  function AfterFrames(frames: seq<(Builder, Mouse)>, s: Ui): Ui
    decreases |frames|
  {
    if |frames| == 0 then s
    else AfterFrames(frames[1..], Frame(frames[0].0, frames[0].1, s))
  }

  /** Any number of frames from a settled state end settled. */
  lemma {:induction false} FramesKeepSettled(frames: seq<(Builder, Mouse)>, s: Ui)
    requires Settled(s)
    ensures Settled(AfterFrames(frames, s))
    decreases |frames|
  {
    if |frames| > 0 {
      FrameKeepsSettled(frames[0].0, frames[0].1, s);
      FramesKeepSettled(frames[1..], Frame(frames[0].0, frames[0].1, s));
    }
  }

  /** From non-negative offsets at program start, every later frame ends
      settled. */
  lemma FramesStaySettled(frames: seq<(Builder, Mouse)>, offsets: seq<Pixels>)
    requires forall j :: 0 <= j < |offsets| ==> offsets[j] >= 0.0
    ensures Settled(AfterFrames(frames, InitialUi(offsets)))
  {
    FramesKeepSettled(frames, InitialUi(offsets));
  }
}
