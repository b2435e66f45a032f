/** What the button widget promises, proved about its definition. */
module WidgetsProps {
  import opened Wrappers
  import opened Geometry
  import opened Arena
  import opened ArenaProps
  import opened Interaction
  import opened InteractionProps
  import opened Widgets

  /** The background tells the three states apart: active, hot but not
      active, neither. */
  lemma ButtonBackgroundShowsState(s: Ui, id: ElementId)
    ensures ButtonBackground(s, id) == ACTIVE_BACKGROUND <==> s.active == id
    ensures ButtonBackground(s, id) == HOT_BACKGROUND <==> s.active != id && s.hot == id
    ensures ButtonBackground(s, id) == DEFAULT_BACKGROUND <==> s.active != id && s.hot != id
  {
  }

  /** Tagging an element with an id and queueing a handler do not change
      how the next element is linked. */
  lemma PushIgnoresTags(b: Builder, n: NodeId, id: ElementId, hs: seq<Handler>)
    requires Valid(b) && |b.bboxes| > 0 && n < |b.nodes|
    requires forall i :: 0 <= i < |hs| ==> hs[i].element < |b.nodes|
    ensures var tagged := b.(nodes := b.nodes[n := b.nodes[n].(id := id)], handlers := hs);
            && Valid(tagged)
            && PushElement(tagged).Success? == PushElement(b).Success?
            && (PushElement(b).Success? ==>
                  var t := PushElement(tagged).value.0;
                  var p := PushElement(b).value.0;
                  && |t.nodes| == |p.nodes| && t.cursor == p.cursor && t.bboxes == p.bboxes
                  && (forall i :: 0 <= i < |t.nodes| ==> t.nodes[i].parent == p.nodes[i].parent))
  {
  }

  /** The children's scope a button opens, tagged and with its handler
      queued, next to the plain one a container opens. */
  function Opened(b: Builder): Builder
    requires Valid(b) && |b.bboxes| > 0 && PushElement(b).Success?
  {
    var p := PushElement(b).value;
    Inner(p.0, p.1, false).value
  }

  /** One leaf call is one push. */
  lemma LeafUnfold(b: Builder)
    requires Valid(b) && |b.bboxes| > 0 && PushElement(b).Success?
    ensures Build([Leaf], b) == Success(PushElement(b).value.0)
  {
    assert [Leaf][1..] == [];
  }

  /** `box_start; text; box_end`, spelled out. */
  lemma BoxAroundLeafUnfold(b: Builder)
    requires Valid(b) && |b.bboxes| > 0 && PushElement(b).Success?
    ensures Build([Container(false, [Leaf])], b) == Success(Close(PushElement(Opened(b)).value.0, false))
  {
    var inner := Opened(b);
    LeafUnfold(inner);
    ContainerUnfold(Container(false, [Leaf]), [Container(false, [Leaf])], b);
    assert [Container(false, [Leaf])][1..] == [];
  }

  /** `hui_button`, spelled out in the same steps. */
  lemma ButtonUnfold(b: Builder, s: Ui, id: ElementId)
    requires Valid(b) && |b.bboxes| > 0 && PushElement(b).Success?
    ensures var inner := Opened(b);
            var n := |b.nodes|;
            var tagged := inner.(nodes := inner.nodes[n := inner.nodes[n].(id := id)],
                                 handlers := inner.handlers + [Handler(ButtonHandler, n)]);
            && Valid(tagged) && PushElement(tagged).Success?
            && var t := PushElement(tagged).value.0;
               Button(b, s, id).value.builder == t.(cursor := StopAddingChildren(t))
  {
  }

  /** A button is a box container around one leaf: the tree it builds
      links every element exactly as the balanced calls
      `box_start; text; box_end` do. */
  lemma ButtonIsBoxAroundLabel(b: Builder, s: Ui, id: ElementId)
    requires Valid(b) && |b.bboxes| > 0
    ensures var o := Button(b, s, id);
            var shape := Build([Container(false, [Leaf])], b);
            && o.Success? == shape.Success?
            && (o.Success? ==>
                  var built := o.value.builder;
                  var plain := shape.value;
                  && |built.nodes| == |plain.nodes|
                  && built.cursor == plain.cursor
                  && built.bboxes == plain.bboxes
                  && (forall i :: 0 <= i < |built.nodes| ==> built.nodes[i].parent == plain.nodes[i].parent))
  {
    if PushElement(b).Success? {
      var inner := Opened(b);
      var n := |b.nodes|;
      BoxAroundLeafUnfold(b);
      ButtonUnfold(b, s, id);
      PushIgnoresTags(inner, n, id, inner.handlers + [Handler(ButtonHandler, n)]);
    }
  }

  /** The handler a button registers runs the button state machine on the
      button's own id, rectangle and clip box. */
  lemma ButtonHandlerSeesButton(b: Builder, s: Ui, id: ElementId, u: Ui, m: Mouse)
    requires Valid(b) && |b.bboxes| > 0
    requires b.cursor.parent.Some? || b.cursor.prevSibling.Some?
    ensures var built := Button(b, s, id).value.builder;
            var n := |b.nodes|;
            var el := built.nodes[n];
            && el.bbox < |built.nodes|
            && RunHandler(built, m, u, built.handlers[|built.handlers| - 1])
               == ButtonHandle(u, id, el.rect, built.nodes[el.bbox].rect, m)
  {
  }

  /** `hui_button` returns true on exactly one construction pass after a
      click: the pass after the release, and not the one after that. */
  lemma ButtonReturnsClickOnce(b: Builder, s: Ui, id: ElementId, layout: Rect, bbox: Rect, release: Mouse, idle: Mouse)
    requires Valid(b) && |b.bboxes| > 0
    requires b.cursor.parent.Some? || b.cursor.prevSibling.Some?
    requires id != 0 && s.active == id
    requires Over(release, layout, bbox) && release.released && !idle.released
    ensures var s1 := ButtonHandle(s, id, layout, bbox, release);
            var s2 := ButtonHandle(s1, id, layout, bbox, idle);
            && Button(b, s1, id).value.clicked
            && !Button(b, s2, id).value.clicked
  {
    var s1 := ButtonHandle(s, id, layout, bbox, release);
    ButtonClickIff(s, id, layout, bbox, release);
    ClickLastsOneRun(s1, id, layout, bbox, idle);
  }

  /** The older button is red exactly while button 1 is hot, and its
      handler sees id 1. */
  lemma LegacyButtonTracksOne(b: Builder, s: Ui, u: Ui, m: Mouse)
    requires Valid(b)
    requires b.cursor.parent.Some? || b.cursor.prevSibling.Some?
    ensures var (built, c) := LegacyButton(b, s).value;
            var el := built.nodes[|b.nodes|];
            && (c == HOT_BACKGROUND <==> s.hot == LEGACY_BUTTON_ID)
            && RunHandler(built, m, u, built.handlers[|built.handlers| - 1])
               == LegacyButtonHandle(u, LEGACY_BUTTON_ID, el.rect, m)
  {
  }
}
