/** The per-frame element tree and the cursor that builds it.

    Every frame the application calls widget functions; each pushes an
    element into an arena and links it into the tree through a two-slot
    cursor: `parent` (the next element becomes its first child) and
    `prevSibling` (the next element becomes its next sibling).  Elements
    are arena indices here, and links are `Option<NodeId>`.  A parallel
    stack of bounding boxes records the clip scope each element is pushed
    in; a box is the rectangle of the element that opened the scope, so it
    is recorded as that element's index. */
module Arena {
  import opened Wrappers
  import opened Geometry

  type NodeId = nat

  /** `ElementId`, a user-chosen widget identity (a `u64`; 0 means none). */
  type ElementId = nat

  const BOUNDING_BOX_STACK_CAP: nat := 10

  datatype Node = Node(id: ElementId, parent: Option<NodeId>, firstChild: Option<NodeId>,
                       nextSibling: Option<NodeId>, prevSibling: Option<NodeId>, rect: Rect, bbox: NodeId)

  /** The handler functions a widget can register. */
  datatype HandlerFn = ButtonHandler | LegacyButtonHandler | ScrollHandler(offset: nat)

  /** A registered handler: the function and the element it is called on. */
  datatype Handler = Handler(fn: HandlerFn, element: NodeId)

  /** The two cursor slots. */
  datatype Cursor = Cursor(parent: Option<NodeId>, prevSibling: Option<NodeId>)

  /** The cursor right after `start_adding_children` on `n`. */
  function OpenParent(n: NodeId): Cursor {
    Cursor(Some(n), None)
  }

  /** The cursor right after pushing `n`, or after closing container `n`. */
  function OpenSibling(n: NodeId): Cursor {
    Cursor(None, Some(n))
  }

  /** The invariant the library states for the cursor. */
  predicate AtMostOne(c: Cursor) {
    c.parent.None? || c.prevSibling.None?
  }

  /** Everything one frame's construction keeps. */
  datatype Builder = Builder(nodes: seq<Node>, cursor: Cursor, bboxes: seq<NodeId>, handlers: seq<Handler>, frame: int)

  predicate LinkOk(l: Option<NodeId>, n: nat) {
    l.Some? ==> l.value < n
  }

  predicate NodeOk(nd: Node, n: nat) {
    LinkOk(nd.parent, n) && LinkOk(nd.firstChild, n) && LinkOk(nd.nextSibling, n)
    && LinkOk(nd.prevSibling, n) && nd.bbox < n
  }

  /** Every link, cursor slot, box and handler refers to an element of the
      arena. */
  predicate Valid(b: Builder) {
    var n := |b.nodes|;
    && (forall i :: 0 <= i < n ==> NodeOk(b.nodes[i], n))
    && LinkOk(b.cursor.parent, n) && LinkOk(b.cursor.prevSibling, n)
    && (forall i :: 0 <= i < |b.bboxes| ==> b.bboxes[i] < n)
    && (forall i :: 0 <= i < |b.handlers| ==> b.handlers[i].element < n)
  }

  /** No element already in `b` changed its parent in `b'`. */
  predicate ParentsKept(b: Builder, b': Builder) {
    && |b.nodes| <= |b'.nodes|
    && forall i :: 0 <= i < |b.nodes| ==> b'.nodes[i].parent == b.nodes[i].parent
  }

  /** `push_element`.  Reading the top of an empty bounding-box stack is
      undefined in the library, so a non-empty stack is required. */
  function PushElement(b: Builder): (r: Result<(Builder, NodeId)>)
    requires Valid(b) && |b.bboxes| > 0
    ensures b.cursor.parent.None? && b.cursor.prevSibling.None? <==> r.Failure?
    ensures r.Success? ==>
              var (b', n) := r.value;
              && n == |b.nodes| && |b'.nodes| == n + 1
              && Valid(b')
              && b'.cursor == OpenSibling(n)
              && b'.bboxes == b.bboxes && b'.handlers == b.handlers && b'.frame == b.frame
              && var nd := b'.nodes[n];
              && nd.id == 0 && nd.rect == UNSET_RECT && nd.bbox == b.bboxes[|b.bboxes| - 1]
              && nd.firstChild.None? && nd.nextSibling.None?
              && ParentsKept(b, b')
  {
    var n := |b.nodes|;
    var top := b.bboxes[|b.bboxes| - 1];
    if b.cursor.parent.Some? then
      var p := b.cursor.parent.value;
      var nodes := b.nodes[p := b.nodes[p].(firstChild := Some(n))];
      var added := Node(0, Some(p), None, None, None, UNSET_RECT, top);
      Success((b.(nodes := nodes + [added], cursor := OpenSibling(n)), n))
    else if b.cursor.prevSibling.Some? then
      var s := b.cursor.prevSibling.value;
      var nodes := b.nodes[s := b.nodes[s].(nextSibling := Some(n))];
      var added := Node(0, b.nodes[s].parent, None, None, Some(s), UNSET_RECT, top);
      Success((b.(nodes := nodes + [added], cursor := OpenSibling(n)), n))
    else
      Failure("No parent nor prev_sibling")
  }

  /** `start_adding_children`: the element just pushed becomes the parent
      of what follows. */
  function StartAddingChildren(c: Cursor): (r: Cursor)
    ensures c.prevSibling.Some? ==> r == OpenParent(c.prevSibling.value)
    ensures r.prevSibling.None?
  {
    Cursor(c.prevSibling, None)
  }

  /** `stop_adding_children`: the container becomes the previous sibling
      of what follows, whether or not it got children. */
  function StopAddingChildren(b: Builder): (r: Cursor)
    requires Valid(b)
    ensures AtMostOne(r)
    ensures LinkOk(r.parent, |b.nodes|) && LinkOk(r.prevSibling, |b.nodes|)
  {
    if b.cursor.parent.Some? then Cursor(None, b.cursor.parent)
    else if b.cursor.prevSibling.Some? then Cursor(None, b.nodes[b.cursor.prevSibling.value].parent)
    else b.cursor
  }

  /** `current_element`. */
  function CurrentElement(c: Cursor): (r: Option<NodeId>)
    ensures c.parent.Some? ==> r == c.parent
    ensures c.parent.None? ==> r == c.prevSibling
  {
    if c.parent.Some? then c.parent else c.prevSibling
  }

  /** `start_bounding_box`: pushes a clip box; more than ten is fatal. */
  function StartBoundingBox(b: Builder, box: NodeId): (r: Result<Builder>)
    ensures |b.bboxes| >= BOUNDING_BOX_STACK_CAP <==> r.Failure?
    ensures r.Success? ==> r.value == b.(bboxes := b.bboxes + [box])
  {
    if |b.bboxes| + 1 > BOUNDING_BOX_STACK_CAP then Failure("assertion failed: bounding_box_stack_len <= BOUNDING_BOX_STACK_CAP")
    else Success(b.(bboxes := b.bboxes + [box]))
  }

  /** `end_bounding_box`: pops a clip box (the library does not check for
      an empty stack, so one is required). */
  function EndBoundingBox(b: Builder): (r: Builder)
    requires |b.bboxes| > 0
    ensures r.bboxes + [b.bboxes[|b.bboxes| - 1]] == b.bboxes
    ensures r.nodes == b.nodes && r.cursor == b.cursor
  {
    b.(bboxes := b.bboxes[..|b.bboxes| - 1])
  }

  /** `push_handler`: queues `fn` to run on `el` after layout. */
  function PushHandler(b: Builder, fn: HandlerFn, el: NodeId): (r: Builder)
    ensures r.handlers == b.handlers + [Handler(fn, el)]
    ensures r.nodes == b.nodes && r.cursor == b.cursor && r.bboxes == b.bboxes
  {
    b.(handlers := b.handlers + [Handler(fn, el)])
  }

  /** The shapes of widget calls: a leaf (`hui_text`, `hui_block`, ...),
      or a container whose `_start` pushes it and opens it for children and
      whose `_end` closes it (stack, box, center, cluster, leftright,
      fixed).  A clipping container (scroll) also opens a bounding-box
      scope on its own rectangle for its children. */
  datatype Call = Leaf | Container(clip: bool, body: seq<Call>)

  /** The children's scope of container `n` just pushed into `b`: the
      bounding box opened first when it clips, then `n` opened as
      parent. */
  function Inner(b: Builder, n: NodeId, clip: bool): (r: Result<Builder>)
    requires Valid(b) && n < |b.nodes| && b.cursor == OpenSibling(n)
    ensures r.Success? ==> && Valid(r.value) && r.value.nodes == b.nodes && r.value.cursor == OpenParent(n)
                           && r.value.bboxes == (if clip then b.bboxes + [n] else b.bboxes)
  {
    var c1 :- if clip then StartBoundingBox(b, n) else Success(b);
    Success(c1.(cursor := StartAddingChildren(c1.cursor)))
  }

  /** Closing the children's scope of a container: the cursor closes it
      and a clipping one pops its bounding box. */
  function Close(b: Builder, clip: bool): (r: Builder)
    requires Valid(b) && (clip ==> |b.bboxes| > 0)
    ensures Valid(r) && r.nodes == b.nodes && r.cursor == StopAddingChildren(b) && AtMostOne(r.cursor)
    ensures r.bboxes == (if clip then b.bboxes[..|b.bboxes| - 1] else b.bboxes)
  {
    var closed := b.(cursor := StopAddingChildren(b));
    if clip then EndBoundingBox(closed) else closed
  }

  /** Runs `calls` one after another, each `_start` paired with its
      `_end`. */
  function Build(calls: seq<Call>, b: Builder): (r: Result<Builder>)
    requires Valid(b) && |b.bboxes| > 0
    decreases calls
    ensures r.Success? ==> Valid(r.value) && r.value.bboxes == b.bboxes && ParentsKept(b, r.value)
    ensures r.Success? && AtMostOne(b.cursor) ==> AtMostOne(r.value.cursor)
  {
    if |calls| == 0 then Success(b)
    else
      var pushed :- PushElement(b);
      var b1 := pushed.0;
      var n := pushed.1;
      var b2 :- match calls[0]
        case Leaf => Success(b1)
        case Container(clip, body) =>
          var inner :- Inner(b1, n, clip);
          var b3 :- Build(body, inner);
          Success(Close(b3, clip));
      Build(calls[1..], b2)
  }

  /** The root element of a frame, covering `rect`. */
  function RootNode(rect: Rect): Node {
    Node(0, None, None, None, None, rect, 0)
  }

  /** `hui_root_start`, as written: a fresh arena holding only the root,
      the bounding-box stack reset to the root's rectangle, the frame
      counter advanced and the root opened as parent.  The sibling slot is
      not cleared, so whatever the previous frame left there stays. */
  function RootStart(b: Builder, screenWidth: Pixels, screenHeight: Pixels): (r: Builder)
    ensures |r.nodes| == 1 && r.nodes[0].rect == Rect(0.0, 0.0, screenWidth, screenHeight)
    ensures r.bboxes == [0] && r.frame == b.frame + 1 && r.handlers == b.handlers
    ensures r.cursor.parent == Some(0) && r.cursor.prevSibling == b.cursor.prevSibling
  {
    Builder([RootNode(Rect(0.0, 0.0, screenWidth, screenHeight))], b.cursor.(parent := Some(0)), [0], b.handlers, b.frame + 1)
  }

  /** `hui_root_start` with the sibling slot cleared as well, which is what
      the cursor's stated invariant needs. */
  function RootStartCleared(b: Builder, screenWidth: Pixels, screenHeight: Pixels): (r: Builder)
    ensures r.cursor == OpenParent(0) && AtMostOne(r.cursor)
    ensures b.handlers == [] ==> Valid(r)
    ensures |r.nodes| == 1 && r.nodes[0].rect == Rect(0.0, 0.0, screenWidth, screenHeight)
    ensures r.bboxes == [0] && r.frame == b.frame + 1 && r.handlers == b.handlers
  {
    RootStart(b, screenWidth, screenHeight).(cursor := OpenParent(0))
  }

  /** `hui_root_end` without the layout and draw passes: every queued
      handler runs once, in the order pushed, on the state `s`; then the
      arena and the queue are emptied. */
  function RootEnd<S>(b: Builder, s: S, run: (S, Handler) -> S): (r: (Builder, S))
    ensures r.0.nodes == [] && r.0.handlers == []
    ensures r.0.bboxes == b.bboxes && r.0.cursor == b.cursor && r.0.frame == b.frame
  {
    (b.(nodes := [], handlers := []), Replay(b.handlers, run, s))
  }

  /** Runs `queue` front to back. */
  function Replay<S>(queue: seq<Handler>, run: (S, Handler) -> S, s: S): S
    decreases |queue|
  {
    if |queue| == 0 then s else Replay(queue[1..], run, run(s, queue[0]))
  }

  // ---------------------------------------------------------------------
  // The older generation

  /** The older `push_element`: the same linking, with no bounding box
      (the field is left at 0). */
  function LegacyPushElement(b: Builder): (r: Result<(Builder, NodeId)>)
    requires Valid(b)
    ensures b.cursor.parent.None? && b.cursor.prevSibling.None? <==> r.Failure?
    ensures r.Success? ==>
              var (b', n) := r.value;
              && n == |b.nodes| && |b'.nodes| == n + 1
              && Valid(b') && b'.cursor == OpenSibling(n)
              && b'.bboxes == b.bboxes && b'.handlers == b.handlers
              && ParentsKept(b, b')
  {
    var n := |b.nodes|;
    if b.cursor.parent.Some? then
      var p := b.cursor.parent.value;
      var nodes := b.nodes[p := b.nodes[p].(firstChild := Some(n))];
      Success((b.(nodes := nodes + [Node(0, Some(p), None, None, None, UNSET_RECT, 0)], cursor := OpenSibling(n)), n))
    else if b.cursor.prevSibling.Some? then
      var s := b.cursor.prevSibling.value;
      var nodes := b.nodes[s := b.nodes[s].(nextSibling := Some(n))];
      Success((b.(nodes := nodes + [Node(0, b.nodes[s].parent, None, None, Some(s), UNSET_RECT, 0)], cursor := OpenSibling(n)), n))
    else
      Failure("No parent nor prev_sibling")
  }

  /** The older `hui_root_start`: the root is as wide as the screen with
      no height yet; no bounding boxes and no frame counter. */
  function LegacyRootStart(b: Builder, screenWidth: Pixels): (r: Builder)
    ensures |r.nodes| == 1 && r.nodes[0].rect == Rect(0.0, 0.0, screenWidth, UNSET)
    ensures r.cursor.parent == Some(0) && r.cursor.prevSibling == b.cursor.prevSibling
  {
    b.(nodes := [RootNode(Rect(0.0, 0.0, screenWidth, UNSET))], cursor := b.cursor.(parent := Some(0)))
  }
}
