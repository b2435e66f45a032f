/** What the construction cursor, the bounding-box stack and the handler
    queue promise, proved about their definitions. */
module ArenaProps {
  import opened Wrappers
  import opened Geometry
  import opened Arena

  // ---------------------------------------------------------------------
  // Linking one element

  /** `push_element` links the new element as the open parent's first
      child, or as the open sibling's next sibling under the same parent,
      and changes no other element. */
  lemma PushLinks(b: Builder)
    requires Valid(b) && |b.bboxes| > 0
    ensures var r := PushElement(b);
            r.Success? ==>
              var (b', n) := r.value;
              var nd := b'.nodes[n];
              && (b.cursor.parent.Some? ==>
                    var p := b.cursor.parent.value;
                    && b'.nodes[p] == b.nodes[p].(firstChild := Some(n))
                    && nd.parent == Some(p) && nd.prevSibling.None?
                    && (forall i :: 0 <= i < n && i != p ==> b'.nodes[i] == b.nodes[i]))
              && (b.cursor.parent.None? ==>
                    var s := b.cursor.prevSibling.value;
                    && b'.nodes[s] == b.nodes[s].(nextSibling := Some(n))
                    && nd.parent == b.nodes[s].parent && nd.prevSibling == Some(s)
                    && (forall i :: 0 <= i < n && i != s ==> b'.nodes[i] == b.nodes[i]))
  {
  }

  /** Each cursor operation keeps at most one slot set. */
  lemma CursorKeepsAtMostOne(b: Builder)
    requires Valid(b) && |b.bboxes| > 0
    ensures AtMostOne(StartAddingChildren(b.cursor))
    ensures AtMostOne(StopAddingChildren(b))
    ensures PushElement(b).Success? ==> AtMostOne(PushElement(b).value.0.cursor)
  {
  }

  /** Opening and immediately closing a pushed element's children puts the
      cursor back where the push left it. */
  lemma EmptyScopeIsNoOp(b: Builder, n: NodeId)
    requires Valid(b) && n < |b.nodes| && b.cursor == OpenSibling(n)
    ensures StopAddingChildren(b.(cursor := StartAddingChildren(b.cursor))) == OpenSibling(n)
  {
  }

  /** `current_element`: the open parent if there is one, else the open
      sibling. */
  lemma CurrentElementOfScopes(n: NodeId)
    ensures CurrentElement(OpenParent(n)) == Some(n)
    ensures CurrentElement(OpenSibling(n)) == Some(n)
    ensures CurrentElement(Cursor(None, None)).None?
  {
  }

  // ---------------------------------------------------------------------
  // Balanced scopes

  /** Inside container `n`: either nothing was added yet (`n` is the open
      parent) or the open sibling is a child of `n`. */
  predicate InScope(b: Builder, n: NodeId) {
    || b.cursor == OpenParent(n)
    || (&& b.cursor.parent.None?
        && b.cursor.prevSibling.Some?
        && b.cursor.prevSibling.value < |b.nodes|
        && b.nodes[b.cursor.prevSibling.value].parent == Some(n))
  }

  /** Closing a container from inside it reopens the container as the
      previous sibling, whether or not children were added. */
  lemma StopClosesScope(b: Builder, n: NodeId)
    requires Valid(b) && InScope(b, n)
    ensures StopAddingChildren(b) == OpenSibling(n)
  {
  }

  /** One container call, spelled out. */
  lemma ContainerUnfold(c: Call, calls: seq<Call>, b: Builder)
    requires Valid(b) && |b.bboxes| > 0 && |calls| > 0 && calls[0] == c && c.Container?
    requires PushElement(b).Success?
    ensures var b1 := PushElement(b).value.0;
            var n := PushElement(b).value.1;
            var inner := Inner(b1, n, c.clip);
            && (inner.Success? && Build(c.body, inner.value).Success? ==>
                  Build(calls, b) == Build(calls[1..], Close(Build(c.body, inner.value).value, c.clip)))
            && (inner.Failure? || Build(c.body, inner.value).Failure? ==> Build(calls, b).Failure?)
  {
  }

  /** Whatever balanced calls run inside container `n`, the cursor stays
      inside it. */
  lemma {:induction false} BuildStaysInScope(calls: seq<Call>, b: Builder, n: NodeId)
    requires Valid(b) && |b.bboxes| > 0 && n < |b.nodes| && InScope(b, n)
    ensures var r := Build(calls, b);
            r.Success? ==> InScope(r.value, n)
    decreases calls
  {
    if |calls| > 0 {
      var pushed := PushElement(b);
      var b1 := pushed.value.0;
      var m := pushed.value.1;
      assert b1.nodes[m].parent == Some(n);
      match calls[0]
      case Leaf =>
        BuildStaysInScope(calls[1..], b1, n);
      case Container(clip, body) =>
        ContainerUnfold(calls[0], calls, b);
        var inner := Inner(b1, m, clip);
        if inner.Success? {
          BuildStaysInScope(body, inner.value, m);
          var r3 := Build(body, inner.value);
          if r3.Success? {
            StopClosesScope(r3.value, m);
            BuildStaysInScope(calls[1..], Close(r3.value, clip), n);
          }
        }
    }
  }

  /** A balanced `_start` ... `_end` pair returns the cursor to "open
      sibling = the container", with the container linked under the open
      parent or after the open sibling, and the bounding-box stack as it
      was. */
  lemma ScopeReturnsToContainer(c: Call, b: Builder)
    requires Valid(b) && |b.bboxes| > 0
    requires b.cursor.parent.Some? || b.cursor.prevSibling.Some?
    ensures var r := Build([c], b);
            r.Success? ==>
              var n := |b.nodes|;
              && n < |r.value.nodes|
              && r.value.cursor == OpenSibling(n)
              && r.value.bboxes == b.bboxes
              && r.value.nodes[n].parent
                 == (if b.cursor.parent.Some? then b.cursor.parent else b.nodes[b.cursor.prevSibling.value].parent)
  {
    var pushed := PushElement(b);
    var b1 := pushed.value.0;
    var n := pushed.value.1;
    PushLinks(b);
    assert [c][1..] == [];
    if c.Container? {
      ContainerUnfold(c, [c], b);
      var inner := Inner(b1, n, c.clip);
      if inner.Success? {
        BuildStaysInScope(c.body, inner.value, n);
        var r3 := Build(c.body, inner.value);
        if r3.Success? {
          StopClosesScope(r3.value, n);
          var closed := Close(r3.value, c.clip);
          assert Build([c], b) == Success(closed);
          assert closed.nodes[n].parent == b1.nodes[n].parent;
        }
      }
    } else {
      assert Build([c], b) == Success(b1);
    }
  }

  /** The deepest nesting of clipping scopes among `calls`. */
  function ClipDepth(calls: seq<Call>): nat
    decreases calls
  {
    if |calls| == 0 then 0
    else
      var here := match calls[0]
        case Leaf => 0
        case Container(clip, body) => (if clip then 1 else 0) + ClipDepth(body);
      if here > ClipDepth(calls[1..]) then here else ClipDepth(calls[1..])
  }

  /** Balanced calls started with a cursor slot set never fail, unless
      their clipping scopes nest deeper than the bounding-box stack
      holds. */
  lemma {:induction false} BuildSucceeds(calls: seq<Call>, b: Builder)
    requires Valid(b) && |b.bboxes| > 0
    requires b.cursor.parent.Some? || b.cursor.prevSibling.Some?
    requires |b.bboxes| + ClipDepth(calls) <= BOUNDING_BOX_STACK_CAP
    ensures Build(calls, b).Success?
    decreases calls
  {
    if |calls| > 0 {
      var pushed := PushElement(b);
      var b1 := pushed.value.0;
      var n := pushed.value.1;
      match calls[0]
      case Leaf =>
        BuildSucceeds(calls[1..], b1);
      case Container(clip, body) =>
        ContainerUnfold(calls[0], calls, b);
        var inner := Inner(b1, n, clip).value;
        BuildSucceeds(body, inner);
        var b3 := Build(body, inner).value;
        BuildStaysInScope(body, inner, n);
        StopClosesScope(b3, n);
        BuildSucceeds(calls[1..], Close(b3, clip));
    }
  }

  /** `start_bounding_box` on a full stack is fatal; otherwise
      `end_bounding_box` undoes it. */
  lemma BoundingBoxPushPop(b: Builder, box: NodeId)
    ensures |b.bboxes| == BOUNDING_BOX_STACK_CAP ==> StartBoundingBox(b, box).Failure?
    ensures var r := StartBoundingBox(b, box);
            r.Success? ==> EndBoundingBox(r.value) == b
  {
    if StartBoundingBox(b, box).Success? {
      assert (b.bboxes + [box])[..|b.bboxes|] == b.bboxes;
    }
  }

  // ---------------------------------------------------------------------
  // Frames

  /** A previous frame that ended on an open sibling leaves both cursor
      slots set after `hui_root_start`, contrary to the invariant stated
      beside the two slots. */
  lemma RootStartKeepsStaleSibling(b: Builder, screenWidth: Pixels, screenHeight: Pixels)
    requires b.cursor == OpenSibling(3)
    ensures !AtMostOne(RootStart(b, screenWidth, screenHeight).cursor)
  {
  }

  /** A frame built with `RootStartCleared` opens the root as parent, so
      its calls link under the root and keep at most one slot set, and a
      balanced scope at the top level returns to the container. */
  lemma FrameStartsInRoot(b: Builder, screenWidth: Pixels, screenHeight: Pixels, calls: seq<Call>)
    requires b.handlers == []
    requires 1 + ClipDepth(calls) <= BOUNDING_BOX_STACK_CAP
    ensures var start := RootStartCleared(b, screenWidth, screenHeight);
            var r := Build(calls, start);
            && r.Success?
            && AtMostOne(r.value.cursor)
            && InScope(r.value, 0)
            && r.value.bboxes == [0]
  {
    var start := RootStartCleared(b, screenWidth, screenHeight);
    BuildSucceeds(calls, start);
    BuildStaysInScope(calls, start, 0);
  }

  /** The older `push_element` links exactly like the current one; only the
      bounding box of the new element differs. */
  lemma LegacyPushMatches(b: Builder)
    requires Valid(b) && |b.bboxes| > 0
    ensures var legacy := LegacyPushElement(b);
            var current := PushElement(b);
            && legacy.Success? == current.Success?
            && (legacy.Success? ==>
                  var n := current.value.1;
                  && legacy.value.1 == n
                  && legacy.value.0 == current.value.0.(nodes := current.value.0.nodes[n := current.value.0.nodes[n].(bbox := 0)]))
  {
  }

  // ---------------------------------------------------------------------
  // Handler queue

  /** Running two queues back to back is running their concatenation. */
  lemma {:induction false} ReplayAppend<S>(q1: seq<Handler>, q2: seq<Handler>, run: (S, Handler) -> S, s: S)
    ensures Replay(q1 + q2, run, s) == Replay(q2, run, Replay(q1, run, s))
    decreases |q1|
  {
    if |q1| > 0 {
      assert (q1 + q2)[0] == q1[0];
      assert (q1 + q2)[1..] == q1[1..] + q2;
      ReplayAppend(q1[1..], q2, run, run(s, q1[0]));
    } else {
      assert q1 + q2 == q2;
    }
  }

  /** Appends the handler to a log of calls. */
  function Record(log: seq<Handler>, h: Handler): seq<Handler> {
    log + [h]
  }

  /** Every queued handler runs exactly once, in the order pushed: a run
      that only records its calls records the queue itself. */
  lemma {:induction false} ReplayRunsQueueInOrder(queue: seq<Handler>, log: seq<Handler>)
    ensures Replay(queue, Record, log) == log + queue
    decreases |queue|
  {
    if |queue| > 0 {
      ReplayRunsQueueInOrder(queue[1..], log + [queue[0]]);
      assert log + [queue[0]] + queue[1..] == log + queue;
    }
  }

  /** `hui_root_end` runs each registered handler once, in push order, and
      then empties the arena and the queue. */
  lemma RootEndRunsHandlers(b: Builder, log: seq<Handler>)
    ensures var (b', log') := RootEnd(b, log, Record);
            && log' == log + b.handlers
            && b'.nodes == [] && b'.handlers == []
  {
    ReplayRunsQueueInOrder(b.handlers, log);
  }

  /** A handler pushed during construction runs after every handler pushed
      before it. */
  lemma PushHandlerRunsLast<S>(b: Builder, fn: HandlerFn, el: NodeId, run: (S, Handler) -> S, s: S)
    ensures RootEnd(PushHandler(b, fn, el), s, run).1 == run(RootEnd(b, s, run).1, Handler(fn, el))
  {
    ReplayAppend(b.handlers, [Handler(fn, el)], run, s);
    assert [Handler(fn, el)][1..] == [];
  }
}
