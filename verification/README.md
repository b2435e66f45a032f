# hui, modelled in Dafny

hui is a small immediate-mode user-interface library written in C on top of
raylib. Every frame the application rebuilds the element tree from scratch
between `hui_root_start` and `hui_root_end`. It pushes elements into an
arena, with the two-slot cursor (`parent`, `prev_sibling`) deciding where
each new element is linked. It also queues handlers. `hui_root_end` lays
the tree out, runs the queued handlers (buttons, scroll containers) against
the mouse, and clears the arena. Text is measured through a fixed-size,
open-addressed cache of rendered textures.

The repository holds two generations of the library: the current one under
`hui/` and an older one at the top level (`hui.c`, `layouts.c`,
`widgets.c`). Both are modelled. Where the two differ, the older variant is
named `Legacy…`.

The model is split into these modules:

- `Wrappers`: `Option` and `Result`. A `panic`, a failed `assert` or a
  full bounding-box stack is a `Failure`.
- `Geometry`: pixels as reals, the `UNSET` sentinel, rectangles, the
  `LayoutResult` flags as `bv8`, and margins.
- `Pen`: the glyph-by-glyph pen walk with line wrapping. Both text layouts
  and the cache's measurement share it.
- `TextCache`: the 256-slot cache. It covers `hash_str`, the linear probe
  of `text_render_cached`, `populate_cache` with its slot choice and its
  texture tolerance window, and `hui_get_text_cache_used`.
- `Layouts`: every layout strategy of both generations over an immutable
  element tree. Each strategy is a function of the element, the parent's
  current rectangle, the text cache and the frame number. The strategies
  call each other through the dispatcher `Layout` (`compute_layout`).
- `LayoutProps`: what each strategy promises about where it puts its
  children and how big it becomes.
- `Arena`: construction. It models `push_element`, the cursor, the
  bounding-box stack and the handler queue, plus `hui_root_start` and
  `hui_root_end`. `Build` interprets a balanced sequence of
  leaf/container calls.
- `ArenaProps`: the tree those calls link, and the order in which the
  handler queue runs.
- `Interaction`: the button and scroll handlers, the hot/active/clicked
  state and the scroll offsets the application owns.
- `InteractionProps`: what those handlers promise.
- `Widgets` and `WidgetsProps`: `hui_button` of both generations, how it
  is built from the arena primitives, and what it returns.

The mouse, the clock and the font are parameters:

- the mouse is `Mouse.hit`, `pressed`, `released` and `dy`;
- the frame number is an explicit argument;
- glyph advances arrive as sequences of pixel widths.

## Model

| member | source | states |
|---|---|---|
| Geometry.FlagConstants | hui/hui.h:11-19 | `UNSET` is -15001. `OK`, `ASK_PARENT` and `ASK_CHILDREN` are 0, 1 and 2, with disjoint bits, and `ASK_ALL` is their union. Only `ASK_PARENT` and `ASK_ALL` request another pass from the parent. |
| Geometry.MarginAdd | hui/layouts.c:42-49 | Adding margins adds the horizontal totals and adds the vertical totals. |
| Geometry.SymmetricSides | hui/hui.h:61 | `msymmetric(s)` puts `s` on all four sides, so adding it to a margin adds `s` to each of that margin's sides. |
| Geometry.VerticalExtent | hui/hui.h:62 | `mvertical(s)` has no horizontal extent and a vertical extent of `2s`. |
| Geometry.HorizontalExtent | hui/hui.h:63 | `mhorizontal(s)` has no vertical extent and a horizontal extent of `2s`. |
| Geometry.VerticalPlusHorizontal | hui/hui.h:61-63 | Adding `mvertical(s)` and `mhorizontal(s)` gives `msymmetric(s)`. |
| Geometry.NoneIsIdentity | hui/hui.h:64 | `mnone` is the identity of `margin_add`. |
| Geometry.SymmetricAdds | hui/hui.h:61 | `msymmetric(s)` plus `msymmetric(t)` is `msymmetric(s + t)`. |
| Geometry.SymmetricCommutes | hui/hui.h:61 | Adding a symmetric margin gives the same result on either side. |
| Pen.Walk | hui/text.c:96-109 | The number of line breaks is between 0 and the glyph count. The pen's y is the start plus one line height per break. Without a break, x advances by the sum of the advances plus the spacing. |
| Pen.FitsOnOneLine | hui/text.c:96-109 | The text stays on one line if and only if every glyph fits before the limit at its pen position. |
| TextCache.HashStr | hui/text.c:7-13 | The loop computes the text's base-256 numeral modulo 2^64. The empty text hashes to 0. |
| TextCache.StartSlotIsLastByte | hui/text.c:138 | The first slot probed for a text is its last byte, or 0 for the empty text. |
| TextCache.HashKeyIgnoresGeometry | hui/text.c:46-52 | Only the text hash decides where a key is probed, so the width and font size play no part. |
| TextCache.ProbeBijection | hui/text.c:140-151 | Wrapping the probe index modulo 256 visits every slot exactly once per 256 steps. Slot and probe offset convert back and forth. |
| TextCache.GiveUpSlotOutsideWindow | hui/text.c:59-65 | The slot `populate_cache` falls back to after 20 failed probes is not one of the 20 slots it probed. |
| TextCache.LookupFrom | hui/text.c:140-151 | A hit is the first probed slot that holds the key, within 20 probes. Every earlier probed slot misses. Exactly the probed slots are released when stale, and all others are untouched. |
| TextCache.LookupOnlyReleases | hui/text.c:141-145 | A lookup changes a slot only by releasing it when it is stale (unused, texture freed). It never marks a slot used. |
| TextCache.LookupFindsFirstMatch | hui/text.c:140-151 | When the first live match is at probe offset `off` < 20, the lookup hits exactly there. |
| TextCache.ChooseFrom | hui/text.c:59-65 | The chosen slot is the first reusable one (unused, or older than one frame) within 20 probes, or else the give-up offset. Only the chosen slot changes, and only its `used` flag is cleared. |
| TextCache.Trunc | hui/text.c:90 | The C float-to-int conversion truncates toward zero. |
| TextCache.ReallocatedTextureIsReused | hui/text.c:77-91 | A texture allocated at 1.5 times a size of at least 2x2 lies inside the tolerance window for that size. Rendering the same size again keeps it. |
| TextCache.Populate | hui/text.c:55-127 | Only the chosen slot changes. It becomes used, keyed by (hash, width, font size) and stamped with the frame. It records the pen's height and actual width. It keeps its texture when that is within the window, and otherwise gets one at 1.5 times the size. |
| TextCache.Render | hui/text.c:128-161 | The served value matches the request and carries the current frame. A hit returns the slot's earlier value, restamped. A miss returns freshly measured height and width. |
| TextCache.HitWhenPresent | hui/text.c:140-151 | A live match anywhere in the 20-slot window makes the request a hit. |
| TextCache.ServedIsFirstMatch | hui/text.c:140-151 | No slot probed before the served one matches the request. |
| TextCache.RenderUsesOnlyServedSlot | hui/text.c:128-161 | No slot other than the served one goes from unused to used. |
| TextCache.RepeatedRequestHits | hui/text.c:128-161 | Repeating a request that was cached, within 100 frames (the lookup age), is a hit on the same slot with the same value and a fresh stamp. |
| TextCache.GetTextCacheUsed | hui/text.c:38-44 | The count is the number of used slots, and at most 256. |
| TextCache.RenderAddsAtMostOneSlot | hui/text.c:128-161 | One request raises the used-slot count by at most one. |
| Layouts.Layout | hui/hui.h:29 | Every strategy keeps the element's kind, child count, position and any width or height already decided. The exceptions are the sizes a fixed element forces and the heights that leftright containers and the older root always recompute. No strategy asks its children for another pass. |
| Layouts.RootLayout | hui/core.c:45-54 | The root panics unless it has exactly one child. It keeps its own rectangle and reports OK. |
| Layouts.LegacyRootLayout | hui.c:59-76 | The older root keeps its position and reports OK. |
| Layouts.VerticalFlow | hui/layouts.c:16-26 | The children keep their number and kinds, are placed at x, take the given width, and are stacked from y with the gap between them. |
| Layouts.StackLayout | hui/layouts.c:4-32 | A stack whose width is unset in both itself and its parent fails the assert. Otherwise it keeps its position and decided sizes. |
| Layouts.InsetLayout | hui/layouts.c:54-101 | A box panics unless it has exactly one child. It keeps its position and decided sizes. |
| Layouts.BoxInsets | hui/layouts.c:58-60 | The total inset is padding plus border on each axis. |
| Layouts.BoxLayout | hui/layouts.c:54-101 | A box keeps its position and decided sizes. It asks at most its parent. |
| Layouts.ScalarBoxLayout | layouts.c:55-100 | The older box keeps its position and decided sizes. It asks at most its parent. |
| Layouts.CenterFirstPass | hui/layouts.c:146-153 | The first pass lays the child out at the container's y and keeps the child's kind. |
| Layouts.CenterLayout | hui/layouts.c:130-168 | A center panics unless it has exactly one child. It keeps its position and reports OK. |
| Layouts.ClusterStep | hui/layouts.c:221-251 | A child that fits is placed at the pen within the limit. A child that does not fit starts a new row at the left edge, one row height plus padding lower. |
| Layouts.ClusterFlow | hui/layouts.c:221-251 | The loop keeps the number of children and their sizes. |
| Layouts.ClusterArrange | hui/layouts.c:189-251 | Arranging keeps the number of children and their sizes. |
| Layouts.ClusterLayout | hui/layouts.c:189-274 | A cluster keeps its position and decided sizes. Its flags ask the parent exactly when its x or y is 0. LayoutProps.ClusterSize pins down the unset sizes. |
| Layouts.LegacyClusterLayout | layouts.c:183-268 | The older cluster keeps its position and decided sizes, with the same flags. |
| Layouts.LeftRightPasses | hui/layouts.c:308-346 | The left child is laid out at the origin and shrunk to the container when wider. The right child keeps its kind. |
| Layouts.LeftRightLayout | hui/layouts.c:297-359 | A leftright panics unless it has exactly two children. It keeps its position and width and reports OK. |
| Layouts.FixedLayout | hui/layouts.c:381-395 | A fixed element panics unless it has exactly one child. It takes its fixed size and reports OK. |
| Layouts.ScrollLayout | hui/layouts.c:415-437 | A scroll panics unless it has exactly one child. It keeps its position and decided sizes and reports OK. |
| Layouts.BlockLayout | hui/core.c:190-206 | A block keeps its position and decided sizes, leaves the cache alone, and asks at most its parent. It asks its parent exactly when both its width and its parent's are unset. An unset width becomes half the parent's when the parent has one, and an unset height becomes 100. |
| Layouts.NothingLayout | hui/core.c:222-231 | A nothing keeps its position and decided sizes, leaves the cache alone, and reports OK. |
| Layouts.TextLayout | hui/text.c:168-193 | A text keeps its position and decided sizes and reports OK. LayoutProps.TextSizesFromCache states where unset sizes come from. |
| Layouts.LegacyTextLayout | hui.c:219-256 | The older text keeps its position and decided sizes, leaves the cache alone, and reports OK. |
| LayoutProps.StackedIff | hui/layouts.c:16-26 | The children are stacked exactly when child i sits at y plus the heights of the children before it plus i gaps. |
| LayoutProps.StackedAdjacent | hui/layouts.c:23 | Each child starts one gap below the previous child's bottom edge. |
| LayoutProps.FlowPlaces | hui/layouts.c:16-26 | Each flowed child keeps its kind, sits at x and at its stacked y, and takes the given width unless it is fixed. |
| LayoutProps.StackPlacesChildren | hui/layouts.c:4-32 | The stack takes the parent's width when its own is unset. The children are stacked with the gap and take that width. An unset height becomes the children's heights plus the gaps between them. |
| LayoutProps.LegacyRootStacksChildren | hui.c:59-76 | The older root stacks its children without gaps and becomes exactly as tall as their sum. |
| LayoutProps.InsetPlacesChild | hui/layouts.c:62-100 | The child is inset by left and top. A missing x or y asks the parent. An unset size becomes the child's size plus the insets. A decided size passes to the child minus the insets. |
| LayoutProps.BoxInsetsChild | hui/layouts.c:54-101 | The gap between the box and its child is exactly padding plus border on each of the four sides. |
| LayoutProps.ScalarBoxIsSymmetricBox | layouts.c:55-100 | The older box lays out exactly as the current box with padding plus border width on all four sides. |
| LayoutProps.CenterCentersChild | hui/layouts.c:130-168 | The center takes the padded width. The child sits at the center's y with equal space on both sides. An unset height becomes the child's height. The child is laid out a second time exactly when the first pass asked its parent. Otherwise it is the first-pass result moved to the centered x. |
| LayoutProps.LeftRightArranges | hui/layouts.c:297-359 | The left child sits at the origin, no wider than the container. The right child is flush with the right edge, on the same row or wrapped below the left with padding. The height is the sum of both plus padding when wrapped, and otherwise the larger of the two. |
| LayoutProps.FixedPinsChild | hui/layouts.c:381-395 | The element and its child take the fixed size at the element's position. |
| LayoutProps.ScrollShiftsChild | hui/layouts.c:415-437 | The child is shifted up by the offset. Unset sizes come from the child. |
| LayoutProps.ScrollAtZeroIsIdentity | hui/layouts.c:424-428 | At offset 0 the scroll lays its child out exactly as a direct layout at its position does. |
| LayoutProps.BlockSettles | hui/core.c:190-206 | A block asks its parent exactly while its width is still unset, always ends with a height, and a second pass changes nothing. |
| LayoutProps.NothingSettles | hui/core.c:222-231 | Unset sizes become 0, and a second pass changes nothing. |
| LayoutProps.TextRelayoutFromCache | hui/text.c:168-193 | Laying the same text out again within the lookup age gives the same rectangle. |
| LayoutProps.TextSizesFromCache | hui/text.c:168-193 | The text wraps at its own width, or at its parent's when it has none. Unset sizes are the width and height the cache serves for that limit, and the cache afterwards is the one the request left. On a hit these are the stored slot's values. On a miss they are the fresh measurement: the pen's x on one line, or the whole limit once it wraps, and the pen's last line plus the font size. |
| LayoutProps.LegacyTextLines | hui.c:219-256 | With no width of its own, the older text is exactly its measured width clamped to the parent's: at most both, and equal to one of them. Its height is one line per break plus one. It breaks no line if and only if every glyph fits. |
| LayoutProps.ClusterStepPlaces | hui/layouts.c:221-251 | A child that fits sits at the pen and raises the row height to at least its own. A wrapped child sits at the left edge of the next row, is cut to the limit, and records the finished row's width. |
| LayoutProps.ClusterFlowInRows | hui/layouts.c:221-251 | With non-negative padding, every child lies within the limit and between the starting y and the bottom of the last row, which never rises. |
| LayoutProps.ClusterHeightCovers | hui/layouts.c:253-254 | A cluster with unset height is tall enough to contain every child. |
| LayoutProps.ClusterStepExtent | hui/layouts.c:220-248 | For one child of non-negative size, the widest row grows to reach the child's right edge or stays what it was. The row's bottom moves to the child's bottom edge or stays where it was. |
| LayoutProps.ClusterFlowExtent | hui/layouts.c:220-250 | With non-negative padding and children of non-negative size, the loop's widest row reaches exactly the furthest child's right edge, or stays what it was. The last row's bottom is exactly the lowest child's bottom edge, or stays where it was. A child placed from the left edge starts there. |
| LayoutProps.ClusterSize | hui/layouts.c:253-262 | With non-negative padding and children of non-negative size, an unset width makes every child's right edge at most the cluster's right edge, and some child's edge equal to it. An unset height does the same for bottom edges. With no children the unset size is 0. |
| LayoutProps.LegacyClusterHeightOffset | layouts.c:247-248 | The older cluster places its children exactly as the current one does, but its height is larger by its own y. |
| LayoutProps.LegacyClusterSize | layouts.c:247-258 | In the older cluster an unset width is exactly as wide as the furthest child reaches, as in the current one. An unset height equals the absolute y of the lowest child's bottom edge, not a distance from the cluster's top. With no children it is the cluster's own y. |
| LayoutProps.LegacyClusterOverflows | layouts.c:247-248 | For a cluster at y = -50 holding one 100-tall block, the older height leaves the block 50 pixels below the cluster's bottom edge. The current cluster contains it. |
| Arena.PushElement | hui/core.c:137-162 | Pushing fails exactly when both cursor slots are empty. The new element is appended with no id, an unset rectangle and the top bounding box. The cursor ends on it as the previous sibling. No earlier element changes its parent. |
| Arena.LegacyPushElement | hui.c:145-169 | The older push fails under the same condition and links the same way. |
| Arena.StartAddingChildren | hui/core.c:174-177 | The previous sibling becomes the open parent. |
| Arena.StopAddingChildren | hui/core.c:179-188 | Closing leaves at most one cursor slot set, and every slot points into the arena. |
| Arena.CurrentElement | hui/core.c:37-40 | The current element is the open parent if there is one, and otherwise the previous sibling. |
| Arena.StartBoundingBox | hui/core.c:164-168 | Pushing a clip box panics exactly when the stack is full, and otherwise appends the box. |
| Arena.EndBoundingBox | hui/core.c:170-172 | Ending a clip box pops exactly the top box and nothing else. |
| Arena.PushHandler | hui/core.c:70-73 | The handler is appended to the queue, and nothing else changes. |
| Arena.Inner | hui/core.c:164-177 | Opening a container pushes its clip box when it clips and makes it the open parent. |
| Arena.Close | hui/core.c:170-188 | Closing a container restores the cursor and pops its clip box. |
| Arena.Build | hui/core.c:137-188 | Balanced calls keep every link inside the arena and leave the clip stack as they found it. They never relink an existing element, and they keep the one-slot cursor invariant. |
| Arena.RootStart | hui/core.c:90-106 | A frame starts with only the root, sized to the screen. The clip stack holds the root and the frame counter advances. The root is the open parent, but the previous frame's sibling slot survives. |
| Arena.RootStartCleared | hui/core.c:34-35 | Clearing the sibling slot at frame start satisfies the cursor invariant, and the arena is well formed. |
| Arena.RootEnd | hui/core.c:109-131 | After a frame the arena and handler queue are empty, and the cursor, clip stack and frame counter are unchanged. |
| Arena.LegacyRootStart | hui.c:103-117 | The older frame start keeps only the root, of screen width and unset height, opened as parent. |
| ArenaProps.PushLinks | hui/core.c:139-151 | Under an open parent, the new element becomes the parent's first child. After a sibling, it becomes the sibling's next sibling and shares its parent. No other element changes. |
| ArenaProps.CursorKeepsAtMostOne | hui/core.c:34-35 | Opening, closing and pushing each keep at most one cursor slot set. |
| ArenaProps.EmptyScopeIsNoOp | hui/core.c:174-188 | Opening an element and closing it right away returns the cursor to that element. |
| ArenaProps.CurrentElementOfScopes | hui/core.c:37-40 | Both cursor shapes name their element, and the empty cursor names none. |
| ArenaProps.StopClosesScope | hui/core.c:179-188 | Closing from inside a container, with or without children, leaves the container as the previous sibling. |
| ArenaProps.BuildStaysInScope | hui/core.c:137-188 | Balanced calls inside a container stay inside it. |
| ArenaProps.ScopeReturnsToContainer | hui/core.c:137-188 | After one leaf or one balanced container, the cursor is on the new element, whose parent is the current parent. |
| ArenaProps.BuildSucceeds | hui/core.c:137-168 | Balanced calls from a non-empty cursor succeed whenever the clip nesting fits the stack. |
| ArenaProps.BoundingBoxPushPop | hui/core.c:164-172 | Ending a clip box undoes starting one, and a full stack refuses another. |
| ArenaProps.RootStartKeepsStaleSibling | hui/core.c:105 | When the previous frame ended after a sibling, the new frame starts with both cursor slots set. |
| ArenaProps.FrameStartsInRoot | hui/core.c:90-106 | From the cleared start, any balanced frame within the clip depth succeeds, stays in the root, and keeps only the root's box. |
| ArenaProps.LegacyPushMatches | hui.c:145-169 | The older push is the current push without a clip box. |
| ArenaProps.ReplayAppend | hui/core.c:117-120 | Running two queues one after the other is running their concatenation. |
| ArenaProps.ReplayRunsQueueInOrder | hui/core.c:117-120 | Every queued handler runs exactly once, in the order pushed. |
| ArenaProps.RootEndRunsHandlers | hui/core.c:109-131 | The frame's handlers run in order, and the arena and queue are then cleared. |
| ArenaProps.PushHandlerRunsLast | hui/core.c:70-73 | A handler pushed last runs after all the others. |
| Interaction.InitialUi | hui/core.c:42-43 | At program start nothing is hot, active or clicked, and no offset holds the wheel. |
| Interaction.ButtonHandle | hui/widgets.c:8-26 | The handler changes only the hot, active and clicked ids, and only to this button's id or to 0. |
| Interaction.LegacyButtonHandle | widgets.c:9-23 | The older handler changes only the hot id. |
| Interaction.ScrollHandle | hui/layouts.c:451-468 | Under the mouse, the container takes the wheel and remembers its prior value, and the offset that held the wheel gets its saved value back. Otherwise the wheel owner stays. The offset ends at least 0 and at most the scroll range unless that is negative. No other offset changes. |
| Interaction.Clamp | hui/layouts.c:466-467 | The clamped value is at least 0 and at most the high end unless that is negative. It is unchanged when already in range, the high end when above, and 0 when below. |
| Interaction.ScrollHandleFixed | hui/layouts.c:451-468 | The offsets are exactly those of the handler as written. Only the saved value differs: it is kept inside the range. |
| Interaction.ScrollReset | hui/layouts.c:470-479 | Starting a scroll container forgets which offset held the wheel and changes nothing else. |
| Interaction.ReplayStart | hui/layouts.c:470-471 | The state a frame's handlers replay on: with no wheel owner when the frame started a scroll container, otherwise the state handed over from the previous frame. Nothing else changes. |
| Interaction.RunHandler | hui/core.c:117-120 | Running any queued handler, including the scroll handler as written, keeps the wheel owner among the offsets and keeps their number. |
| InteractionProps.ButtonHot | hui/widgets.c:11-18 | A button is hot exactly while the mouse is over its rectangle and clip box. Leaving clears only its own hot id. |
| InteractionProps.ButtonActive | hui/widgets.c:11-24 | A button is active after the run exactly when it was pressed now or earlier and the mouse was not released. A release ends it. |
| InteractionProps.ButtonClickIff | hui/widgets.c:19-25 | A button is clicked exactly when released over it while active. |
| InteractionProps.ClickLastsOneRun | hui/widgets.c:19 | Without a release, a click is cleared on the next run. |
| InteractionProps.PressReleaseClicksOnce | hui/widgets.c:8-26 | A press, a release over the button, then one more run: the button is active after the press, clicked after the release, and not clicked after that. |
| InteractionProps.LegacyButtonAgrees | widgets.c:18-22 | When the clip box does not hide the button, the older handler tracks hot exactly as the current one. |
| InteractionProps.ScrollFollowsWheel | hui/layouts.c:462-467 | The offset follows the wheel while in range, and otherwise stops at the nearer end. |
| InteractionProps.ScrollSettles | hui/layouts.c:451-468 | Running again with the mouse elsewhere changes nothing. |
| InteractionProps.LaterScrollTakesWheel | hui/layouts.c:454-465 | With two nested containers under the mouse, the inner one takes the wheel as if the outer had not moved. The outer offset returns to its value from before the frame. |
| InteractionProps.RestoreLeavesOffsetOutOfRange | hui/layouts.c:455-457 | An outer offset of 100 whose range shrank to 50 stays at 100 when the mouse is over a nested container. |
| InteractionProps.NestedScrollsStayInRange | hui/layouts.c:451-468 | With the saved value kept in range, both nested offsets end the frame in range. The outer one sits where its own clamp puts it. |
| InteractionProps.RunHandlerKeepsSettled | hui/layouts.c:451-468 | One handler keeps every offset, and the saved value, non-negative. |
| InteractionProps.ButtonIgnoresPrev | hui/widgets.c:8-26 | The button handler's hot, active and clicked results do not depend on the saved scroll value. |
| InteractionProps.ScrollIgnoresIdlePrev | hui/layouts.c:451-468 | The scroll handler reads the saved value only while some offset holds the wheel. Two states that differ only in an unread saved value stay that way. |
| InteractionProps.RunHandlerIgnoresIdlePrev | hui/core.c:117-120 | No queued handler reads the saved value while no offset holds the wheel. |
| InteractionProps.ReplayKeepsSettled | hui/core.c:117-120 | The whole queue keeps every offset non-negative. |
| InteractionProps.ReplayIgnoresIdlePrev | hui/core.c:117-120 | Replaying a queue keeps two states that differ only in an unread saved value in that relation. |
| InteractionProps.FrameKeepsSettled | hui/core.c:109-131 | A whole frame (the wheel-owner reset of its scroll containers, then `hui_root_end`) that starts settled, with offsets and saved value non-negative, ends settled. |
| InteractionProps.FrameForgetsOwner | hui/layouts.c:470-471 | A frame that starts a scroll container ends with the same offsets, ids and wheel owner whatever offset held the wheel before it, and whatever value was saved. Scrolling one container and hovering another in a later frame never puts the first back. |
| InteractionProps.FramesKeepSettled | hui/core.c:109-131 | Any sequence of whole frames from a settled state ends settled. Each frame that starts a scroll container replays with no wheel owner. |
| InteractionProps.FramesStaySettled | hui/core.c:109-131 | Starting from non-negative offsets at program start, every offset stays non-negative after any sequence of frames. |
| Widgets.ButtonBackground | hui/widgets.c:35-40 | The background is one of the default, active and hot colours. |
| Widgets.Button | hui/widgets.c:28-48 | Building fails exactly when the cursor is empty. The button adds a box tagged with its id, the label inside it, and one button handler. It closes the box, keeps every earlier parent link, and returns true exactly when this id was clicked. |
| Widgets.LegacyButton | widgets.c:25-40 | The older button adds a box tagged 1 with its label and handler, and is red exactly while element 1 is hot. |
| WidgetsProps.ButtonBackgroundShowsState | hui/widgets.c:35-40 | The background is active-red exactly when active, hot-red exactly when hot and not active, and grey otherwise. |
| WidgetsProps.PushIgnoresTags | hui/widgets.c:42-43 | Tagging the box with an id and queueing its handler do not change how the label is linked. |
| WidgetsProps.LeafUnfold | hui/text.c:209-217 | A text element is one push. |
| WidgetsProps.BoxAroundLeafUnfold | hui/layouts.c:118-128 | A box start, one text and a box end amount to two pushes around an open scope. |
| WidgetsProps.ButtonUnfold | hui/widgets.c:41-45 | The button is the box push, its tag and handler, the label push and the close. |
| WidgetsProps.ButtonIsBoxAroundLabel | hui/widgets.c:41-45 | A button links elements, cursor and clip stack exactly as a box around one text does. |
| WidgetsProps.ButtonHandlerSeesButton | hui/widgets.c:42-43 | The handler the button queues runs the button state machine on the button's id, rectangle and clip box. |
| WidgetsProps.ButtonReturnsClickOnce | hui/widgets.c:47 | After a release over the active button, the next build returns true and the one after returns false. |
| WidgetsProps.LegacyButtonTracksOne | widgets.c:32-37 | The older button is red exactly while button 1 is hot, and its handler sees id 1. |

## Left out

- Drawing (`*_draw`, raylib calls, GPU textures) is not modelled. A texture is its integer width and height. The draw pass's own cache requests are not modelled.
- Input is a parameter. `CheckCollisionPointRec(GetMousePosition(), r)` is `Mouse.hit(r)`; `IsMouseButtonPressed` and `IsMouseButtonReleased` are `pressed` and `released`; the wheel movement already scaled to pixels (`-wheel * 1500 * frame_time`) is `dy`.
- `Pixels` is `f32` in C and a Dafny `real` here. Rounding is not modelled. The only float-to-int conversion, a texture size, is truncated explicitly.
- The `i64` frame counter is an unbounded `int`.
- Glyph metrics come from raylib. A text carries its advance widths, and the older text carries its `MeasureText` width as `measured`. UTF-8 decoding is not modelled: one advance per glyph.
- The tentative texture height divides by the width. The model takes the quotient as 0 when the width is 0.
- `hash_str` reads `char`, whose signedness is platform-defined. Bytes are taken as 0..255.
- The hlib helpers (`str`, `panic`, the arena allocator) and `printf` are outside the model.
- Layout runs on an immutable element tree rather than the arena. Handlers read element rectangles as they stand in the arena. The step that copies layout results back into arena nodes is not modelled.
- The root's id and bounding box are left uninitialised by `hui_root_start`. The model sets them to 0, that is, to the root itself.
- `hui_button` initialises its `BoxStyle` with the older scalar fields. Only the background colour is modelled, and the layout of the box is that of `Layouts.BoxLayout`. The `TextStyle` argument of `hui_text` is reduced to the font size.
- A scroll element reads its offset through a `Pixels*`. The model carries the offset's value in the element's kind, and the handler addresses it by index into `Ui.offsets`.
- Functions that are only declared in `hui/hui.h` (`hui_text_ex`, `hui_cursor_text`, `hui_text_input`, `hui_get_text_cache_cap`) have no body to model. `main.c` and `todo.c` are applications of the library.
- Arena.Build: its call shapes record only element links and clip scopes. The handler that `hui_scroll_start` queues is modelled by `Arena.PushHandler`. Its reset of the wheel owner, `Interaction.ScrollReset`, is applied once per frame by `Interaction.ReplayStart`, before the frame's handlers replay. That placement is exact because the reset runs during construction, and no handler runs until `hui_root_end`.
- Geometry.IsUnset: `is_unset` is only declared at hui/hui.h:35, and its body is not part of this model. It is taken to be the exact comparison `v == UNSET`, as the older code's direct `== UNSET` tests are.
- Interaction.RunHandler: it treats a handler whose element, child or offset is missing as doing nothing, where the library's behaviour is undefined.
- Arena.PushElement: it requires a non-empty bounding-box stack, because reading the top of an empty stack is undefined.
- Arena.EndBoundingBox: it requires a non-empty stack, for the same reason.
- LayoutProps.BlockSettles: it requires half the parent's width not to equal `UNSET`, because the sentinel would then be indistinguishable from a set width.
- LayoutProps.ClusterFlowInRows: it is stated for non-negative padding only. With negative padding a wrapped row can start above the previous one.
- LayoutProps.ClusterHeightCovers: it is stated for non-negative padding only, for the same reason.
- InteractionProps.ButtonHot: it is stated for non-zero ids, because id 0 doubles as "no element".
- InteractionProps.ButtonActive: it is stated for non-zero ids, for the same reason.
- InteractionProps.ButtonClickIff: it is stated for non-zero ids, for the same reason.
- InteractionProps.ClickLastsOneRun: it is stated for non-zero ids, for the same reason.

## Findings

| source | as written | input that shows it | evidently intended | confidence | as-written member | corrected member |
|---|---|---|---|---|---|---|
| layouts.c:247-248 | The older cluster sets its height to the pen's y plus the last row's height. That is an absolute coordinate, so `layout.y` is never subtracted. | Any cluster at y > 0 with unset height comes out y pixels too tall (the older generation has no scrolling, so y is never negative there). For a cluster at y = -50 holding one block 100 tall, the block's bottom would be at 50 and the cluster's at 0. | The height is measured from the cluster's own y, as in hui/layouts.c:253-254. | medium, not executed | LayoutProps.LegacyClusterHeightOffset | LayoutProps.ClusterSize |
| hui/core.c:105 | `hui_root_start` opens the root as parent but does not clear `prev_sibling`. That breaks the at-most-one invariant stated at hui/core.c:34. | The previous frame ends with the cursor on a sibling, element 3: the new frame starts with both slots set. | Frame start clears the sibling slot. The fault is harmless in practice, because `push_element` checks `parent` first. | low, not executed | ArenaProps.RootStartKeepsStaleSibling | ArenaProps.FrameStartsInRoot |
| hui/layouts.c:455-460 | When a second scroll container takes the wheel, the first gets back the raw value it had before the wheel. The clamp at lines 466-467 runs only for the taking container, so the restored offset can lie outside its range. | Offsets [100, 0]: an outer container 50 tall over content 100 tall, an inner one 20 tall over content 10, the mouse over both, no wheel movement. The outer offset ends at 100, above its range of 50. | The saved value lies within the range, so the restore never leaves an offset out of range. | low, not executed | InteractionProps.RestoreLeavesOffsetOutOfRange | InteractionProps.NestedScrollsStayInRange |
