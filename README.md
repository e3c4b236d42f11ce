# UIEngine in Dafny

This project models the core of UIEngine, a Kotlin UI library for the
Minecraft client. The library keeps a list of root elements. Each element is
laid out relative to its parent, hit-tested against the mouse and rendered
into the client's draw context. Some elements are composites (rectangles,
rounded rectangles, context menus) that own a child list. The engine has
four parts, and the model covers each:

- **the element** (`AbstractElement`, `Parent` and the four concrete kinds):
  - the enabled/interactable switches;
  - the hover latch and the click gate;
  - the per-axis layout law and the inclusive hit test;
  - the balanced transform-stack pushes and pops of `transformAndRender`;
  - each kind's render command trace;
  - the child-list edits and the `lastParent` back-reference;
  - the text element's width recomputation;
  - the context menu's show/hide state, key, scroll and drag handling, and
    its drag lock.
- **the scene manager** (`UIManager`): the root list, the depth-first
  pre-order mouse update and the render pass over the roots.
- **the overlay screen** (`KostilScreen`): the GLFW modifier-bitmask decoding
  and the forwarding of escape, key, scroll and drag input to the enabled
  root context menus.
- **colour packing** (`Color`): the alpha clamp and the signed 32-bit ARGB
  value.

How the model is built:

- **Elements as one class.** The Kotlin subclasses become one Dafny class,
  `Elements.Element`, with a `kind` tag. An operation that belongs to one
  subclass requires that kind.
- **The host.** The Minecraft client is the class `Elements.Host`. It holds:
  - whether the current screen allows interaction;
  - the HUD-hide flag and the chat option;
  - the tasks posted to the client thread;
  - the text renderer's width measure;
  - a log of every handler invocation, with the context the handler
    receives.
- **The draw context** is the class `Drawing.DrawContext`. It tracks its
  matrix-stack depth, its scissor-stack depth, the window size and a log of
  the commands it was given.
- **Coordinates** are `real`.
  - Kotlin's `Double.toInt()` (truncation toward zero, saturating at the
    bounds of `Int`) is written out as `Geometry.ToInt`.
  - Kotlin's 32-bit `Int` is written out wherever it matters: in the ARGB
    packing and in the modifier bitmask.

Modules: `Options`, `Input`, `Geometry`, `Colors`, `Drawing`, `RoundedRect`,
`Lists`, `Elements`, `Manager`, `Overlay`.

### Where the behaviour is less obvious

Each of these follows the code as written and is proved as such.

- **Disable then enable on a normal element leaves it non-interactable.**
  - Disabling saves the getter's value in `wasInteractable`.
  - It then writes `false` through the `interactable` setter. The element is
    disabled by then, so the setter also overwrites `wasInteractable`.
  - See `Elements.DisableEnableLosesInteractable`. A value written while the
    element is disabled is the one enabling brings back
    (`Elements.WriteWhileDisabledRestored`).
- **Zero-size rectangles skip their children.** When the truncated width or
  height is not positive, rectangles and rounded rectangles return before
  rendering their children.
- **A context menu's drag lock is never cleared.** Once `draggingElement` is
  set, it keeps its value.
- **A context menu's `enabled` and `interactable` are plain fields.** They do
  not go through the base class's setters, and the `interactable` getter of a
  menu does not consult the host.
- **The update walks the whole tree.** It tests neither `enabled` nor
  `interactable` before descending, so every node of every root tree is
  reached.
- **Dispatch reaches root menus only.** The overlay forwards input only to
  root elements that are enabled context menus. Nested menus are never
  reached.

## Model

| member | source | states |
|---|---|---|
| Colors.Clamp | src/main/kotlin/uiengine/utility/Color.kt:43 | `coerceIn`: the result lies in [lo, hi], equals n inside the range and the nearer bound outside it |
| Colors.AlphaByte | src/main/kotlin/uiengine/utility/Color.kt:43 | the alpha byte is a byte: 0 for alpha <= 0, 255 for alpha >= 1, otherwise alpha * 255 with the fraction dropped |
| Colors.PackArgb | src/main/kotlin/uiengine/utility/Color.kt:44 | the packed value is a 32-bit Int; its bytes 3, 2, 1 and 0 are alpha, red, green and blue; it is negative exactly when alpha >= 128 |
| Colors.PackArgbInjective | src/main/kotlin/uiengine/utility/Color.kt:44 | two packed values are equal if and only if all four channels are equal |
| Colors.ConstantsPacked | src/main/kotlin/uiengine/utility/Color.kt:6-8 | WHITE packs to 0xFFFFFFFF, BLACK to 0xFF000000 and TRANSPARENT to 0 |
| Colors.Argb | src/main/kotlin/uiengine/utility/Color.kt:42-45 | `toInt` of a channel set in range: a 32-bit Int whose bytes unpack to (alpha byte, red, green, blue) |
| Colors.Color.constructor | src/main/kotlin/uiengine/utility/Color.kt:18-23 | a new color holds exactly the four given channels |
| Colors.Color.ToInt | src/main/kotlin/uiengine/utility/Color.kt:42-45 | the packed value of the color's own channels unpacks to its alpha byte, red, green and blue |
| Colors.Color.Write | src/main/kotlin/uiengine/utility/Color.kt:30-35 | the target's four channels become this color's; this color is unchanged |
| Colors.Color.Copy | src/main/kotlin/uiengine/utility/Color.kt:52-54 | a fresh color with the same four channels |
| Geometry.Unsigned | src/main/kotlin/uiengine/stuff/KostilScreen.kt:47-50 | the 32-bit pattern of an Int read as unsigned: n for n >= 0, n + 2^32 for negative n |
| Geometry.ToInt | src/main/kotlin/uiengine/element/RectangleElement.kt:46-47 | `Double.toInt()`: truncation toward zero inside the Int range, saturation outside it; positive exactly when the input is at least 1 |
| Geometry.AbsolutePosition | src/main/kotlin/uiengine/element/AbstractElement.kt:179-188 | the element's origin point lands on the parent's alignment point plus the offset |
| Geometry.RenderLocation | src/main/kotlin/uiengine/element/AbstractElement.kt:160-166 | x and y follow the per-axis law, with parent location 0 when there is no parent; z keeps its previous value |
| Geometry.AlignedInsideParent | src/main/kotlin/uiengine/element/AbstractElement.kt:179-188 | with align = origin in [0, 1], no offset and a size no larger than the parent's, the element lies inside the parent's extent |
| Geometry.Centred | src/main/kotlin/uiengine/element/AbstractElement.kt:179-188 | with align = origin = 1/2, the element's midpoint is the parent's midpoint plus the offset |
| Geometry.Translated | src/main/kotlin/uiengine/element/AbstractElement.kt:179-188 | moving the parent by d moves the element by d |
| Geometry.InsideBox | src/main/kotlin/uiengine/element/AbstractElement.kt:221-227 | a hovered box has a non-negative size and the mouse at or past its start corner; the start corner itself is hovered exactly when the size is non-negative |
| Geometry.NegativeSizeNeverHovered | src/main/kotlin/uiengine/element/AbstractElement.kt:221-227 | a box with a negative extent on either axis contains no mouse position |
| Geometry.CornersInside | src/main/kotlin/uiengine/element/AbstractElement.kt:221-227 | the hit test includes its bounds: both extreme corners of a non-negative box are hovered |
| RoundedRect.AdjustedRadius | src/main/kotlin/uiengine/element/BeautifulRectangleElement.kt:81 | the adjusted radius is the minimum of the radius, width / 2 and height / 2 |
| RoundedRect.AdjustedRadiusFits | src/main/kotlin/uiengine/element/BeautifulRectangleElement.kt:81 | for a non-negative radius, the adjusted radius is non-negative and two of it fit across the width and across the height |
| RoundedRect.Fills | src/main/kotlin/uiengine/element/BeautifulRectangleElement.kt:83-88 | `drawRoundedRect` issues exactly five fills |
| RoundedRect.FillsInsideBox | src/main/kotlin/uiengine/element/BeautifulRectangleElement.kt:83-88 | every fill has ordered corners and lies inside the box |
| RoundedRect.FillsTileBoxMinusCorners | src/main/kotlin/uiengine/element/BeautifulRectangleElement.kt:83-88 | each pixel of the box outside the four r x r corner squares is covered by exactly one fill; every other pixel is covered by none |
| RoundedRect.ZeroRadiusFillsBox | src/main/kotlin/uiengine/element/BeautifulRectangleElement.kt:81-88 | with radius 0, the fills cover every pixel of the box exactly once and nothing outside it |
| Lists.RemoveFirst | src/main/kotlin/uiengine/element/Parent.kt:30 | `remove`: an absent value leaves the list as it is; otherwise exactly the first occurrence is dropped, as a multiset difference and one shorter |
| Lists.RemoveAll | src/main/kotlin/uiengine/element/Parent.kt:50 | `removeAll`: no survivor is in the set, and every value not in the set keeps all its occurrences |
| Lists.RemoveAllAppend | src/main/kotlin/uiengine/element/Parent.kt:50 | `removeAll` keeps the survivors' order: it distributes over concatenation |
| Elements.Host.constructor | src/main/kotlin/uiengine/element/AbstractElement.kt:261-264 | a host starts with the given interaction permission and width measure, the HUD shown (`UIEngine.isHudHide` starts false, UIEngine.kt line 25), the chat full, and no tasks or events |
| Elements.AfterSetInteractable | src/main/kotlin/uiengine/element/AbstractElement.kt:78-85 | the `interactable` setter stores the flag; while disabled it also stores the saved copy, and while enabled the copy is kept |
| Elements.AfterSetEnabled | src/main/kotlin/uiengine/element/AbstractElement.kt:20-31 | after disabling, the flag and the saved copy are both false; enabling copies the saved copy into the flag |
| Elements.WritesKeepCoherent | src/main/kotlin/uiengine/element/AbstractElement.kt:20-31 | every sequence of writes through the two setters keeps "disabled implies the flag equals the saved copy" |
| Elements.DisableEnableLosesInteractable | src/main/kotlin/uiengine/element/AbstractElement.kt:20-31 | disabling and then enabling, with no write in between, leaves the element non-interactable |
| Elements.WriteWhileDisabledRestored | src/main/kotlin/uiengine/element/AbstractElement.kt:20-31 | a value written to `interactable` while disabled is the value enabling restores |
| Elements.Element.constructor | src/main/kotlin/uiengine/element/ContextMenu.kt:26-46 | the Kotlin defaults: a new menu is disabled, non-interactable and colored (0, 0, 0, 0.8); any other new element is enabled, interactable and BLACK; corner radius 8, region and texture size 256, no parent, no children, no lock |
| Elements.Element.IsInteractable | src/main/kotlin/uiengine/element/AbstractElement.kt:78-79 | the getter is never true when the stored flag is false; a menu answers its stored flag, any other element the flag and the host's interaction permission |
| Elements.Element.SetEnabled | src/main/kotlin/uiengine/element/AbstractElement.kt:20-29 | on a normal element, the three switches become `AfterSetEnabled` of the old ones under the host's permission; on a menu, only `enabled` changes |
| Elements.Element.SetInteractable | src/main/kotlin/uiengine/element/AbstractElement.kt:78-85 | on a normal element, the switches become `AfterSetInteractable` of the old ones; on a menu, only the flag changes |
| Elements.Element.IsHovered | src/main/kotlin/uiengine/element/AbstractElement.kt:221-227 | a hovered element has a non-negative size and the mouse at or past its start corner (render location plus offset); that corner is hovered exactly when the size is non-negative |
| Elements.Element.HandleMouseHover | src/main/kotlin/uiengine/element/AbstractElement.kt:247-254 | not interactable: nothing changes; otherwise the latch becomes the hit test, and the hover handler fires once with the new value exactly when it differs from the old latch |
| Elements.Element.HandleMouseClick | src/main/kotlin/uiengine/element/AbstractElement.kt:235-239 | the click handler gets (button, pressed) exactly when the element is interactable and latched as hovered; the latch is not touched |
| Elements.Element.AddChild | src/main/kotlin/uiengine/element/Parent.kt:19-22 | appends the element, duplicates included, and points its `lastParent` here |
| Elements.Element.RemoveChild | src/main/kotlin/uiengine/element/Parent.kt:29-32 | drops the first occurrence and clears `lastParent`, even when the element was absent |
| Elements.Element.AddChildren | src/main/kotlin/uiengine/element/Parent.kt:39-42 | appends all arguments in order and points each one's `lastParent` here |
| Elements.Element.RemoveChildren | src/main/kotlin/uiengine/element/Parent.kt:49-52 | the children become `removeAll` of the argument set, and each argument's `lastParent` is cleared |
| Elements.Element.UnaryPlus | src/main/kotlin/uiengine/element/Parent.kt:61-64 | returns the very element passed in, with exactly the effect of `addChild` |
| Elements.Element.Plus | src/main/kotlin/uiengine/element/Parent.kt:73-76 | returns the very element passed in, with exactly the effect of `addChild` |
| Elements.Element.ParentWidth | src/main/kotlin/uiengine/element/TextElement.kt:45 | the parent's width when there is a parent, the element's own width otherwise |
| Elements.Element.UpdateSize | src/main/kotlin/uiengine/element/TextElement.kt:43-51 | with `autoFit`, the width becomes the parent's width (or stays unchanged without a parent); otherwise it becomes the measured width of the content; height and depth never change |
| Elements.Element.SetContent | src/main/kotlin/uiengine/element/TextElement.kt:19-23 | stores the content; with `autoFit` the width becomes the parent's width (or stays as it was without a parent), otherwise the measured width of the new content; height and depth are kept |
| Elements.Element.SetAutoFit | src/main/kotlin/uiengine/element/TextElement.kt:34-38 | stores the flag; false keeps the size, true recomputes the width from the parent |
| Elements.Element.Show | src/main/kotlin/uiengine/element/ContextMenu.kt:62-71 | the menu is enabled, the HUD-hide flag is set, and one overlay-opening task is posted |
| Elements.Element.Hide | src/main/kotlin/uiengine/element/ContextMenu.kt:76-80 | the menu is disabled, the HUD-hide flag is cleared and the chat is full, whatever the state before (so hiding twice changes nothing more) |
| Elements.Element.HandleKeyPressed | src/main/kotlin/uiengine/element/ContextMenu.kt:118-121 | the key handler, if set, gets exactly (keyCode, modifiers); nothing else changes |
| Elements.Element.HandleScroll | src/main/kotlin/uiengine/element/ContextMenu.kt:130-134 | the scroll handler, if set, gets the first hovered child (or none) and the unchanged amount |
| Elements.Element.DragTarget | src/main/kotlin/uiengine/element/ContextMenu.kt:145-148 | a lock once set is kept; without one, a non-null target is a hovered child, and a null target means no child is hovered |
| Elements.Element.HandleDrag | src/main/kotlin/uiengine/element/ContextMenu.kt:144-152 | a lock once taken is kept; without one, the menu locks onto the first hovered child; the drag handler fires exactly when the lock is non-null, with that element and the given position and deltas |
| Elements.FirstHovered | src/main/kotlin/uiengine/element/ContextMenu.kt:131 | `find`: none exactly when no child is hovered; otherwise a hovered child with no hovered child before it |
| Elements.Element.ParentExtent | src/main/kotlin/uiengine/element/AbstractElement.kt:137-150 | the window size for a root or a menu's child, otherwise the parent's size |
| Elements.Element.Placement | src/main/kotlin/uiengine/element/AbstractElement.kt:137-166 | per axis, the origin point lands on the parent's render location (0 without a parent) plus the parent extent scaled by `align` plus the offset; z is kept |
| Elements.Element.UpdateRenderLocation | src/main/kotlin/uiengine/element/AbstractElement.kt:137-152 | the render location becomes the placement |
| Elements.RotationPrologue | src/main/kotlin/uiengine/element/AbstractElement.kt:196-208 | no commands without rotation; otherwise a push and a rotation by the degrees about the origin point |
| Elements.RotationEpilogue | src/main/kotlin/uiengine/element/AbstractElement.kt:209-211 | no pop without rotation, one pop with it |
| Elements.Element.HandleRotation | src/main/kotlin/uiengine/element/AbstractElement.kt:196-212 | before rendering, the prologue is logged and the depth grows by its pushes; after, the epilogue is logged and the depth shrinks by the same count |
| Elements.Element.Prepare | src/main/kotlin/uiengine/element/AbstractElement.kt:120-124 | lays out, logs the rotation prologue, a push and the vertical-offset translation; the depth grows by one more than the rotation's |
| Elements.Element.Finish | src/main/kotlin/uiengine/element/AbstractElement.kt:128-129 | logs a pop and the rotation epilogue; the depth returns by the same amount |
| Elements.Element.TransformAndRender | src/main/kotlin/uiengine/element/AbstractElement.kt:117-130 | disabled: nothing is drawn and nothing moves; enabled: the element moves to its placement, and the draw is the rotation prologue, the offset push, its render, the pop and the rotation epilogue; both stack depths end as they began; the elements visited are its render subtree and no other element moves; with consistent back-references the draw is the element's `RenderTrace` |
| Elements.Element.RenderInside | src/main/kotlin/uiengine/element/AbstractElement.kt:126-129 | `render`, then the pops: the depths return by the prologue's pushes, the element itself does not move, only elements of its walk move, and with consistent back-references the draw is its `KindTrace` |
| Elements.RenderSubtree | src/main/kotlin/uiengine/element/AbstractElement.kt:117-130 | the elements `transformAndRender` reaches from x start with x, and all of them are looked at and rank no higher than x |
| Elements.RenderWalk | src/main/kotlin/uiengine/element/RectangleElement.kt:60 | the walk of a child list contains every child, and all it reaches ranks below the parent |
| Elements.RenderWalkAppend | src/main/kotlin/uiengine/element/RectangleElement.kt:60 | the children rendered in list order: the walk of a list extended by one child is the old walk followed by that child's subtree |
| Elements.Element.Render | src/main/kotlin/uiengine/element/AbstractElement.kt:126 | dispatch on the kind; stack depths are balanced; the children are visited exactly when the kind draws them, and only they move; with consistent back-references the draw is the kind's trace at the element's location |
| Elements.Element.RenderChildren | src/main/kotlin/uiengine/element/RectangleElement.kt:60 | `transformAndRender` on each child in list order: stack depths are balanced, the visit is the children's walk, only elements of that walk move, and with consistent back-references the draw is the children's traces concatenated in list order, each laid out in the parent's extent below the parent's location |
| Elements.Element.RenderChild | src/main/kotlin/uiengine/element/RectangleElement.kt:60 | one child's `transformAndRender`: balanced; the visit is the child's subtree; with consistent back-references the draw is the child's trace laid out in this element |
| Elements.Element.RenderRectangle | src/main/kotlin/uiengine/element/RectangleElement.kt:45-65 | non-positive truncated width or height: no command and no child; otherwise first the box draw (the texture if set, else a fill of the box in the color), then with `mask` a scissor enable at (x1, y1, w, h), the children's log, and the matching disable, and without `mask` the children's log alone; with consistent back-references that log is the children's traces in list order |
| Elements.Element.RenderMasked | src/main/kotlin/uiengine/element/RectangleElement.kt:56-64 | a scissor enable over the box, the children's log, the matching disable; with consistent back-references that log is the children's traces |
| Elements.BoxDraw | src/main/kotlin/uiengine/element/RectangleElement.kt:51-54 | a texture draw exactly when a texture is set, else a fill; either way it starts at (x1, y1) and spans w by h; the fill is in the given color |
| Elements.Element.RenderRoundedRectangle | src/main/kotlin/uiengine/element/BeautifulRectangleElement.kt:44-67 | non-positive width or height: no command and no child; otherwise the rounded box, then the texture if set, then the children's log; with consistent back-references that log is the children's traces in list order |
| Elements.Element.DrawRoundedBox | src/main/kotlin/uiengine/element/BeautifulRectangleElement.kt:52-62 | the rounded-rect commands of the box, followed by the texture draw exactly when a texture is set; stack depths unchanged |
| Elements.Element.RenderText | src/main/kotlin/uiengine/element/TextElement.kt:70-76 | nothing when `size.x` <= 0 or `size.y` <= 0; otherwise one text command at the truncated location in the color, with the shadow flag |
| Elements.Element.RenderMenu | src/main/kotlin/uiengine/element/ContextMenu.kt:54-57 | a window-sized fill in the menu's color, then the children's log; with consistent back-references that log is the children's traces laid out in the window |
| Elements.RenderTrace | src/main/kotlin/uiengine/element/AbstractElement.kt:117-130 | the commands `transformAndRender` gives the context for an element, from the looks alone; balanced on both stacks for any looks |
| Elements.KindTrace | src/main/kotlin/uiengine/element/AbstractElement.kt:126 | `render` by kind, from the looks alone, with the children after the element's own drawing; balanced on both stacks |
| Elements.ChildTraces | src/main/kotlin/uiengine/element/RectangleElement.kt:60 | the siblings' traces in list order; balanced on both stacks |
| Elements.ChildTracesAppend | src/main/kotlin/uiengine/element/RectangleElement.kt:60 | one more sibling appends its trace |
| Elements.ChildSteps | src/main/kotlin/uiengine/element/RectangleElement.kt:60 | each one-longer prefix of a child list extends both the walk and the trace by that child's |
| Elements.Framed | src/main/kotlin/uiengine/element/RectangleElement.kt:51-60 | an element's own balanced drawing followed by its children's balanced traces is balanced |
| Elements.Scissored | src/main/kotlin/uiengine/element/RectangleElement.kt:56-64 | a scissor bracket around balanced children after a balanced drawing is balanced |
| Elements.TransformBalanced | src/main/kotlin/uiengine/element/AbstractElement.kt:117-130 | the pushes of `transformAndRender` before `render` are undone by the pops after it |
| Elements.RoundedRectBalanced | src/main/kotlin/uiengine/element/BeautifulRectangleElement.kt:80-96 | the rounded box touches neither stack |
| Elements.FillCommands | src/main/kotlin/uiengine/element/BeautifulRectangleElement.kt:83-88 | one fill command per rectangle, in order, with its corners |
| Elements.Arc | src/main/kotlin/uiengine/element/BeautifulRectangleElement.kt:108-123 | a corner is 17 segment fills, the i-th being segment i about the given centre, radius and start angle |
| Elements.RoundedRectCommands | src/main/kotlin/uiengine/element/BeautifulRectangleElement.kt:80-96 | the five fills of the adjusted radius, followed by four corner arcs exactly when that radius is positive |
| Elements.Corners | src/main/kotlin/uiengine/element/BeautifulRectangleElement.kt:90-95 | four corner arcs of 17 segments each: corner k starts at 90 k degrees, with the given radius and color |
| Elements.DrawRoundedRect | src/main/kotlin/uiengine/element/BeautifulRectangleElement.kt:80-96 | the log grows by the rounded-rect commands; stack depths unchanged |
| Elements.DrawCorners | src/main/kotlin/uiengine/element/BeautifulRectangleElement.kt:90-95 | the four corners at 0, 90, 180 and 270 degrees, centred one radius in from each corner |
| Elements.DrawCorner | src/main/kotlin/uiengine/element/BeautifulRectangleElement.kt:108-123 | the loop logs the 17 segments in order; stack depths unchanged |
| Manager.Views | src/main/kotlin/uiengine/UIManager.kt:62-74 | one view per element of the set: what an update reads of it (interactable getter, hit test, handlers, children) |
| Manager.ForestClosed | src/main/kotlin/uiengine/UIManager.kt:68-72 | in a finite acyclic forest, every child of a viewed element is viewed and ranks lower |
| Manager.Subtree | src/main/kotlin/uiengine/UIManager.kt:62-74 | the traversal from an element starts at it |
| Manager.Walk | src/main/kotlin/uiengine/UIManager.kt:68-72 | the walk of a child list contains every child |
| Manager.Preorder | src/main/kotlin/uiengine/UIManager.kt:47-51 | the update order contains every root |
| Manager.WalkMember | src/main/kotlin/uiengine/UIManager.kt:69-71 | an element is in the walk of a child list exactly when it is in the subtree of one of its entries |
| Manager.PreorderMember | src/main/kotlin/uiengine/UIManager.kt:48-50 | an element is in the update's order exactly when it is in the subtree of one of the roots |
| Manager.SubtreeClosed | src/main/kotlin/uiengine/UIManager.kt:68-72 | every child of a reached composite is reached, with no `enabled` or `interactable` test |
| Manager.PreorderCoversForest | src/main/kotlin/uiengine/UIManager.kt:47-74 | every root, and every child of every reached composite, is reached by `update` |
| Manager.UpdateCalls | src/main/kotlin/uiengine/UIManager.kt:63-67 | per element of the order: a hover call, then a LEFT click, then a RIGHT click, with the given pressed flags |
| Manager.UpdateCallsAppend | src/main/kotlin/uiengine/UIManager.kt:47-74 | the trace of a concatenated order is the concatenation of the traces |
| Manager.HoverCount | src/main/kotlin/uiengine/UIManager.kt:64 | the number of hover calls in a trace is at most its length |
| Manager.HoverCountAppend | src/main/kotlin/uiengine/UIManager.kt:64 | hover counts add over concatenation |
| Manager.OneHoverPerNode | src/main/kotlin/uiengine/UIManager.kt:47-74 | one update makes exactly one hover call per visited entry, duplicates counted per occurrence |
| Manager.Step | src/main/kotlin/uiengine/element/AbstractElement.kt:235-254 | one call of the trace applied to the latches and the event log; the log only grows |
| Manager.StepLatches | src/main/kotlin/uiengine/element/AbstractElement.kt:235-254 | a hover call sets an interactable element's latch to its hit test; every other latch is kept; only a hover call that changes a latch can report a hover |
| Manager.Replay | src/main/kotlin/uiengine/UIManager.kt:47-74 | a trace replayed call by call; the log only grows |
| Manager.ReplayAppend | src/main/kotlin/uiengine/UIManager.kt:47-74 | replaying two traces in turn is replaying their concatenation |
| Manager.ReplayThree | src/main/kotlin/uiengine/UIManager.kt:63-67 | the three calls on one element are its trace, replayed hover, then left, then right |
| Manager.ReplaySettles | src/main/kotlin/uiengine/UIManager.kt:47-74 | after an update, every interactable element it hovered has its latch equal to its hit test |
| Manager.SettledReplayQuiet | src/main/kotlin/uiengine/UIManager.kt:47-74 | from settled latches, replaying the same trace changes no latch and reports no hover |
| Manager.SecondUpdateQuiet | src/main/kotlin/uiengine/UIManager.kt:47-74 | two updates in a row at the same mouse position: the second reports no hover change and keeps every latch |
| Manager.RenderForest | src/main/kotlin/uiengine/UIManager.kt:82-84 | the render order contains every root and is at least as long as the root list |
| Manager.ForestTrace | src/main/kotlin/uiengine/UIManager.kt:82-84 | the roots' traces in list order, each laid out in the window from (0, 0); balanced on both stacks |
| Manager.ForestStep | src/main/kotlin/uiengine/UIManager.kt:82-84 | a one-longer prefix of the roots extends the render order and the trace by that root's |
| Manager.ParentlessIsRoot | src/main/kotlin/uiengine/UIManager.kt:82-84 | with consistent back-references, the only parentless element a subtree reaches is its root |
| Manager.WalkParented | src/main/kotlin/uiengine/element/RectangleElement.kt:60 | every element reached from siblings that have a parent has a parent |
| Manager.UIManager.constructor | src/main/kotlin/uiengine/UIManager.kt:16 | the root list starts empty |
| Manager.UIManager.AddElement | src/main/kotlin/uiengine/UIManager.kt:24-26 | appends the element, duplicates included |
| Manager.UIManager.RemoveElement | src/main/kotlin/uiengine/UIManager.kt:34-36 | drops the first occurrence; an absent element leaves the list as it is |
| Manager.UIManager.Elements | src/main/kotlin/uiengine/UIManager.kt:91-93 | the root list itself |
| Manager.UIManager.UpdateElement | src/main/kotlin/uiengine/UIManager.kt:62-74 | the calls made are the trace of the element's subtree, and the latches and log are that trace's replay |
| Manager.UIManager.UpdateSelf | src/main/kotlin/uiengine/UIManager.kt:64-66 | the three calls on the element are replayed in order |
| Manager.UIManager.HoverStep | src/main/kotlin/uiengine/UIManager.kt:64 | `handleMouseHover` performs the hover step of the replay |
| Manager.UIManager.ClickStep | src/main/kotlin/uiengine/UIManager.kt:65-66 | `handleMouseClick` performs the click step of the replay |
| Manager.UIManager.UpdateChildren | src/main/kotlin/uiengine/UIManager.kt:68-72 | each child in list order: the calls are the trace of the children's walk, replayed |
| Manager.UIManager.Update | src/main/kotlin/uiengine/UIManager.kt:47-51 | the calls made are the pre-order trace of the root forest, and the latches and handler log end as that trace's replay |
| Manager.UIManager.Render | src/main/kotlin/uiengine/UIManager.kt:82-84 | `transformAndRender` once per root, in list order: both stack depths are balanced, the elements visited are the forest's render order and no other element moves; with consistent back-references and parentless roots the draw is the roots' traces in list order, and every enabled root ends laid out in the window |
| Manager.UIManager.RenderRoot | src/main/kotlin/uiengine/UIManager.kt:83 | one root's `transformAndRender`: balanced, its subtree visited, and with parentless roots its trace drawn and its placement in the window added to the roots placed so far |
| Overlay.Flag | src/main/kotlin/uiengine/stuff/KostilScreen.kt:47-50 | each modifier's flag is a single bit: 0x1, 0x2, 0x4 or 0x8 |
| Overlay.HasFlagIsFlagBit | src/main/kotlin/uiengine/stuff/KostilScreen.kt:47-50 | the bit tested for a modifier is its flag's bit |
| Overlay.DecodeBits | src/main/kotlin/uiengine/stuff/KostilScreen.kt:46-51 | a modifier is in the set exactly when its flag bit is set |
| Overlay.DecodeModifiers | src/main/kotlin/uiengine/stuff/KostilScreen.kt:46-51 | the same on the 32-bit pattern of the Int argument, negative values included |
| Overlay.EncodeBits | src/main/kotlin/uiengine/stuff/KostilScreen.kt:46-51 | the mask of a modifier set is below 16 |
| Overlay.LowFlags | src/main/kotlin/uiengine/stuff/KostilScreen.kt:46-51 | the four flag bits of a value are those of its low four bits |
| Overlay.SmallMask | src/main/kotlin/uiengine/stuff/KostilScreen.kt:46-51 | a value below 16 is the mask of its decoded set |
| Overlay.DecodeEncode | src/main/kotlin/uiengine/stuff/KostilScreen.kt:46-51 | decoding the mask of a set gives the set back |
| Overlay.EncodeDecode | src/main/kotlin/uiengine/stuff/KostilScreen.kt:46-51 | encoding the decoded set gives back the low four bits of the value |
| Overlay.DecodeIgnoresOtherBits | src/main/kotlin/uiengine/stuff/KostilScreen.kt:46-51 | two values that agree on the four flag bits decode alike |
| Overlay.DecodeExtremes | src/main/kotlin/uiengine/stuff/KostilScreen.kt:46-51 | 0 decodes to no modifier; -1 decodes to all four |
| Overlay.Receives | src/main/kotlin/uiengine/stuff/KostilScreen.kt:22 | only an enabled context menu passes the filter; a disabled element never does |
| Overlay.EnabledMenus | src/main/kotlin/uiengine/stuff/KostilScreen.kt:20-25 | the filter keeps at most as many elements as there are roots |
| Overlay.EnabledMenusMembers | src/main/kotlin/uiengine/stuff/KostilScreen.kt:20-25 | an element passes the filter exactly when it is a root that is an enabled context menu |
| Overlay.EnabledMenusAppend | src/main/kotlin/uiengine/stuff/KostilScreen.kt:20-25 | the filter keeps root-list order: it distributes over concatenation |
| Overlay.KeyEvents | src/main/kotlin/uiengine/stuff/KostilScreen.kt:53 | at most one key event per enabled menu |
| Overlay.KeyEventsMembers | src/main/kotlin/uiengine/stuff/KostilScreen.kt:53 | each key event goes to a listed menu with a key handler, with the key code and modifier set unchanged; each such menu gets one |
| Overlay.ScrollEvents | src/main/kotlin/uiengine/stuff/KostilScreen.kt:66 | at most one scroll event per enabled menu |
| Overlay.ScrollEventsMembers | src/main/kotlin/uiengine/stuff/KostilScreen.kt:66 | each scroll event goes to a listed menu with a scroll handler, with the amount unchanged and that menu's first hovered child; each such menu gets one |
| Overlay.DragEvents | src/main/kotlin/uiengine/stuff/KostilScreen.kt:81 | at most one drag event per enabled menu |
| Overlay.DragEventsMembers | src/main/kotlin/uiengine/stuff/KostilScreen.kt:81 | each drag event goes to a listed menu with a drag handler, on the element its drag reaches, with the position and deltas unchanged; each such menu whose drag reaches an element gets one |
| Overlay.ShouldCloseOnEsc | src/main/kotlin/uiengine/stuff/KostilScreen.kt:32-35 | afterwards no root is an enabled context menu; the HUD and chat are restored exactly when some root menu was enabled, and otherwise are unchanged |
| Overlay.OnKeyPressed | src/main/kotlin/uiengine/stuff/KostilScreen.kt:45-55 | the log grows by the key events of the enabled root menus, in root order, with the decoded modifier set |
| Overlay.OnMouseScrolled | src/main/kotlin/uiengine/stuff/KostilScreen.kt:65-68 | the log grows by the scroll events of the enabled root menus, in root order |
| Overlay.ScrollPlans | src/main/kotlin/uiengine/stuff/KostilScreen.kt:65-68 | one plan per root, in root order, holding what its scroll reads: filter test, handler and first hovered child |
| Overlay.PlannedScrolls | src/main/kotlin/uiengine/stuff/KostilScreen.kt:66 | at most one scroll event per plan |
| Overlay.PlannedScrollEvents | src/main/kotlin/uiengine/stuff/KostilScreen.kt:66 | replaying the roots' plans gives the scroll events of the enabled menus |
| Overlay.ScrollAll | src/main/kotlin/uiengine/stuff/KostilScreen.kt:66 | the forwarding loop appends the planned scroll events in root order |
| Overlay.ScrollRoot | src/main/kotlin/uiengine/stuff/KostilScreen.kt:66 | one root's step appends its planned scroll event |
| Overlay.DragPlans | src/main/kotlin/uiengine/stuff/KostilScreen.kt:80-83 | one plan per root, in root order, holding what its drag reads: filter test, handler, lock and the element the drag reaches |
| Overlay.PlannedEvents | src/main/kotlin/uiengine/stuff/KostilScreen.kt:81 | at most one drag event per plan |
| Overlay.PlannedDragEvents | src/main/kotlin/uiengine/stuff/KostilScreen.kt:81 | replaying the roots' plans gives the drag events of the enabled menus |
| Overlay.OnMouseDragged | src/main/kotlin/uiengine/stuff/KostilScreen.kt:80-83 | the log grows by the drag events of the enabled root menus, in root order, without the button; each enabled root menu ends locked on the element its drag reached, and every other root keeps its lock |
| Overlay.DragAll | src/main/kotlin/uiengine/stuff/KostilScreen.kt:81 | the forwarding loop appends the planned drag events in root order and leaves each root locked as planned |
| Overlay.DragRoot | src/main/kotlin/uiengine/stuff/KostilScreen.kt:81 | one root menu's step appends its planned drag event and takes its planned lock |

## Left out

- **Minecraft host calls.** These are reduced to the `Host` and
  `DrawContext` classes:
  - drawing, matrix maths and `RotationAxis`;
  - `MinecraftClient.execute` and `setScreen`;
  - the chat option object and the text renderer.
  A draw call is logged with its arguments. The rotation is logged as its
  degrees, not as a quaternion.
- **The task posted by `show`.** It is recorded as a `HostTask`. When it runs
  (opening the overlay screen and hiding the chat) is not modelled.
- **`isInteractionAllowed`.** The test of the current screen's type is the
  host's `interactionAllowed` flag.
- **Text measurement.** The text renderer's width is the host's `textWidth`
  function.
- **Handler closures.** Each invocation is recorded in the host's event log,
  with the context the handler receives. Arbitrary handler code, which could
  mutate the tree during a traversal, is not modelled. The handler setters
  (`onHover`, `onClick`, `onKeyPressed`, `onScroll`, `onDrag`) are the
  `has*Handler` fields.
- **The corner arcs of `drawCorner`.** Their coordinates come from cos/sin
  of doubles, so each of the 17 fills per corner is a `CornerSegment`
  command that carries its centre, radius, start angle and segment index,
  not computed coordinates.
- **Floating point.** Coordinates are `real`: no NaN, no infinities and no
  IEEE rounding. The rotation is a `real`, not a `Float`.
- **Integer overflow in drawing.** The sums of 32-bit coordinates in the fill
  arguments (for example `x1 + width`) are unbounded integers, so 32-bit
  wrap-around of those sums is not modelled.
- Colors.Argb: defined only for channels in 0..255, the domain the `Color`
  class documents for red, green and blue. `java.awt.Color` throws outside
  that range, and the exception is not modelled. The render methods require
  every element's color to be in range, including elements whose color
  Kotlin never packs (a textured rectangle, a disabled element, a box or
  text of non-positive size), so out-of-range colors on those are outside
  the model.
- **Shared mutable values.** An element's `color` is kept as a value of its
  four channels. In Kotlin the default `BLACK` is a shared mutable object,
  so writing through one element's color would change the others; that
  aliasing is not modelled. `V2`, `V3` and `Rotation` are mutable classes in
  Kotlin; here they are values, so their aliasing is not modelled either.
- **Screen super-methods and unused arguments.** The `Boolean` results of
  the overlay's input methods come from the Minecraft `Screen`
  super-methods and are not modelled. The `scanCode` argument is not
  modelled. The drag `button` is accepted and ignored, as in the source.
- **`tickDelta`.** It is only passed along, so it is not modelled.
- **Render traces without consistent back-references.** An element is laid
  out against its `lastParent`, while it is drawn from the child list that
  holds it. The two agree when every child's `lastParent` is the composite
  whose list holds it, as `addChild` leaves it. The exact command trace
  (`RenderTrace`, `ForestTrace`) and the root locations are stated only
  under that condition (`Linked`) and, for `UIManager.render`, with
  parentless roots. Otherwise the render contracts state the balanced
  stacks, the visit order and which elements may move, but not the
  commands.
- Elements.Element.RenderRectangle: states the fill of a texture-less box
  through `BoxDraw`'s contract rather than as a separate clause.
- **Cyclic parent graphs.** Kotlin allows them, and they would make the
  update and render recursion diverge. The traversals require a finite
  acyclic forest: each child ranks below its parent.
- Manager.UIManager.Update: specified against the views read before the
  update (interactable getter, hit test, handlers, children). The update
  never writes any of them, so this is no restriction on what the update
  does itself.
- Manager.UIManager.Elements: returns the root list as a value. Kotlin hands
  out the live mutable list, and mutation through that alias is not
  modelled.
- **Files that are not part of this model:**
  - `UIEngine.kt`: callback registration and mouse scaling.
  - `InGameHudMixin.kt`: a host hook that reads the HUD-hide flag.
  - `ClientApi.kt`: a singleton wrapper.
  - `UI.kt`: builder helpers.
  - The data-only files `Math.kt`, `IElement.kt`, `MouseHandlers.kt`,
    `Modifiers.kt` and `ScrollHandler.kt` appear only as Dafny datatypes
    and fields.
- Lists.RemoveAll: does not state as an ensures clause that the survivors
  keep their order. `Lists.RemoveAllAppend` proves it as a separate lemma.
