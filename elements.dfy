/**
 * The element tree: the common element state and behaviour (AbstractElement.kt),
 * the child list of composites (Parent.kt), and the four concrete kinds --
 * rectangle (RectangleElement.kt), rounded rectangle
 * (BeautifulRectangleElement.kt), text (TextElement.kt) and context menu
 * (ContextMenu.kt).
 *
 * The Kotlin subclasses become one class with a `kind` tag; the fields of
 * every kind live on it and each kind's operations require that kind.
 * Handlers are not run: the host records each invocation, with its
 * arguments, as an `Event`.
 */
module Elements {
  import opened Options
  import opened Geometry
  import opened Colors
  import opened Drawing
  import opened Input
  import opened Lists
  import opened RoundedRect

  datatype Kind = Rectangle | RoundedRectangle | Text | Menu

  /** Rectangles, rounded rectangles and context menus implement `Parent`. */
  predicate IsParent(k: Kind) {
    k != Text
  }

  /** The client's chat visibility option. */
  datatype ChatVisibility = ChatFull | ChatSystem | ChatHidden

  /**
   * Work posted to the client thread with `execute`: `show` posts one that
   * opens the overlay screen and sets the chat to hidden when it runs.
   */
  datatype HostTask = OpenOverlayAndHideChat

  /** One handler invocation, with the context object it receives. */
  datatype Event =
    | Hovered(element: Element, hovered: bool)
    | Clicked(element: Element, button: MouseButton, pressed: bool)
    | KeyPressed(menu: Element, keyCode: int, modifiers: set<Modifier>)
    | Scrolled(menu: Element, hoveredElement: Element?, amount: real)
    | Dragged(menu: Element, dragged: Element, mouseX: real, mouseY: real, dx: real, dy: real)

  /**
   * What the engine sees of its host: whether the current screen allows
   * interaction, the global HUD-hide flag, the chat option, the tasks posted
   * to the client thread, the handler invocations, and the text renderer's
   * width measure.
   */
  class Host {
    var interactionAllowed: bool
    var hudHidden: bool
    var chat: ChatVisibility
    var tasks: seq<HostTask>
    var events: seq<Event>
    const textWidth: string -> int

    constructor (interactionAllowed: bool, textWidth: string -> int)
      ensures this.interactionAllowed == interactionAllowed && this.textWidth == textWidth
      ensures !hudHidden && chat == ChatFull && tasks == [] && events == []
    {
      this.interactionAllowed, this.textWidth := interactionAllowed, textWidth;
      hudHidden, chat, tasks, events := false, ChatFull, [], [];
    }
  }

  /* ---------------- enabled / interactable ---------------- */

  /** The three fields behind `enabled` and `interactable` of an element that is not a menu. */
  datatype Switches = Switches(enabled: bool, interactable: bool, wasInteractable: bool)

  /** The `interactable` setter: stores the flag and, while disabled, its saved copy too. */
  function AfterSetInteractable(s: Switches, value: bool): (t: Switches)
    ensures t.enabled == s.enabled && t.interactable == value
    ensures !s.enabled ==> t.wasInteractable == value
    ensures s.enabled ==> t.wasInteractable == s.wasInteractable
  {
    Switches(s.enabled, value, if !s.enabled then value else s.wasInteractable)
  }

  /**
   * The `enabled` setter. Disabling saves the getter's value and then writes
   * `false` through the `interactable` setter, which -- the element being
   * disabled by then -- overwrites the saved copy; enabling writes the saved
   * copy back through that setter.
   */
  function AfterSetEnabled(s: Switches, value: bool, allowed: bool): (t: Switches)
    ensures t.enabled == value
    ensures !value ==> !t.interactable && !t.wasInteractable
    ensures value ==> t.interactable == s.wasInteractable && t.wasInteractable == s.wasInteractable
  {
    if !value then
      AfterSetInteractable(Switches(false, s.interactable, s.interactable && allowed), false)
    else
      AfterSetInteractable(Switches(true, s.interactable, s.wasInteractable), s.wasInteractable)
  }

  /** While disabled, the flag and its saved copy agree. */
  predicate Coherent(s: Switches) {
    !s.enabled ==> s.interactable == s.wasInteractable
  }

  /** A write through one of the two setters; `allowed` is the host's answer at that moment. */
  datatype SwitchWrite = WriteEnabled(value: bool, allowed: bool) | WriteInteractable(value: bool)

  function ApplyWrites(s: Switches, writes: seq<SwitchWrite>): Switches
    decreases |writes|
  {
    if writes == [] then s
    else
      var next := match writes[0]
        case WriteEnabled(v, a) => AfterSetEnabled(s, v, a)
        case WriteInteractable(v) => AfterSetInteractable(s, v);
      ApplyWrites(next, writes[1..])
  }

  /** Every sequence of writes keeps a coherent state coherent (a new element is enabled, so coherent). */
  lemma {:induction false} WritesKeepCoherent(s: Switches, writes: seq<SwitchWrite>)
    requires Coherent(s)
    ensures Coherent(ApplyWrites(s, writes))
    decreases |writes|
  {
    if writes != [] {
      var next := match writes[0]
        case WriteEnabled(v, a) => AfterSetEnabled(s, v, a)
        case WriteInteractable(v) => AfterSetInteractable(s, v);
      assert Coherent(next);
      WritesKeepCoherent(next, writes[1..]);
    }
  }

  /** Disabling and re-enabling, with no write in between, leaves the element non-interactable. */
  lemma DisableEnableLosesInteractable(s: Switches, allowed: bool, allowed': bool)
    ensures !AfterSetEnabled(AfterSetEnabled(s, false, allowed), true, allowed').interactable
  {
  }

  /** A value written while disabled is the one enabling brings back. */
  lemma WriteWhileDisabledRestored(s: Switches, v: bool, allowed: bool, allowed': bool)
    ensures AfterSetEnabled(AfterSetInteractable(AfterSetEnabled(s, false, allowed), v), true, allowed').interactable == v
  {
  }

  /* ---------------- the element ---------------- */

  class Element {
    const kind: Kind
    /** Strictly above the rank of every child; fixes the tree as finite and acyclic. */
    ghost const rank: nat

    var enabled: bool
    /** The backing field of `interactable`; the getter also asks the host. */
    var interactable: bool
    var wasInteractable: bool
    var lastParent: Element?
    var renderLocation: V3
    var size: V3
    /** The channels of `color`; the element only ever reads them. */
    var color: Rgba
    var align: V2
    var origin: V2
    var offset: V3
    /** `rotation.degrees`. */
    var rotation: real
    var hasClickHandler: bool
    var hasHoverHandler: bool
    /** The hover latch. */
    var wasHovered: bool
    /** `children` of a composite; a text element never has any. */
    var children: seq<Element>

    // rectangle and rounded rectangle
    var texture: Option<TextureId>
    var regionSize: V3
    var textureSize: V3
    var mask: bool
    var cornerRadius: int

    // text
    var content: string
    var shadow: bool
    var autoFit: bool

    // context menu
    var hasKeyHandler: bool
    var hasScrollHandler: bool
    var hasDragHandler: bool
    var draggingElement: Element?

    /** A new element of the given kind with the defaults of its Kotlin class. */
    constructor (kind: Kind, ghost rank: nat)
      ensures this.kind == kind && this.rank == rank
      // a new context menu is hidden and not interactable; any other element is both
      ensures kind == Menu ==> !enabled && !interactable
      ensures kind != Menu ==> enabled && interactable
      ensures wasInteractable && !wasHovered && lastParent == null && children == []
      ensures renderLocation == Zero3 && size == Zero3 && offset == Zero3 && align == TopLeft && origin == TopLeft
      ensures rotation == 0.0 && !hasClickHandler && !hasHoverHandler
      ensures color == if kind == Menu then Rgba(0, 0, 0, 0.8) else Black
      ensures texture == None && regionSize == V3(256.0, 256.0, 0.0) && textureSize == V3(256.0, 256.0, 0.0)
      ensures !mask && cornerRadius == 8
      ensures content == "" && !shadow && !autoFit
      ensures !hasKeyHandler && !hasScrollHandler && !hasDragHandler && draggingElement == null
    {
      this.kind, this.rank := kind, rank;
      enabled, interactable := kind != Menu, kind != Menu;
      wasInteractable, wasHovered, lastParent, children := true, false, null, [];
      renderLocation, size, offset, align, origin := Zero3, Zero3, Zero3, TopLeft, TopLeft;
      rotation, hasClickHandler, hasHoverHandler := 0.0, false, false;
      color := if kind == Menu then Rgba(0, 0, 0, 0.8) else Black;
      texture, regionSize, textureSize := None, V3(256.0, 256.0, 0.0), V3(256.0, 256.0, 0.0);
      mask, cornerRadius := false, 8;
      content, shadow, autoFit := "", false, false;
      hasKeyHandler, hasScrollHandler, hasDragHandler, draggingElement := false, false, false, null;
    }

    function Switched(): Switches
      reads this`enabled, this`interactable, this`wasInteractable
    {
      Switches(enabled, interactable, wasInteractable)
    }

    /**
     * The `interactable` getter: the stored flag, and for an element that is
     * not a menu also the host's permission (a menu's override is a plain field).
     */
    function IsInteractable(host: Host): (b: bool)
      reads this`interactable, host`interactionAllowed
      ensures b ==> interactable
      ensures kind == Menu ==> b == interactable
      ensures kind != Menu ==> (b <==> interactable && host.interactionAllowed)
    {
      if kind == Menu then interactable else interactable && host.interactionAllowed
    }

    /** The `enabled` setter; a menu's `enabled` is a plain field. */
    method SetEnabled(value: bool, host: Host)
      modifies this`enabled, this`interactable, this`wasInteractable
      ensures kind != Menu ==> Switched() == AfterSetEnabled(old(Switched()), value, host.interactionAllowed)
      ensures kind == Menu ==> enabled == value && interactable == old(interactable) && wasInteractable == old(wasInteractable)
    {
      enabled := value;
      if kind != Menu {
        if !value {
          wasInteractable := IsInteractable(host);
          SetInteractable(false);
        } else {
          SetInteractable(wasInteractable);
        }
      }
    }

    /** The `interactable` setter; a menu's `interactable` is a plain field. */
    method SetInteractable(value: bool)
      modifies this`interactable, this`wasInteractable
      ensures kind != Menu ==> Switched() == AfterSetInteractable(old(Switched()), value)
      ensures kind == Menu ==> interactable == value && wasInteractable == old(wasInteractable)
    {
      interactable := value;
      if kind != Menu && !enabled {
        wasInteractable := value;
      }
    }

    /** `isHovered`: the closed box at render location plus offset, of the element's size. */
    predicate IsHovered(mouseX: real, mouseY: real)
      reads this`renderLocation, this`offset, this`size
      ensures IsHovered(mouseX, mouseY) ==> 0.0 <= size.x && 0.0 <= size.y
      ensures IsHovered(mouseX, mouseY) ==>
                renderLocation.x + offset.x <= mouseX && renderLocation.y + offset.y <= mouseY
      ensures mouseX == renderLocation.x + offset.x && mouseY == renderLocation.y + offset.y ==>
                (IsHovered(mouseX, mouseY) <==> 0.0 <= size.x && 0.0 <= size.y)
    {
      InsideBox(renderLocation, offset, size, mouseX, mouseY)
    }

    /**
     * `handleMouseHover`: nothing unless interactable; otherwise a change of
     * the hover state is reported once and latched.
     */
    method HandleMouseHover(mouseX: real, mouseY: real, host: Host)
      modifies this`wasHovered, host`events
      ensures !IsInteractable(host) ==> wasHovered == old(wasHovered)
      ensures IsInteractable(host) ==> wasHovered == IsHovered(mouseX, mouseY)
      ensures host.events == old(host.events) +
                if IsInteractable(host) && IsHovered(mouseX, mouseY) != old(wasHovered) && hasHoverHandler
                then [Hovered(this, IsHovered(mouseX, mouseY))] else []
    {
      if !IsInteractable(host) {
        return;
      }
      var hovered := IsHovered(mouseX, mouseY);
      if hovered != wasHovered {
        if hasHoverHandler {
          host.events := host.events + [Hovered(this, hovered)];
        }
        wasHovered := hovered;
      }
    }

    /** `handleMouseClick`: reported only when interactable and latched as hovered; the latch is kept. */
    method HandleMouseClick(button: MouseButton, pressed: bool, host: Host)
      modifies host`events
      ensures host.events == old(host.events) +
                if IsInteractable(host) && wasHovered && hasClickHandler then [Clicked(this, button, pressed)] else []
    {
      if IsInteractable(host) && wasHovered && hasClickHandler {
        host.events := host.events + [Clicked(this, button, pressed)];
      }
    }

    /* ---------------- Parent ---------------- */

    /** `addChild(element)`: appends, duplicates included, and points the element back here. */
    method AddChild(e: Element)
      requires IsParent(kind)
      modifies this`children, e`lastParent
      ensures children == old(children) + [e]
      ensures e.lastParent == this
    {
      children := children + [e];
      e.lastParent := this;
    }

    /** `removeChild(element)`: drops the first occurrence; the back-reference is cleared even if absent. */
    method RemoveChild(e: Element)
      requires IsParent(kind)
      modifies this`children, e`lastParent
      ensures children == RemoveFirst(old(children), e)
      ensures e.lastParent == null
    {
      children := RemoveFirst(children, e);
      e.lastParent := null;
    }

    /** Vararg `addChild`: appends all, in the given order, and points each back here. */
    method AddChildren(es: seq<Element>)
      requires IsParent(kind)
      modifies this`children, es`lastParent
      ensures children == old(children) + es
      ensures forall i :: 0 <= i < |es| ==> es[i].lastParent == this
    {
      children := children + es;
      for i := 0 to |es|
        invariant children == old(children) + es
        invariant forall j :: 0 <= j < i ==> es[j].lastParent == this
      {
        es[i].lastParent := this;
      }
    }

    /** Vararg `removeChild`: drops every occurrence of every argument and clears each back-reference. */
    method RemoveChildren(es: seq<Element>)
      requires IsParent(kind)
      modifies this`children, es`lastParent
      ensures children == RemoveAll(old(children), set i | 0 <= i < |es| :: es[i])
      ensures forall i :: 0 <= i < |es| ==> es[i].lastParent == null
    {
      var removed := set i | 0 <= i < |es| :: es[i];
      children := RemoveAll(children, removed);
      for i := 0 to |es|
        invariant children == RemoveAll(old(children), removed)
        invariant forall j :: 0 <= j < i ==> es[j].lastParent == null
      {
        es[i].lastParent := null;
      }
    }

    /** `+element` inside the composite's builder: `addChild`, returning the element. */
    method UnaryPlus(e: Element) returns (r: Element)
      requires IsParent(kind)
      modifies this`children, e`lastParent
      ensures r == e
      ensures children == old(children) + [e] && e.lastParent == this
    {
      AddChild(e);
      r := e;
    }

    /** `composite + element`: `addChild`, returning the element. */
    method Plus(e: Element) returns (r: Element)
      requires IsParent(kind)
      modifies this`children, e`lastParent
      ensures r == e
      ensures children == old(children) + [e] && e.lastParent == this
    {
      AddChild(e);
      r := e;
    }

    /* ---------------- text ---------------- */

    /** The width `autoFit` adopts: the parent's, or the current one without a parent. */
    function ParentWidth(): (w: real)
      reads this`lastParent, this`size, lastParent
      ensures lastParent != null ==> w == lastParent.size.x
      ensures lastParent == null ==> w == size.x
    {
      if lastParent != null then lastParent.size.x else size.x
    }

    /** `updateSize`: only the width is recomputed. */
    method UpdateSize(host: Host)
      requires kind == Text
      modifies this`size
      ensures size.y == old(size.y) && size.z == old(size.z)
      ensures autoFit ==> size.x == old(ParentWidth())
      ensures !autoFit ==> size.x == host.textWidth(content) as real
    {
      if autoFit {
        size := V3(ParentWidth(), size.y, size.z);
      } else {
        size := V3(host.textWidth(content) as real, size.y, size.z);
      }
    }

    /** The `content` setter: stores the text and recomputes the width. */
    method SetContent(value: string, host: Host)
      requires kind == Text
      modifies this`content, this`size
      ensures content == value
      ensures size.y == old(size.y) && size.z == old(size.z)
      ensures autoFit ==> size.x == old(ParentWidth())
      ensures !autoFit ==> size.x == host.textWidth(value) as real
    {
      content := value;
      UpdateSize(host);
    }

    /** The `autoFit` setter: switching it on recomputes the width, switching it off keeps the size. */
    method SetAutoFit(value: bool, host: Host)
      requires kind == Text
      modifies this`autoFit, this`size
      ensures autoFit == value
      ensures !value ==> size == old(size)
      ensures value ==> size == V3(old(ParentWidth()), old(size.y), old(size.z))
    {
      autoFit := value;
      if value {
        UpdateSize(host);
      }
    }

    /* ---------------- context menu ---------------- */

    /** `show`: enabled, HUD hidden, and the overlay screen posted to the client thread. */
    method Show(host: Host)
      requires kind == Menu
      modifies this`enabled, host`tasks, host`hudHidden
      ensures enabled && host.hudHidden
      ensures host.tasks == old(host.tasks) + [OpenOverlayAndHideChat]
    {
      enabled := true;
      host.tasks := host.tasks + [OpenOverlayAndHideChat];
      host.hudHidden := true;
    }

    /** `hide`: disabled, HUD shown, chat fully visible; calling it again changes nothing. */
    method Hide(host: Host)
      requires kind == Menu
      modifies this`enabled, host`chat, host`hudHidden
      ensures !enabled && !host.hudHidden && host.chat == ChatFull
    {
      enabled := false;
      host.chat := ChatFull;
      host.hudHidden := false;
    }

    /** `handleKeyPressed`: the key handler, if set, gets exactly the key code and modifiers. */
    method HandleKeyPressed(keyCode: int, modifiers: set<Modifier>, host: Host)
      requires kind == Menu
      modifies host`events
      ensures host.events == old(host.events) + if hasKeyHandler then [KeyPressed(this, keyCode, modifiers)] else []
    {
      if hasKeyHandler {
        host.events := host.events + [KeyPressed(this, keyCode, modifiers)];
      }
    }

    /** `handleScroll`: the scroll handler, if set, gets the first hovered child (or none) and the amount. */
    method HandleScroll(mouseX: real, mouseY: real, amount: real, host: Host)
      requires kind == Menu
      modifies host`events
      ensures host.events == old(host.events) +
                if hasScrollHandler then [Scrolled(this, FirstHovered(children, mouseX, mouseY), amount)] else []
    {
      var hoveredElement := FirstHovered(children, mouseX, mouseY);
      if hasScrollHandler {
        host.events := host.events + [Scrolled(this, hoveredElement, amount)];
      }
    }

    /** The element a drag at (mouseX, mouseY) reaches: the locked one, else the first hovered child. */
    function DragTarget(mouseX: real, mouseY: real): (t: Element?)
      reads this`draggingElement, this`children, children`renderLocation, children`offset, children`size
      ensures draggingElement != null ==> t == draggingElement
      ensures draggingElement == null && t != null ==> t in children && t.IsHovered(mouseX, mouseY)
      ensures draggingElement == null && t == null ==> forall i :: 0 <= i < |children| ==> !children[i].IsHovered(mouseX, mouseY)
    {
      if draggingElement != null then draggingElement else FirstHovered(children, mouseX, mouseY)
    }

    /**
     * `handleDrag`: locks onto the first hovered child when nothing is locked
     * yet -- a lock, once taken, is kept -- and reports the drag on the locked
     * element.
     */
    method HandleDrag(mouseX: real, mouseY: real, dx: real, dy: real, host: Host)
      requires kind == Menu
      modifies this`draggingElement, host`events
      ensures old(draggingElement) != null ==> draggingElement == old(draggingElement)
      ensures old(draggingElement) == null ==> draggingElement == old(FirstHovered(children, mouseX, mouseY))
      ensures draggingElement != null && hasDragHandler ==>
                host.events == old(host.events) + [Dragged(this, draggingElement, mouseX, mouseY, dx, dy)]
      ensures draggingElement == null || !hasDragHandler ==> host.events == old(host.events)
    {
      var target := draggingElement;
      if target == null {
        target := FirstHovered(children, mouseX, mouseY);
        draggingElement := target;
      }
      if target != null && hasDragHandler {
        host.events := host.events + [Dragged(this, target, mouseX, mouseY, dx, dy)];
      }
    }

    /* ---------------- layout and rendering ---------------- */

    /** The extent the element is laid out in: the window for a root or a menu's child, else the parent's size. */
    function ParentExtent(windowWidth: int, windowHeight: int): (p: V3)
      reads this`lastParent, lastParent
      ensures lastParent == null || lastParent.kind == Menu ==> p == V3(windowWidth as real, windowHeight as real, 1.0)
      ensures lastParent != null && lastParent.kind != Menu ==> p == lastParent.size
    {
      if lastParent != null && lastParent.kind != Menu then lastParent.size
      else V3(windowWidth as real, windowHeight as real, 1.0)
    }

    /** The location layout adds to the alignment point: the parent's render location, or (0, 0) for a root. */
    function ParentBase(): V2
      reads this`lastParent, lastParent
    {
      if lastParent == null then V2(0.0, 0.0) else At(lastParent.renderLocation)
    }

    /**
     * `updateRenderLocation`: per axis, the element's origin point lands on
     * the parent's alignment point (the parent's render location, or 0 for a
     * root, plus the extent scaled by `align`) shifted by `offset`; z is kept.
     */
    function Placement(windowWidth: int, windowHeight: int): (r: V3)
      reads this, lastParent
      ensures r.z == renderLocation.z
      ensures r.x + size.x * origin.x
              == (if lastParent == null then 0.0 else lastParent.renderLocation.x)
                 + ParentExtent(windowWidth, windowHeight).x * align.x + offset.x
      ensures r.y + size.y * origin.y
              == (if lastParent == null then 0.0 else lastParent.renderLocation.y)
                 + ParentExtent(windowWidth, windowHeight).y * align.y + offset.y
    {
      RenderLocation(ParentExtent(windowWidth, windowHeight),
                     if lastParent == null then None else Some(lastParent.renderLocation),
                     size, align, origin, offset, renderLocation)
    }

    /**
     * `transformAndRender`: nothing when disabled; otherwise lays the element
     * out, rotates, pushes a vertical offset, renders and pops back, leaving
     * both stacks as it found them. `drawn` is what it appends to the log;
     * `looks` is what rendering reads of every element.
     */
    method TransformAndRender(ctx: DrawContext, ghost all: set<Element>, ghost looks: map<Element, Look>)
      returns (ghost visited: seq<Element>, ghost drawn: seq<Command>, ghost inner: seq<Command>)
      requires this in all && looks == Looks(all) && Drawable(looks)
      modifies (set x | x in all && x.rank <= rank)`renderLocation, ctx
      decreases rank, 6
      ensures ctx.depth == old(ctx.depth) && ctx.scissorDepth == old(ctx.scissorDepth)
      ensures ctx.log == old(ctx.log) + drawn
      ensures visited == RenderSubtree(looks, this)
      ensures !enabled ==> drawn == [] && renderLocation == old(renderLocation)
      ensures enabled ==> renderLocation == old(Placement(ctx.windowWidth, ctx.windowHeight))
      ensures enabled ==> At(renderLocation) == Spot(looks[this], old(ParentExtent(ctx.windowWidth, ctx.windowHeight)), old(ParentBase()))
      ensures enabled ==> drawn == RotationPrologue(At(renderLocation), size, origin, rotation) + [PushMatrix] + [Translate(0.0, offset.y, 0.0)]
                                   + inner + [PopMatrix] + RotationEpilogue(rotation)
      // only the elements it reaches move
      ensures forall x :: x in all && x !in visited ==> x.renderLocation == old(x.renderLocation)
      // with consistent parent back-references, the trace the looks determine
      ensures Linked(looks) ==>
                drawn == RenderTrace(looks, this, ctx.windowWidth, ctx.windowHeight,
                                     old(ParentExtent(ctx.windowWidth, ctx.windowHeight)), old(ParentBase()))
    {
      if !enabled {
        return [this], [], [];
      }
      ghost var start := ctx.log;
      Prepare(ctx);
      ghost var pre := RotationPrologue(At(renderLocation), size, origin, rotation) + [PushMatrix] + [Translate(0.0, offset.y, 0.0)];
      assert At(renderLocation) == Spot(looks[this], old(ParentExtent(ctx.windowWidth, ctx.windowHeight)), old(ParentBase()));
      ghost var below;
      below, inner := RenderInside(ctx, all, looks);
      visited := [this] + below;
      drawn := pre + inner + [PopMatrix] + RotationEpilogue(rotation);
      BracketLog(start, pre, inner, [PopMatrix], RotationEpilogue(rotation));
    }

    /** The part of `transformAndRender` before `render`: lay out, rotate, push the vertical offset. */
    method Prepare(ctx: DrawContext)
      modifies this`renderLocation, ctx
      ensures renderLocation == old(Placement(ctx.windowWidth, ctx.windowHeight))
      ensures ctx.scissorDepth == old(ctx.scissorDepth)
      ensures ctx.depth == old(ctx.depth) + |RotationEpilogue(rotation)| + 1
      ensures ctx.log == old(ctx.log) + (RotationPrologue(At(renderLocation), size, origin, rotation)
                                         + [PushMatrix] + [Translate(0.0, offset.y, 0.0)])
    {
      UpdateRenderLocation(ctx);
      HandleRotation(ctx, true);
      ctx.Push();
      ctx.Draw(Translate(0.0, offset.y, 0.0));
      AppendAssoc(old(ctx.log), RotationPrologue(At(renderLocation), size, origin, rotation), [PushMatrix]);
      AppendAssoc(old(ctx.log), RotationPrologue(At(renderLocation), size, origin, rotation) + [PushMatrix], [Translate(0.0, offset.y, 0.0)]);
    }

    /** The part of `transformAndRender` from `render` on: render, then pop the offset and the rotation. */
    method RenderInside(ctx: DrawContext, ghost all: set<Element>, ghost looks: map<Element, Look>)
      returns (ghost visited: seq<Element>, ghost drawn: seq<Command>)
      requires this in all && looks == Looks(all) && Drawable(looks)
      requires ctx.depth >= |RotationEpilogue(rotation)| + 1
      modifies (set x | x in all && x.rank < rank)`renderLocation, ctx
      decreases rank, 5
      ensures ctx.scissorDepth == old(ctx.scissorDepth)
      ensures ctx.depth == old(ctx.depth) - |RotationEpilogue(rotation)| - 1
      ensures ctx.log == old(ctx.log) + drawn + ([PopMatrix] + RotationEpilogue(rotation))
      ensures renderLocation == old(renderLocation)
      ensures visited == if DrawsChildren(kind, size) then RenderWalk(looks, children, rank) else []
      ensures forall x :: x in all && x !in visited ==> x.renderLocation == old(x.renderLocation)
      ensures Linked(looks) ==> drawn == KindTrace(looks, this, ctx.windowWidth, ctx.windowHeight, old(At(renderLocation)))
    {
      visited, drawn := Render(ctx, all, looks);
      assert this !in (set x | x in all && x.rank < rank);
      Finish(ctx);
    }

    /** The part of `transformAndRender` after `render`: pop the offset, then the rotation. */
    method Finish(ctx: DrawContext)
      requires ctx.depth >= |RotationEpilogue(rotation)| + 1
      modifies ctx
      ensures ctx.scissorDepth == old(ctx.scissorDepth)
      ensures ctx.depth == old(ctx.depth) - |RotationEpilogue(rotation)| - 1
      ensures ctx.log == old(ctx.log) + ([PopMatrix] + RotationEpilogue(rotation))
    {
      ctx.Pop();
      HandleRotation(ctx, false);
    }

    /** `updateRenderLocation`. */
    method UpdateRenderLocation(ctx: DrawContext)
      modifies this`renderLocation
      ensures renderLocation == old(Placement(ctx.windowWidth, ctx.windowHeight))
    {
      renderLocation := Placement(ctx.windowWidth, ctx.windowHeight);
    }

    /** `handleRotation`: the rotation pushes before rendering, the matching pop after. */
    method HandleRotation(ctx: DrawContext, preRender: bool)
      requires !preRender && rotation != 0.0 ==> ctx.depth > 0
      modifies ctx
      ensures ctx.scissorDepth == old(ctx.scissorDepth)
      ensures preRender ==> ctx.depth == old(ctx.depth) + |RotationEpilogue(rotation)| && ctx.log == old(ctx.log) + RotationPrologue(At(renderLocation), size, origin, rotation)
      ensures !preRender ==> ctx.depth == old(ctx.depth) - |RotationEpilogue(rotation)| && ctx.log == old(ctx.log) + RotationEpilogue(rotation)
    {
      if rotation == 0.0 {
        assert ctx.log == old(ctx.log) + [];
        return;
      }
      if preRender {
        var rx := renderLocation.x + size.x * origin.x;
        var ry := renderLocation.y + size.y * origin.y;
        assert RotationPrologue(At(renderLocation), size, origin, rotation) == [PushMatrix, Translate(rx, ry, 0.0), RotateZ(rotation), Translate(-rx, -ry, 0.0)];
        ctx.Push();
        ctx.Draw(Translate(rx, ry, 0.0));
        ctx.Draw(RotateZ(rotation));
        ctx.Draw(Translate(-rx, -ry, 0.0));
        assert ctx.log == old(ctx.log) + [PushMatrix, Translate(rx, ry, 0.0), RotateZ(rotation), Translate(-rx, -ry, 0.0)];
      } else {
        ctx.Pop();
      }
    }

    /** One step of `renderChildren`: `transformAndRender` on a child laid out in this element. */
    method RenderChild(c: Element, ctx: DrawContext, ghost all: set<Element>, ghost looks: map<Element, Look>)
      returns (ghost visited: seq<Element>, ghost drawn: seq<Command>)
      requires this in all && c in all && c.rank < rank && looks == Looks(all) && Drawable(looks)
      modifies (set x | x in all && x.rank < rank)`renderLocation, ctx
      decreases rank, 0
      ensures ctx.depth == old(ctx.depth) && ctx.scissorDepth == old(ctx.scissorDepth)
      ensures ctx.log == old(ctx.log) + drawn
      ensures Looks(all) == looks
      ensures visited == RenderSubtree(looks, c)
      ensures forall x :: x in all && x !in visited ==> x.renderLocation == old(x.renderLocation)
      ensures Linked(looks) && c in looks[this].children ==>
                drawn == RenderTrace(looks, c, ctx.windowWidth, ctx.windowHeight,
                                     ChildExtent(kind, size, ctx.windowWidth, ctx.windowHeight), old(At(renderLocation)))
    {
      if Linked(looks) && c in looks[this].children {
        assert looks[c].parent == this;
      }
      ghost var inner;
      visited, drawn, inner := c.TransformAndRender(ctx, all, looks);
    }

    /** `render`, dispatched on the kind. */
    method Render(ctx: DrawContext, ghost all: set<Element>, ghost looks: map<Element, Look>)
      returns (ghost visited: seq<Element>, ghost drawn: seq<Command>)
      requires this in all && looks == Looks(all) && Drawable(looks)
      modifies (set x | x in all && x.rank < rank)`renderLocation, ctx
      decreases rank, 4
      ensures ctx.depth == old(ctx.depth) && ctx.scissorDepth == old(ctx.scissorDepth)
      ensures ctx.log == old(ctx.log) + drawn
      ensures visited == if DrawsChildren(kind, size) then RenderWalk(looks, children, rank) else []
      ensures forall x :: x in all && x !in visited ==> x.renderLocation == old(x.renderLocation)
      ensures Linked(looks) ==> drawn == KindTrace(looks, this, ctx.windowWidth, ctx.windowHeight, old(At(renderLocation)))
    {
      match kind
      case Rectangle =>
        var v, d, _ := RenderRectangle(ctx, all, looks);
        visited, drawn := v, d;
      case RoundedRectangle =>
        var v, d, _ := RenderRoundedRectangle(ctx, all, looks);
        visited, drawn := v, d;
      case Text =>
        drawn := RenderText(ctx);
        visited := [];
      case Menu =>
        var v, d, _ := RenderMenu(ctx, all, looks);
        visited, drawn := v, d;
    }

    /** The children's `transformAndRender`, in list order. */
    method RenderChildren(ctx: DrawContext, ghost all: set<Element>, ghost looks: map<Element, Look>)
      returns (ghost visited: seq<Element>, ghost drawn: seq<Command>)
      requires this in all && looks == Looks(all) && Drawable(looks)
      modifies (set x | x in all && x.rank < rank)`renderLocation, ctx
      decreases rank, 1
      ensures ctx.depth == old(ctx.depth) && ctx.scissorDepth == old(ctx.scissorDepth)
      ensures ctx.log == old(ctx.log) + drawn
      ensures visited == RenderWalk(looks, looks[this].children, rank)
      ensures forall x :: x in all && x !in visited ==> x.renderLocation == old(x.renderLocation)
      ensures Linked(looks) ==>
                drawn == ChildTraces(looks, looks[this].children, rank, ctx.windowWidth, ctx.windowHeight,
                                     ChildExtent(kind, looks[this].size, ctx.windowWidth, ctx.windowHeight), old(At(renderLocation)))
    {
      var kids := children;
      ghost var extent, base := ChildExtent(kind, size, ctx.windowWidth, ctx.windowHeight), At(renderLocation);
      ChildSteps(looks, kids, rank, ctx.windowWidth, ctx.windowHeight, extent, base);
      assert kids[..|kids|] == kids;
      visited, drawn := [], [];
      for i := 0 to |kids|
        invariant ctx.depth == old(ctx.depth) && ctx.scissorDepth == old(ctx.scissorDepth)
        invariant ctx.log == old(ctx.log) + drawn
        invariant Looks(all) == looks
        invariant visited == RenderWalk(looks, kids[..i], rank)
        invariant forall x :: x in all && x !in visited ==> x.renderLocation == old(x.renderLocation)
        invariant Linked(looks) ==> drawn == ChildTraces(looks, kids[..i], rank, ctx.windowWidth, ctx.windowHeight, extent, base)
      {
        var v, piece := RenderChild(kids[i], ctx, all, looks);
        AppendAssoc(old(ctx.log), drawn, piece);
        visited, drawn := visited + v, drawn + piece;
      }
    }

    /**
     * `render` of a rectangle: nothing when the truncated width or height is
     * not positive; otherwise the texture or else a fill of the box, then the
     * children, bracketed by a scissor region when masking.
     */
    method RenderRectangle(ctx: DrawContext, ghost all: set<Element>, ghost looks: map<Element, Look>)
      returns (ghost visited: seq<Element>, ghost drawn: seq<Command>, ghost childLog: seq<Command>)
      requires kind == Rectangle && this in all && looks == Looks(all) && Drawable(looks)
      modifies (set x | x in all && x.rank < rank)`renderLocation, ctx
      decreases rank, 3
      ensures ctx.depth == old(ctx.depth) && ctx.scissorDepth == old(ctx.scissorDepth)
      ensures ctx.log == old(ctx.log) + drawn
      ensures var l, x1, y1 := looks[this], ToInt(old(renderLocation.x)), ToInt(old(renderLocation.y));
              var w, h := ToInt(l.size.x), ToInt(l.size.y);
              (w <= 0 || h <= 0 ==> drawn == [] && visited == []) &&
              (w > 0 && h > 0 ==>
                 visited == RenderWalk(looks, l.children, rank) &&
                 drawn == [BoxDraw(l.texture, l.regionSize, l.textureSize, Argb(l.color), x1, y1, w, h)]
                          + (if l.mask then [EnableScissor(x1, y1, w, h)] + childLog + [DisableScissor] else childLog) &&
                 (Linked(looks) ==>
                    childLog == ChildTraces(looks, l.children, rank, ctx.windowWidth, ctx.windowHeight,
                                            ChildExtent(kind, l.size, ctx.windowWidth, ctx.windowHeight), old(At(renderLocation)))))
      ensures forall x :: x in all && x !in visited ==> x.renderLocation == old(x.renderLocation)
    {
      var x1, y1 := ToInt(renderLocation.x), ToInt(renderLocation.y);
      var w, h := ToInt(size.x), ToInt(size.y);
      if w <= 0 || h <= 0 {
        return [], [], [];
      }
      var masked := mask;
      ghost var l := looks[this];
      assert l.size == size && l.texture == texture && l.regionSize == regionSize && l.textureSize == textureSize;
      assert l.color == color && l.mask == masked && l.children == children;
      var own := BoxDraw(texture, regionSize, textureSize, Argb(color), x1, y1, w, h);
      label L:
      ctx.Draw(own);
      LooksKept@L(all);
      ghost var rest;
      if masked {
        visited, rest, childLog := RenderMasked(ctx, all, looks, x1, y1, w, h);
      } else {
        visited, childLog := RenderChildren(ctx, all, looks);
        rest := childLog;
      }
      AppendAssoc(old(ctx.log), [own], rest);
      drawn := [own] + rest;
    }

    /** The children of a masking rectangle, inside a scissor region over its box. */
    method RenderMasked(ctx: DrawContext, ghost all: set<Element>, ghost looks: map<Element, Look>, x1: int, y1: int, w: int, h: int)
      returns (ghost visited: seq<Element>, ghost drawn: seq<Command>, ghost childLog: seq<Command>)
      requires this in all && looks == Looks(all) && Drawable(looks)
      modifies (set x | x in all && x.rank < rank)`renderLocation, ctx
      decreases rank, 2
      ensures ctx.depth == old(ctx.depth) && ctx.scissorDepth == old(ctx.scissorDepth)
      ensures ctx.log == old(ctx.log) + drawn
      ensures drawn == [EnableScissor(x1, y1, w, h)] + childLog + [DisableScissor]
      ensures visited == RenderWalk(looks, looks[this].children, rank)
      ensures forall x :: x in all && x !in visited ==> x.renderLocation == old(x.renderLocation)
      ensures Linked(looks) ==>
                childLog == ChildTraces(looks, looks[this].children, rank, ctx.windowWidth, ctx.windowHeight,
                                        ChildExtent(kind, looks[this].size, ctx.windowWidth, ctx.windowHeight), old(At(renderLocation)))
    {
      label L:
      ctx.EnableScissorRegion(x1, y1, w, h);
      LooksKept@L(all);
      visited, childLog := RenderChildren(ctx, all, looks);
      ctx.DisableScissorRegion();
      drawn := [EnableScissor(x1, y1, w, h)] + childLog + [DisableScissor];
      AppendAssoc(old(ctx.log), [EnableScissor(x1, y1, w, h)], childLog);
    }

    /**
     * `render` of a rounded rectangle: nothing when the truncated width or
     * height is not positive; otherwise the rounded box, then the texture if
     * set, then the children.
     */
    method RenderRoundedRectangle(ctx: DrawContext, ghost all: set<Element>, ghost looks: map<Element, Look>)
      returns (ghost visited: seq<Element>, ghost drawn: seq<Command>, ghost childLog: seq<Command>)
      requires kind == RoundedRectangle && this in all && looks == Looks(all) && Drawable(looks)
      modifies (set x | x in all && x.rank < rank)`renderLocation, ctx
      decreases rank, 3
      ensures ctx.depth == old(ctx.depth) && ctx.scissorDepth == old(ctx.scissorDepth)
      ensures ctx.log == old(ctx.log) + drawn
      ensures var l, x1, y1 := looks[this], ToInt(old(renderLocation.x)), ToInt(old(renderLocation.y));
              var w, h := Clamp(ToInt(l.size.x), 0, IntMax), Clamp(ToInt(l.size.y), 0, IntMax);
              (w <= 0 || h <= 0 ==> drawn == [] && visited == []) &&
              (w > 0 && h > 0 ==>
                 var box := RoundedRectCommands(x1, y1, w, h, l.cornerRadius, Argb(l.color));
                 visited == RenderWalk(looks, l.children, rank) &&
                 (l.texture.None? ==> drawn == box + childLog) &&
                 (l.texture.Some? ==> drawn == box + [BoxDraw(l.texture, l.regionSize, l.textureSize, Argb(l.color), x1, y1, w, h)] + childLog) &&
                 (Linked(looks) ==>
                    childLog == ChildTraces(looks, l.children, rank, ctx.windowWidth, ctx.windowHeight,
                                            ChildExtent(kind, l.size, ctx.windowWidth, ctx.windowHeight), old(At(renderLocation)))))
      ensures forall x :: x in all && x !in visited ==> x.renderLocation == old(x.renderLocation)
    {
      var x1, y1 := ToInt(renderLocation.x), ToInt(renderLocation.y);
      var w, h := Clamp(ToInt(size.x), 0, IntMax), Clamp(ToInt(size.y), 0, IntMax);
      if w <= 0 || h <= 0 {
        return [], [], [];
      }
      ghost var l := looks[this];
      assert l.size == size && l.texture == texture && l.regionSize == regionSize && l.textureSize == textureSize;
      assert l.color == color && l.cornerRadius == cornerRadius && l.children == children;
      label L:
      drawn := DrawRoundedBox(ctx, x1, y1, w, h);
      LooksKept@L(all);
      visited, childLog := RenderChildren(ctx, all, looks);
      AppendAssoc(old(ctx.log), drawn, childLog);
      drawn := drawn + childLog;
    }

    /** The rounded box of a rounded rectangle, then its texture over the box when it has one. */
    method DrawRoundedBox(ctx: DrawContext, x1: int, y1: int, w: int, h: int) returns (ghost own: seq<Command>)
      requires w > 0 && h > 0 && ChannelsInRange(color)
      modifies ctx
      ensures ctx.depth == old(ctx.depth) && ctx.scissorDepth == old(ctx.scissorDepth)
      ensures ctx.log == old(ctx.log) + own
      ensures texture.None? ==> own == RoundedRectCommands(x1, y1, w, h, cornerRadius, Argb(color))
      ensures texture.Some? ==> own == RoundedRectCommands(x1, y1, w, h, cornerRadius, Argb(color))
                                       + [BoxDraw(texture, regionSize, textureSize, Argb(color), x1, y1, w, h)]
    {
      DrawRoundedRect(ctx, x1, y1, w, h, cornerRadius, Argb(color));
      own := RoundedRectCommands(x1, y1, w, h, cornerRadius, Argb(color));
      if texture.Some? {
        var tex := BoxDraw(texture, regionSize, textureSize, Argb(color), x1, y1, w, h);
        ctx.Draw(tex);
        AppendAssoc(old(ctx.log), own, [tex]);
        own := own + [tex];
      }
    }

    /** `render` of a text element: its content at the truncated location, unless width or height is not positive. */
    method RenderText(ctx: DrawContext) returns (ghost drawn: seq<Command>)
      requires kind == Text && ChannelsInRange(color)
      modifies ctx
      ensures ctx.depth == old(ctx.depth) && ctx.scissorDepth == old(ctx.scissorDepth)
      ensures ctx.log == old(ctx.log) + drawn
      ensures size.x <= 0.0 || size.y <= 0.0 ==> drawn == []
      ensures size.x > 0.0 && size.y > 0.0 ==>
                drawn == [DrawText(content, ToInt(renderLocation.x), ToInt(renderLocation.y), Argb(color), shadow)]
    {
      if size.x <= 0.0 || size.y <= 0.0 {
        return [];
      }
      var text := DrawText(content, ToInt(renderLocation.x), ToInt(renderLocation.y), Argb(color), shadow);
      ctx.Draw(text);
      drawn := [text];
    }

    /** `render` of a context menu: a window-sized fill in its color, then the children. */
    method RenderMenu(ctx: DrawContext, ghost all: set<Element>, ghost looks: map<Element, Look>)
      returns (ghost visited: seq<Element>, ghost drawn: seq<Command>, ghost childLog: seq<Command>)
      requires kind == Menu && this in all && looks == Looks(all) && Drawable(looks)
      modifies (set x | x in all && x.rank < rank)`renderLocation, ctx
      decreases rank, 3
      ensures ctx.depth == old(ctx.depth) && ctx.scissorDepth == old(ctx.scissorDepth)
      ensures ctx.log == old(ctx.log) + drawn
      ensures visited == RenderWalk(looks, children, rank)
      ensures drawn == [Fill(0, 0, ctx.windowWidth, ctx.windowHeight, Argb(color))] + childLog
      ensures Linked(looks) ==>
                childLog == ChildTraces(looks, children, rank, ctx.windowWidth, ctx.windowHeight,
                                        ChildExtent(kind, size, ctx.windowWidth, ctx.windowHeight), At(renderLocation))
      ensures forall x :: x in all && x !in visited ==> x.renderLocation == old(x.renderLocation)
    {
      ctx.Draw(Fill(0, 0, ctx.windowWidth, ctx.windowHeight, Argb(color)));
      visited, childLog := RenderChildren(ctx, all, looks);
      drawn := [Fill(0, 0, ctx.windowWidth, ctx.windowHeight, Argb(color))] + childLog;
      AppendAssoc(old(ctx.log), [Fill(0, 0, ctx.windowWidth, ctx.windowHeight, Argb(color))], childLog);
    }
  }

  /**
   * The pushes of `handleRotation(.., true)` for an element at `location`:
   * none without rotation, else a rotation by `rotation` degrees about the
   * element's origin point.
   */
  function RotationPrologue(location: V2, size: V3, origin: V2, rotation: real): (cs: seq<Command>)
    ensures rotation == 0.0 ==> cs == []
    ensures rotation != 0.0 ==>
              var rx, ry := location.x + size.x * origin.x, location.y + size.y * origin.y;
              |cs| == 4 && cs[0] == PushMatrix && cs[2] == RotateZ(rotation) &&
              cs[1] == Translate(rx, ry, 0.0) && cs[3] == Translate(-rx, -ry, 0.0)
  {
    if rotation == 0.0 then []
    else
      var rx := location.x + size.x * origin.x;
      var ry := location.y + size.y * origin.y;
      [PushMatrix, Translate(rx, ry, 0.0), RotateZ(rotation), Translate(-rx, -ry, 0.0)]
  }

  /** The pop of `handleRotation(.., false)`: one per push of the prologue. */
  function RotationEpilogue(rotation: real): (cs: seq<Command>)
    ensures rotation == 0.0 ==> cs == []
    ensures rotation != 0.0 ==> cs == [PopMatrix]
  {
    if rotation == 0.0 then [] else [PopMatrix]
  }

  /** A log extended by a prefix, a body and a two-part suffix holds the whole bracket after the start. */
  lemma BracketLog<T>(start: seq<T>, pre: seq<T>, body: seq<T>, close: seq<T>, post: seq<T>)
    ensures start + pre + body + (close + post) == start + (pre + body + close + post)
  {
  }

  lemma AppendAssoc<T>(a: seq<T>, b: seq<T>, c: seq<T>)
    ensures a + b + c == a + (b + c)
  {
  }

  /* ---------------- the tree ---------------- */

  /** `all` is closed under children, and every child ranks below its parent. */
  ghost predicate Forest(all: set<Element>)
    reads all`children
  {
    forall x, i :: x in all && 0 <= i < |x.children| ==> x.children[i] in all && x.children[i].rank < x.rank
  }

  /** `java.awt.Color` accepts every element's color. */
  ghost predicate ColorsInRange(all: set<Element>)
    reads all`color
  {
    forall x :: x in all ==> ChannelsInRange(x.color)
  }

  /** Whether `render` goes on to the children: a menu always, text never, a rectangle when it has a positive size. */
  predicate DrawsChildren(kind: Kind, size: V3) {
    match kind
    case Menu => true
    case Text => false
    case _ => ToInt(size.x) > 0 && ToInt(size.y) > 0
  }

  /** The elements `transformAndRender` is called on, in call order, when it is called on x. */
  ghost function RenderSubtree(looks: map<Element, Look>, x: Element): (order: seq<Element>)
    requires x in looks && Drawable(looks)
    decreases x.rank, 1
    ensures |order| >= 1 && order[0] == x
    ensures forall y :: y in order ==> y in looks && y.rank <= x.rank
  {
    var l := looks[x];
    [x] + if l.enabled && DrawsChildren(x.kind, l.size) then RenderWalk(looks, l.children, x.rank) else []
  }

  /** The same for a list of siblings, in list order. */
  ghost function RenderWalk(looks: map<Element, Look>, es: seq<Element>, bound: nat): (order: seq<Element>)
    requires Drawable(looks) && forall i :: 0 <= i < |es| ==> es[i] in looks && es[i].rank < bound
    decreases bound, 0, |es|
    ensures forall i :: 0 <= i < |es| ==> es[i] in order
    ensures forall y :: y in order ==> y in looks && y.rank < bound
  {
    if es == [] then [] else RenderSubtree(looks, es[0]) + RenderWalk(looks, es[1..], bound)
  }

  lemma {:induction false} RenderWalkAppend(looks: map<Element, Look>, es: seq<Element>, e: Element, bound: nat)
    requires Drawable(looks) && forall i :: 0 <= i < |es| ==> es[i] in looks && es[i].rank < bound
    requires e in looks && e.rank < bound
    ensures RenderWalk(looks, es + [e], bound) == RenderWalk(looks, es, bound) + RenderSubtree(looks, e)
    decreases |es|
  {
    if es == [] {
      assert RenderWalk(looks, [e], bound) == RenderSubtree(looks, e) + RenderWalk(looks, [], bound);
    } else {
      assert (es + [e])[1..] == es[1..] + [e];
      RenderWalkAppend(looks, es[1..], e, bound);
    }
  }

  /* ---------------- the render trace ---------------- */

  /**
   * What rendering reads of an element and never writes: everything but
   * the render location. `parent` is `lastParent`.
   */
  datatype Look = Look(enabled: bool, parent: Element?, size: V3, align: V2, origin: V2, offset: V3,
                       rotation: real, color: Rgba, texture: Option<TextureId>, regionSize: V3,
                       textureSize: V3, mask: bool, cornerRadius: int, content: string, shadow: bool,
                       children: seq<Element>)

  /** The looks of all elements. */
  ghost function Looks(all: set<Element>): (m: map<Element, Look>)
    reads all`enabled, all`lastParent, all`size, all`align, all`origin, all`offset, all`rotation
    reads all`color, all`texture, all`regionSize, all`textureSize, all`mask, all`cornerRadius
    reads all`content, all`shadow, all`children
    ensures m.Keys == all
  {
    map x | x in all :: Look(x.enabled, x.lastParent, x.size, x.align, x.origin, x.offset, x.rotation,
                             x.color, x.texture, x.regionSize, x.textureSize, x.mask, x.cornerRadius,
                             x.content, x.shadow, x.children)
  }

  /** Rendering changes only render locations and the context, so what it reads stays as it was. */
  twostate lemma LooksKept(all: set<Element>)
    requires forall x :: x in all ==>
               x.enabled == old(x.enabled) && x.lastParent == old(x.lastParent) && x.size == old(x.size) &&
               x.align == old(x.align) && x.origin == old(x.origin) && x.offset == old(x.offset) &&
               x.rotation == old(x.rotation) && x.color == old(x.color) && x.texture == old(x.texture) &&
               x.regionSize == old(x.regionSize) && x.textureSize == old(x.textureSize) && x.mask == old(x.mask) &&
               x.cornerRadius == old(x.cornerRadius) && x.content == old(x.content) && x.shadow == old(x.shadow) &&
               x.children == old(x.children)
    ensures Looks(all) == old(Looks(all))
  {
  }

  /** Every child of a looked-at element is looked at and ranks below it, and every color packs. */
  ghost predicate Drawable(looks: map<Element, Look>) {
    (forall x, i :: x in looks && 0 <= i < |looks[x].children| ==>
       looks[x].children[i] in looks && looks[x].children[i].rank < x.rank) &&
    forall x :: x in looks ==> ChannelsInRange(looks[x].color)
  }

  /** A well-formed forest whose colors pack has drawable looks. */
  lemma LooksDrawable(all: set<Element>)
    requires Forest(all) && ColorsInRange(all)
    ensures Drawable(Looks(all))
  {
  }

  /**
   * Every child's `lastParent` is the composite whose list holds it, as
   * `addChild` leaves it when each element is added to one composite only.
   */
  ghost predicate Linked(looks: map<Element, Look>)
    requires Drawable(looks)
  {
    forall x, i :: x in looks && 0 <= i < |looks[x].children| ==> looks[looks[x].children[i]].parent == x
  }

  /** The extent the children of an element are laid out in: the window under a menu, else its size. */
  function ChildExtent(kind: Kind, size: V3, windowWidth: int, windowHeight: int): V3 {
    if kind == Menu then V3(windowWidth as real, windowHeight as real, 1.0) else size
  }

  /** Where `updateRenderLocation` puts an element (x and y) in `extent`, below a parent located at `base`. */
  function Spot(l: Look, extent: V3, base: V2): V2 {
    V2(AbsolutePosition(extent.x, l.size.x, l.align.x, l.origin.x, base.x, l.offset.x),
       AbsolutePosition(extent.y, l.size.y, l.align.y, l.origin.y, base.y, l.offset.y))
  }

  /**
   * The texture-or-fill draw of a rectangle's truncated box (x1, y1, w, h):
   * either way it starts at (x1, y1) and spans w by h.
   */
  function BoxDraw(texture: Option<TextureId>, regionSize: V3, textureSize: V3, argb: int,
                   x1: int, y1: int, w: int, h: int): (c: Command)
    ensures texture.Some? <==> c.DrawTexture?
    ensures texture.None? <==> c.Fill?
    ensures c.DrawTexture? ==> c.texture == texture.value && c.x == x1 && c.y == y1 && c.width == w && c.height == h
    ensures c.Fill? ==> c.x1 == x1 && c.y1 == y1 && c.x2 - c.x1 == w && c.y2 - c.y1 == h && c.argb == argb
  {
    if texture.Some? then
      DrawTexture(texture.value, x1, y1, w, h, 0.0, 0.0, ToInt(regionSize.x), ToInt(regionSize.y),
                  ToInt(textureSize.x), ToInt(textureSize.y))
    else Fill(x1, y1, x1 + w, y1 + h, argb)
  }

  /**
   * The commands `transformAndRender` gives the draw context for x, laid
   * out in `extent` below a parent located at `base`: nothing when
   * disabled; otherwise the rotation, the offset push, the kind's own
   * trace, and the pops. Whatever the looks, the trace leaves both stacks
   * as it found them.
   */
  ghost function RenderTrace(looks: map<Element, Look>, x: Element, windowWidth: int, windowHeight: int,
                             extent: V3, base: V2): (cs: seq<Command>)
    requires x in looks && Drawable(looks)
    decreases x.rank, 2
    ensures Balanced(cs)
  {
    var l := looks[x];
    if !l.enabled then []
    else
      var loc := Spot(l, extent, base);
      var body := KindTrace(looks, x, windowWidth, windowHeight, loc);
      TransformBalanced(loc, l.size, l.origin, l.rotation, l.offset.y, body);
      RotationPrologue(loc, l.size, l.origin, l.rotation) + [PushMatrix] + [Translate(0.0, l.offset.y, 0.0)]
      + body + [PopMatrix] + RotationEpilogue(l.rotation)
  }

  /**
   * `render` of x located at `loc`, by kind. A rectangle draws nothing
   * unless its truncated size is positive; then its box, the children
   * inside its scissor region when masking. A rounded rectangle: its rounded
   * box, its texture if set, the children. Text: its content unless its size
   * is not positive. A menu: the window-sized fill, then the children. The
   * children always come after the element's own drawing, in list order.
   */
  ghost function KindTrace(looks: map<Element, Look>, x: Element, windowWidth: int, windowHeight: int, loc: V2): (cs: seq<Command>)
    requires x in looks && Drawable(looks)
    decreases x.rank, 1
    ensures Balanced(cs)
  {
    var l := looks[x];
    var kids := ChildTraces(looks, l.children, x.rank, windowWidth, windowHeight,
                            ChildExtent(x.kind, l.size, windowWidth, windowHeight), loc);
    match x.kind
    case Text =>
      if l.size.x <= 0.0 || l.size.y <= 0.0 then []
      else
        var text := [DrawText(l.content, ToInt(loc.x), ToInt(loc.y), Argb(l.color), l.shadow)];
        FlatBalanced(text);
        text
    case Menu =>
      var fill := [Fill(0, 0, windowWidth, windowHeight, Argb(l.color))];
      FlatBalanced(fill);
      Framed(fill, kids)
    case Rectangle =>
      var x1, y1, w, h := ToInt(loc.x), ToInt(loc.y), ToInt(l.size.x), ToInt(l.size.y);
      if w <= 0 || h <= 0 then []
      else
        var own := [BoxDraw(l.texture, l.regionSize, l.textureSize, Argb(l.color), x1, y1, w, h)];
        FlatBalanced(own);
        if l.mask then Scissored(own, x1, y1, w, h, kids) else Framed(own, kids)
    case RoundedRectangle =>
      var x1, y1 := ToInt(loc.x), ToInt(loc.y);
      var w, h := Clamp(ToInt(l.size.x), 0, IntMax), Clamp(ToInt(l.size.y), 0, IntMax);
      if w <= 0 || h <= 0 then []
      else
        var box := RoundedRectCommands(x1, y1, w, h, l.cornerRadius, Argb(l.color));
        RoundedRectBalanced(x1, y1, w, h, l.cornerRadius, Argb(l.color));
        if l.texture.Some? then
          var tex := [BoxDraw(l.texture, l.regionSize, l.textureSize, Argb(l.color), x1, y1, w, h)];
          FlatBalanced(tex);
          NetAppend(box, tex);
          Framed(box + tex, kids)
        else Framed(box, kids)
  }

  /** An element's own drawing followed by its children's traces; balanced when both parts are. */
  function Framed(own: seq<Command>, kids: seq<Command>): (cs: seq<Command>)
    requires Balanced(own) && Balanced(kids)
    ensures Balanced(cs)
  {
    NetAppend(own, kids);
    own + kids
  }

  /** A masking rectangle: its box, then its children inside the box's scissor region. */
  function Scissored(own: seq<Command>, x1: int, y1: int, w: int, h: int, kids: seq<Command>): (cs: seq<Command>)
    requires Balanced(own) && Balanced(kids)
    ensures Balanced(cs)
  {
    BracketBalanced(own, [EnableScissor(x1, y1, w, h)], kids, [DisableScissor]);
    assert own + [EnableScissor(x1, y1, w, h)] + kids + [DisableScissor] == own + ([EnableScissor(x1, y1, w, h)] + kids + [DisableScissor]);
    own + ([EnableScissor(x1, y1, w, h)] + kids + [DisableScissor])
  }

  /** The traces of a list of siblings laid out in `extent` below a parent at `base`, in list order. */
  ghost function ChildTraces(looks: map<Element, Look>, es: seq<Element>, bound: nat, windowWidth: int, windowHeight: int,
                             extent: V3, base: V2): (cs: seq<Command>)
    requires Drawable(looks) && forall i :: 0 <= i < |es| ==> es[i] in looks && es[i].rank < bound
    decreases bound, 0, |es|
    ensures Balanced(cs)
  {
    if es == [] then []
    else
      var head := RenderTrace(looks, es[0], windowWidth, windowHeight, extent, base);
      var tail := ChildTraces(looks, es[1..], bound, windowWidth, windowHeight, extent, base);
      NetAppend(head, tail);
      head + tail
  }

  /** Each prefix of a child list extends the previous one by one child's walk and trace. */
  lemma ChildSteps(looks: map<Element, Look>, kids: seq<Element>, bound: nat, windowWidth: int, windowHeight: int,
                   extent: V3, base: V2)
    requires Drawable(looks) && forall i :: 0 <= i < |kids| ==> kids[i] in looks && kids[i].rank < bound
    ensures forall i :: 0 <= i < |kids| ==>
              RenderWalk(looks, kids[..i + 1], bound) == RenderWalk(looks, kids[..i], bound) + RenderSubtree(looks, kids[i])
    ensures forall i :: 0 <= i < |kids| ==>
              ChildTraces(looks, kids[..i + 1], bound, windowWidth, windowHeight, extent, base)
              == ChildTraces(looks, kids[..i], bound, windowWidth, windowHeight, extent, base)
                 + RenderTrace(looks, kids[i], windowWidth, windowHeight, extent, base)
  {
    forall i | 0 <= i < |kids|
      ensures RenderWalk(looks, kids[..i + 1], bound) == RenderWalk(looks, kids[..i], bound) + RenderSubtree(looks, kids[i])
      ensures ChildTraces(looks, kids[..i + 1], bound, windowWidth, windowHeight, extent, base)
              == ChildTraces(looks, kids[..i], bound, windowWidth, windowHeight, extent, base)
                 + RenderTrace(looks, kids[i], windowWidth, windowHeight, extent, base)
    {
      assert kids[..i + 1] == kids[..i] + [kids[i]];
      RenderWalkAppend(looks, kids[..i], kids[i], bound);
      ChildTracesAppend(looks, kids[..i], kids[i], bound, windowWidth, windowHeight, extent, base);
    }
  }

  /** Appending one sibling appends its trace. */
  lemma {:induction false} ChildTracesAppend(looks: map<Element, Look>, es: seq<Element>, e: Element, bound: nat,
                                             windowWidth: int, windowHeight: int, extent: V3, base: V2)
    requires Drawable(looks) && forall i :: 0 <= i < |es| ==> es[i] in looks && es[i].rank < bound
    requires e in looks && e.rank < bound
    ensures ChildTraces(looks, es + [e], bound, windowWidth, windowHeight, extent, base)
            == ChildTraces(looks, es, bound, windowWidth, windowHeight, extent, base)
               + RenderTrace(looks, e, windowWidth, windowHeight, extent, base)
    decreases |es|
  {
    if es == [] {
      assert ChildTraces(looks, [e], bound, windowWidth, windowHeight, extent, base)
             == RenderTrace(looks, e, windowWidth, windowHeight, extent, base)
                + ChildTraces(looks, [], bound, windowWidth, windowHeight, extent, base);
    } else {
      assert (es + [e])[1..] == es[1..] + [e];
      ChildTracesAppend(looks, es[1..], e, bound, windowWidth, windowHeight, extent, base);
    }
  }

  /** A balanced body between an opening and a closing that undo each other is balanced. */
  lemma BracketBalanced(pro: seq<Command>, open: seq<Command>, body: seq<Command>, close: seq<Command>)
    requires MatrixNet(pro) + MatrixNet(open) + MatrixNet(close) == 0
    requires ScissorNet(pro) + ScissorNet(open) + ScissorNet(close) == 0
    requires Balanced(body)
    ensures Balanced(pro + open + body + close)
  {
    NetAppend(pro, open);
    NetAppend(pro + open, body);
    NetAppend(pro + open + body, close);
  }

  /** The pushes of `transformAndRender` before `render` are undone by its pops after it. */
  lemma TransformBalanced(loc: V2, size: V3, origin: V2, rotation: real, offsetY: real, body: seq<Command>)
    requires Balanced(body)
    ensures Balanced(RotationPrologue(loc, size, origin, rotation) + [PushMatrix] + [Translate(0.0, offsetY, 0.0)]
                     + body + [PopMatrix] + RotationEpilogue(rotation))
  {
    var pro := RotationPrologue(loc, size, origin, rotation);
    var t := Translate(0.0, offsetY, 0.0);
    if rotation != 0.0 {
      forall i | 0 <= i < |pro[1..]|
        ensures MatrixStep(pro[1..][i]) == 0 && ScissorStep(pro[1..][i]) == 0
      {
        assert i == 0 || i == 1 || i == 2;
      }
      FlatBalanced(pro[1..]);
      assert pro == [PushMatrix] + pro[1..];
      NetAppend([PushMatrix], pro[1..]);
    }
    NetAppend(pro, [PushMatrix]);
    NetAppend(pro + [PushMatrix], [t]);
    NetAppend(pro + [PushMatrix] + [t], body);
    NetAppend(pro + [PushMatrix] + [t] + body, [PopMatrix]);
    NetAppend(pro + [PushMatrix] + [t] + body + [PopMatrix], RotationEpilogue(rotation));
  }

  /** The rounded box touches neither stack. */
  lemma RoundedRectBalanced(x: int, y: int, width: int, height: int, radius: int, argb: int)
    requires width > 0 && height > 0
    ensures Balanced(RoundedRectCommands(x, y, width, height, radius, argb))
  {
    var r := AdjustedRadius(radius, width, height);
    FlatBalanced(FillCommands(Fills(x, y, width, height, r), argb));
    if r > 0 {
      var a0, a1 := Arc(x + r, y + r, r, 0, argb), Arc(x + width - r, y + r, r, 90, argb);
      var a2, a3 := Arc(x + width - r, y + height - r, r, 180, argb), Arc(x + r, y + height - r, r, 270, argb);
      FlatBalanced(a0);
      FlatBalanced(a1);
      FlatBalanced(a2);
      FlatBalanced(a3);
      NetAppend(a0, a1);
      NetAppend(a0 + a1, a2);
      NetAppend(a0 + a1 + a2, a3);
      NetAppend(FillCommands(Fills(x, y, width, height, r), argb), Corners(x, y, width, height, r, argb));
    } else {
      assert RoundedRectCommands(x, y, width, height, radius, argb) == FillCommands(Fills(x, y, width, height, r), argb) + [];
      assert FillCommands(Fills(x, y, width, height, r), argb) + [] == FillCommands(Fills(x, y, width, height, r), argb);
    }
  }

  /** `children.find { it.isHovered(..) }`. */
  function FirstHovered(es: seq<Element>, mouseX: real, mouseY: real): (r: Element?)
    reads es`renderLocation, es`offset, es`size
    ensures r == null <==> forall i :: 0 <= i < |es| ==> !es[i].IsHovered(mouseX, mouseY)
    ensures r != null ==> exists i :: 0 <= i < |es| && es[i] == r && r.IsHovered(mouseX, mouseY) &&
                                      forall j :: 0 <= j < i ==> !es[j].IsHovered(mouseX, mouseY)
  {
    if es == [] then null
    else if es[0].IsHovered(mouseX, mouseY) then es[0]
    else
      var r := FirstHovered(es[1..], mouseX, mouseY);
      if r != null then
        var i :| 0 <= i < |es[1..]| && es[1..][i] == r && r.IsHovered(mouseX, mouseY) &&
                 forall j :: 0 <= j < i ==> !es[1..][j].IsHovered(mouseX, mouseY);
        assert es[i + 1] == r;
        r
      else
        r
  }

  /* ---------------- rounded rectangle drawing ---------------- */

  /** One fill command per rectangle, in order. */
  function FillCommands(rs: seq<Rect>, argb: int): (cs: seq<Command>)
    ensures |cs| == |rs|
    ensures forall i :: 0 <= i < |rs| ==> cs[i] == Fill(rs[i].x1, rs[i].y1, rs[i].x2, rs[i].y2, argb)
  {
    if rs == [] then [] else [Fill(rs[0].x1, rs[0].y1, rs[0].x2, rs[0].y2, argb)] + FillCommands(rs[1..], argb)
  }

  /** The 17 segment fills of `drawCorner` (segments 0 through 16). */
  function Arc(centerX: int, centerY: int, radius: int, startAngle: int, argb: int): (cs: seq<Command>)
    ensures |cs| == 17
    ensures forall i :: 0 <= i < 17 ==> cs[i] == CornerSegment(centerX, centerY, radius, startAngle, i, argb)
  {
    seq(17, i requires 0 <= i < 17 => CornerSegment(centerX, centerY, radius, startAngle, i, argb))
  }

  /**
   * `drawRoundedRect`: the five fills of the clamped radius, then, when that
   * radius is positive, the four corner arcs starting at 0, 90, 180 and 270 degrees.
   */
  function RoundedRectCommands(x: int, y: int, width: int, height: int, radius: int, argb: int): (cs: seq<Command>)
    requires width > 0 && height > 0
    ensures var r := AdjustedRadius(radius, width, height);
            |cs| == (if r > 0 then 5 + 4 * 17 else 5) &&
            cs[..5] == FillCommands(Fills(x, y, width, height, r), argb)
  {
    var r := AdjustedRadius(radius, width, height);
    FillCommands(Fills(x, y, width, height, r), argb) + if r > 0 then Corners(x, y, width, height, r, argb) else []
  }

  /** The four corner arcs of a box with radius r, clockwise from the top-left. */
  function Corners(x: int, y: int, width: int, height: int, r: int, argb: int): (cs: seq<Command>)
    ensures |cs| == 4 * 17
    // corner k starts at 90 * k degrees and runs through its 17 segments, all of radius r
    ensures forall i :: 0 <= i < 4 * 17 ==>
              cs[i].CornerSegment? && cs[i].radius == r && cs[i].argb == argb &&
              cs[i].startAngle == 90 * (i / 17) && cs[i].segment == i % 17
  {
    Arc(x + r, y + r, r, 0, argb) + Arc(x + width - r, y + r, r, 90, argb) +
    Arc(x + width - r, y + height - r, r, 180, argb) + Arc(x + r, y + height - r, r, 270, argb)
  }

  method DrawRoundedRect(ctx: DrawContext, x: int, y: int, width: int, height: int, radius: int, argb: int)
    requires width > 0 && height > 0
    modifies ctx
    ensures ctx.depth == old(ctx.depth) && ctx.scissorDepth == old(ctx.scissorDepth)
    ensures ctx.log == old(ctx.log) + RoundedRectCommands(x, y, width, height, radius, argb)
  {
    var r := AdjustedRadius(radius, width, height);
    ctx.Draw(Fill(x + r, y + r, x + width - r, y + height - r, argb));
    ctx.Draw(Fill(x + r, y, x + width - r, y + r, argb));
    ctx.Draw(Fill(x + r, y + height - r, x + width - r, y + height, argb));
    ctx.Draw(Fill(x, y + r, x + r, y + height - r, argb));
    ctx.Draw(Fill(x + width - r, y + r, x + width, y + height - r, argb));
    assert ctx.log == old(ctx.log) + FillCommands(Fills(x, y, width, height, r), argb);
    if r > 0 {
      DrawCorners(ctx, x, y, width, height, r, argb);
    } else {
      assert ctx.log == old(ctx.log) + FillCommands(Fills(x, y, width, height, r), argb) + [];
    }
  }

  /** The four `drawCorner` calls of `drawRoundedRect`. */
  method DrawCorners(ctx: DrawContext, x: int, y: int, width: int, height: int, r: int, argb: int)
    modifies ctx
    ensures ctx.depth == old(ctx.depth) && ctx.scissorDepth == old(ctx.scissorDepth)
    ensures ctx.log == old(ctx.log) + Corners(x, y, width, height, r, argb)
  {
    DrawCorner(ctx, x + r, y + r, r, 0, argb);
    DrawCorner(ctx, x + width - r, y + r, r, 90, argb);
    DrawCorner(ctx, x + width - r, y + height - r, r, 180, argb);
    DrawCorner(ctx, x + r, y + height - r, r, 270, argb);
  }

  /** `drawCorner`: one fill per segment, for segments 0 through 16. */
  method DrawCorner(ctx: DrawContext, x: int, y: int, radius: int, startAngle: int, argb: int)
    modifies ctx
    ensures ctx.depth == old(ctx.depth) && ctx.scissorDepth == old(ctx.scissorDepth)
    ensures ctx.log == old(ctx.log) + Arc(x, y, radius, startAngle, argb)
  {
    for i := 0 to 17
      invariant ctx.depth == old(ctx.depth) && ctx.scissorDepth == old(ctx.scissorDepth)
      invariant ctx.log == old(ctx.log) + Arc(x, y, radius, startAngle, argb)[..i]
    {
      ctx.Draw(CornerSegment(x, y, radius, startAngle, i, argb));
    }
  }
}
