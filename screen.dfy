/**
 * The overlay screen (KostilScreen.kt): the screen opened while a context
 * menu is shown. It decodes the key-modifier bitmask and forwards escape,
 * key, scroll and drag input to the enabled context menus among the roots.
 * The screen has no state of its own; it works on the manager's roots and
 * on the host.
 */
module Overlay {
  import opened Geometry
  import opened Input
  import opened Elements
  import opened Manager

  /* ---------------- modifier decoding ---------------- */

  /** The GLFW modifier-key flag of each modifier: a single bit. */
  function Flag(m: Modifier): (f: nat)
    ensures f == 1 || f == 2 || f == 4 || f == 8
  {
    match m
    case Shift => 0x1
    case Control => 0x2
    case Alt => 0x4
    case Meta => 0x8
  }

  /**
   * `(modifiers and flag) != 0` for a single-bit flag, on the unsigned
   * 32-bit pattern u: the flag's bit of u is set.
   */
  predicate HasFlag(u: nat, m: Modifier) {
    match m
    case Shift => u / 0x1 % 2 == 1
    case Control => u / 0x2 % 2 == 1
    case Alt => u / 0x4 % 2 == 1
    case Meta => u / 0x8 % 2 == 1
  }

  /** The bit tested is the flag's bit. */
  lemma HasFlagIsFlagBit(u: nat, m: Modifier)
    ensures HasFlag(u, m) <==> u / Flag(m) % 2 == 1
  {
  }

  /** The modifiers whose flag bit is set in u; every other bit is ignored. */
  function DecodeBits(u: nat): (ms: set<Modifier>)
    ensures forall m :: m in ms <==> HasFlag(u, m)
  {
    (if u / 0x1 % 2 == 1 then {Shift} else {}) +
    (if u / 0x2 % 2 == 1 then {Control} else {}) +
    (if u / 0x4 % 2 == 1 then {Alt} else {}) +
    (if u / 0x8 % 2 == 1 then {Meta} else {})
  }

  /** The modifier set `keyPressed` builds from its Int `modifiers` argument. */
  function DecodeModifiers(modifiers: int): (ms: set<Modifier>)
    requires IsInt32(modifiers)
    ensures forall m :: m in ms <==> HasFlag(Unsigned(modifiers), m)
  {
    DecodeBits(Unsigned(modifiers))
  }

  /** The bitmask of a modifier set: the sum of its flags. */
  function EncodeBits(ms: set<Modifier>): (u: nat)
    ensures u < 16
  {
    (if Shift in ms then 0x1 else 0) + (if Control in ms then 0x2 else 0) +
    (if Alt in ms then 0x4 else 0) + (if Meta in ms then 0x8 else 0)
  }

  /** Quotient and remainder are unique: u = d * t + c with 0 <= c < d fixes both. */
  lemma DivModOf(u: int, d: int, t: int, c: int)
    requires d == 2 || d == 4 || d == 8
    requires u == d * t + c && 0 <= c < d
    ensures u / d == t && u % d == c
  {
    if d == 2 {
      assert u == 2 * t + c;
    } else if d == 4 {
      assert u == 4 * t + c;
    } else {
      assert u == 8 * t + c;
    }
  }

  /** Bits 0 to 3 of u are those of its low four bits. */
  lemma LowBit0(u: nat)
    ensures u / 1 % 2 == u % 16 / 1 % 2
  {
    var q, r := u / 16, u % 16;
    DivModOf(u, 2, 8 * q + r / 2, r % 2);
  }

  lemma LowBit1(u: nat)
    ensures u / 2 % 2 == u % 16 / 2 % 2
  {
    var q, r := u / 16, u % 16;
    DivModOf(u, 2, 8 * q + r / 2, r % 2);
    DivModOf(8 * q + r / 2, 2, 4 * q + r / 2 / 2, r / 2 % 2);
  }

  lemma LowBit2(u: nat)
    ensures u / 4 % 2 == u % 16 / 4 % 2
  {
    var q, r := u / 16, u % 16;
    DivModOf(u, 4, 4 * q + r / 4, r % 4);
    DivModOf(4 * q + r / 4, 2, 2 * q + r / 4 / 2, r / 4 % 2);
  }

  lemma LowBit3(u: nat)
    ensures u / 8 % 2 == u % 16 / 8 % 2
  {
    var q, r := u / 16, u % 16;
    DivModOf(u, 8, 2 * q + r / 8, r % 8);
    DivModOf(2 * q + r / 8, 2, q + r / 8 / 2, r / 8 % 2);
  }

  /** The four flag bits of u are those of its low four bits. */
  lemma LowFlags(u: nat)
    ensures forall m :: HasFlag(u, m) == HasFlag(u % 16, m)
  {
    forall m
      ensures HasFlag(u, m) == HasFlag(u % 16, m)
    {
      match m
      case Shift => LowBit0(u);
      case Control => LowBit1(u);
      case Alt => LowBit2(u);
      case Meta => LowBit3(u);
    }
  }

  /** A number below 16 is the sum of its flags. */
  lemma SmallMask(r: nat)
    requires r < 16
    ensures EncodeBits(DecodeBits(r)) == r
  {
    var ms := DecodeBits(r);
    assert Shift in ms <==> r % 2 == 1;
    assert r == r % 2 + 2 * (r / 2 % 2) + 4 * (r / 4 % 2) + 8 * (r / 8);
  }

  /** Decoding the mask of a set gives the set back. */
  lemma DecodeEncode(ms: set<Modifier>)
    ensures DecodeBits(EncodeBits(ms)) == ms
  {
    var u := EncodeBits(ms);
    forall m
      ensures m in DecodeBits(u) <==> m in ms
    {
      match m
      case Shift =>
      case Control =>
      case Alt =>
      case Meta =>
    }
  }

  /** Encoding the decoded set gives back the four flag bits of u and nothing else. */
  lemma EncodeDecode(u: nat)
    ensures EncodeBits(DecodeBits(u)) == u % 16
  {
    LowFlags(u);
    SmallMask(u % 16);
    assert DecodeBits(u) == DecodeBits(u % 16);
  }

  /** Bits other than the four flags change nothing. */
  lemma DecodeIgnoresOtherBits(u: nat, v: nat)
    requires u % 16 == v % 16
    ensures DecodeBits(u) == DecodeBits(v)
  {
    LowFlags(u);
    LowFlags(v);
  }

  /** No flag decodes to no modifier; -1 (every bit set) decodes to all four. */
  lemma DecodeExtremes()
    ensures DecodeModifiers(0) == {}
    ensures DecodeModifiers(-1) == {Shift, Control, Alt, Meta}
  {
    var all := DecodeModifiers(-1);
    assert Unsigned(-1) == 0xFFFF_FFFF;
    assert Shift in all && Control in all && Alt in all && Meta in all;
  }

  /* ---------------- which roots receive input ---------------- */

  /** A root the overlay forwards to: a context menu that is enabled. */
  predicate Receives(x: Element)
    reads x`enabled
    ensures Receives(x) ==> x.kind == Menu && x.enabled
    ensures !x.enabled ==> !Receives(x)
  {
    x.kind == Menu && x.enabled
  }

  /**
   * `handleContextMenus`' filter: the roots that are context menus and
   * enabled, in root-list order. Nested menus are not roots and are never
   * reached.
   */
  function EnabledMenus(roots: seq<Element>): (menus: seq<Element>)
    reads roots`enabled
    ensures |menus| <= |roots|
    decreases |roots|
  {
    if roots == [] then []
    else EnabledMenus(roots[..|roots| - 1]) + if Receives(roots[|roots| - 1]) then [roots[|roots| - 1]] else []
  }

  /** The filter keeps exactly the enabled menus among the roots. */
  lemma {:induction false} EnabledMenusMembers(roots: seq<Element>, x: Element)
    ensures x in EnabledMenus(roots) <==> x in roots && Receives(x)
    decreases |roots|
  {
    if roots != [] {
      var init, last := roots[..|roots| - 1], roots[|roots| - 1];
      EnabledMenusMembers(init, x);
      assert roots == init + [last];
    }
  }

  /** The filter keeps the order of the roots: it distributes over concatenation. */
  lemma {:induction false} EnabledMenusAppend(a: seq<Element>, b: seq<Element>)
    ensures EnabledMenus(a + b) == EnabledMenus(a) + EnabledMenus(b)
    decreases |b|
  {
    if b == [] {
      assert a + b == a;
    } else {
      var init, last := b[..|b| - 1], b[|b| - 1];
      var tail := if Receives(last) then [last] else [];
      EnabledMenusAppend(a, init);
      assert (a + b)[..|a + b| - 1] == a + init && (a + b)[|a + b| - 1] == last;
      assert EnabledMenus(a + b) == EnabledMenus(a + init) + tail;
      assert EnabledMenus(b) == EnabledMenus(init) + tail;
    }
  }

  /* ---------------- the events forwarded ---------------- */

  /** What `handleKeyPressed` records, menu by menu. */
  function KeyEvents(menus: seq<Element>, keyCode: int, ms: set<Modifier>): (events: seq<Event>)
    reads menus`hasKeyHandler
    ensures |events| <= |menus|
    decreases |menus|
  {
    if menus == [] then []
    else
      var last := menus[|menus| - 1];
      KeyEvents(menus[..|menus| - 1], keyCode, ms) + if last.hasKeyHandler then [KeyPressed(last, keyCode, ms)] else []
  }

  /**
   * Every key event goes to one of the menus with exactly the key code and
   * modifiers given, and every menu with a key handler gets one.
   */
  lemma {:induction false} KeyEventsMembers(menus: seq<Element>, keyCode: int, ms: set<Modifier>, e: Event)
    ensures e in KeyEvents(menus, keyCode, ms) <==>
              e.KeyPressed? && e.menu in menus && e.menu.hasKeyHandler && e.keyCode == keyCode && e.modifiers == ms
    decreases |menus|
  {
    if menus != [] {
      var init, last := menus[..|menus| - 1], menus[|menus| - 1];
      KeyEventsMembers(init, keyCode, ms, e);
      assert menus == init + [last];
    }
  }

  /** The children of the menus, which the scroll and drag handlers hit-test. */
  ghost function MenuChildren(menus: seq<Element>): set<Element>
    reads menus`children
  {
    set x, c | x in menus && c in x.children :: c
  }

  /** What `handleScroll` records, menu by menu. */
  function ScrollEvents(menus: seq<Element>, mouseX: real, mouseY: real, amount: real): (events: seq<Event>)
    reads menus`hasScrollHandler, menus`children, MenuChildren(menus)
    ensures |events| <= |menus|
    decreases |menus|
  {
    if menus == [] then []
    else
      var last := menus[|menus| - 1];
      var kids := last.children;
      assert forall c :: c in kids ==> c in MenuChildren(menus);
      ScrollEvents(menus[..|menus| - 1], mouseX, mouseY, amount) +
        if last.hasScrollHandler then [Scrolled(last, FirstHovered(kids, mouseX, mouseY), amount)] else []
  }

  /**
   * Every scroll event goes to one of the menus with the amount given and
   * that menu's first hovered child, and every menu with a scroll handler
   * gets one.
   */
  lemma {:induction false} ScrollEventsMembers(menus: seq<Element>, mouseX: real, mouseY: real, amount: real, e: Event)
    ensures e in ScrollEvents(menus, mouseX, mouseY, amount) <==>
              e.Scrolled? && e.menu in menus && e.menu.hasScrollHandler && e.amount == amount &&
              e.hoveredElement == FirstHovered(e.menu.children, mouseX, mouseY)
    decreases |menus|
  {
    if menus != [] {
      var init, last := menus[..|menus| - 1], menus[|menus| - 1];
      ScrollEventsMembers(init, mouseX, mouseY, amount, e);
      assert menus == init + [last];
    }
  }

  /** What `handleDrag` records, menu by menu: the drag on the element each menu is locked onto. */
  function DragEvents(menus: seq<Element>, mouseX: real, mouseY: real, dx: real, dy: real): (events: seq<Event>)
    reads menus`hasDragHandler, menus`draggingElement, menus`children, MenuChildren(menus)
    ensures |events| <= |menus|
    decreases |menus|
  {
    if menus == [] then []
    else
      var last := menus[|menus| - 1];
      var kids := last.children;
      assert forall c :: c in kids ==> c in MenuChildren(menus);
      var target := last.DragTarget(mouseX, mouseY);
      DragEvents(menus[..|menus| - 1], mouseX, mouseY, dx, dy) +
        if target != null && last.hasDragHandler then [Dragged(last, target, mouseX, mouseY, dx, dy)] else []
  }

  /**
   * Every drag event goes to one of the menus, on the element that menu's
   * drag reaches, with the position and deltas given; every menu with a drag
   * handler whose drag reaches an element gets one.
   */
  lemma {:induction false} DragEventsMembers(menus: seq<Element>, mouseX: real, mouseY: real, dx: real, dy: real, e: Event)
    ensures e in DragEvents(menus, mouseX, mouseY, dx, dy) <==>
              e.Dragged? && e.menu in menus && e.menu.hasDragHandler &&
              e.dragged == e.menu.DragTarget(mouseX, mouseY) &&
              e.mouseX == mouseX && e.mouseY == mouseY && e.dx == dx && e.dy == dy
    decreases |menus|
  {
    if menus != [] {
      var init, last := menus[..|menus| - 1], menus[|menus| - 1];
      DragEventsMembers(init, mouseX, mouseY, dx, dy, e);
      assert menus == init + [last];
    }
  }

  /* ---------------- one more root ---------------- */

  lemma EnabledMenusSnoc(roots: seq<Element>, i: nat)
    requires i < |roots|
    ensures EnabledMenus(roots[..i + 1]) == EnabledMenus(roots[..i]) + if Receives(roots[i]) then [roots[i]] else []
  {
    assert roots[..i + 1][..i] == roots[..i];
  }

  lemma KeyStep(roots: seq<Element>, i: nat, keyCode: int, ms: set<Modifier>)
    requires i < |roots|
    ensures KeyEvents(EnabledMenus(roots[..i + 1]), keyCode, ms) == KeyEvents(EnabledMenus(roots[..i]), keyCode, ms) +
              if Receives(roots[i]) && roots[i].hasKeyHandler then [KeyPressed(roots[i], keyCode, ms)] else []
  {
    EnabledMenusSnoc(roots, i);
    var m := EnabledMenus(roots[..i]);
    if Receives(roots[i]) {
      assert (m + [roots[i]])[..|m|] == m;
    } else {
      assert m + [] == m;
    }
  }

  lemma ScrollStep(roots: seq<Element>, i: nat, mouseX: real, mouseY: real, amount: real)
    requires i < |roots|
    ensures ScrollEvents(EnabledMenus(roots[..i + 1]), mouseX, mouseY, amount)
            == ScrollEvents(EnabledMenus(roots[..i]), mouseX, mouseY, amount) +
              if Receives(roots[i]) && roots[i].hasScrollHandler
              then [Scrolled(roots[i], FirstHovered(roots[i].children, mouseX, mouseY), amount)] else []
  {
    EnabledMenusSnoc(roots, i);
    var m := EnabledMenus(roots[..i]);
    if Receives(roots[i]) {
      assert (m + [roots[i]])[..|m|] == m;
    } else {
      assert m + [] == m;
    }
  }

  lemma DragStep(roots: seq<Element>, i: nat, mouseX: real, mouseY: real, dx: real, dy: real)
    requires i < |roots|
    ensures DragEvents(EnabledMenus(roots[..i + 1]), mouseX, mouseY, dx, dy)
            == DragEvents(EnabledMenus(roots[..i]), mouseX, mouseY, dx, dy) +
              var target := roots[i].DragTarget(mouseX, mouseY);
              if Receives(roots[i]) && target != null && roots[i].hasDragHandler
              then [Dragged(roots[i], target, mouseX, mouseY, dx, dy)] else []
  {
    EnabledMenusSnoc(roots, i);
    var m := EnabledMenus(roots[..i]);
    if Receives(roots[i]) {
      assert (m + [roots[i]])[..|m|] == m;
    } else {
      assert m + [] == m;
    }
  }

  /* ---------------- the overlay's input methods ---------------- */

  /**
   * `shouldCloseOnEsc`: hides every enabled context menu among the roots,
   * testing each root when it is reached. Afterwards no root is an enabled
   * menu, and the HUD and chat are restored exactly when one was.
   */
  method ShouldCloseOnEsc(manager: UIManager, host: Host)
    modifies (set x | x in manager.elements && x.kind == Menu)`enabled, host`chat, host`hudHidden
    ensures forall x :: x in manager.elements ==> !Receives(x)
    ensures (exists x :: x in manager.elements && old(Receives(x))) ==> !host.hudHidden && host.chat == ChatFull
    ensures (forall x :: x in manager.elements ==> !old(Receives(x))) ==>
              host.hudHidden == old(host.hudHidden) && host.chat == old(host.chat)
  {
    var roots := manager.Elements();
    for i := 0 to |roots|
      invariant forall y :: y in roots && y.kind == Menu ==> (y.enabled <==> old(y.enabled) && y !in roots[..i])
      invariant (exists j :: 0 <= j < i && old(Receives(roots[j]))) ==> !host.hudHidden && host.chat == ChatFull
      invariant (forall j :: 0 <= j < i ==> !old(Receives(roots[j]))) ==>
                  host.hudHidden == old(host.hudHidden) && host.chat == old(host.chat)
    {
      var x := roots[i];
      if x.kind == Menu && x.enabled {
        x.Hide(host);
      } else if x.kind == Menu && old(x.enabled) {
        assert x in roots[..i];
      }
      assert roots[..i + 1] == roots[..i] + [x];
    }
    assert roots[..|roots|] == roots;
  }

  /**
   * `keyPressed`: decodes the modifier bitmask once and hands the key code
   * and the decoded set to every enabled root menu, in root order.
   */
  method OnKeyPressed(manager: UIManager, keyCode: int, modifiers: int, host: Host)
    requires IsInt32(modifiers)
    modifies host`events
    ensures host.events == old(host.events) +
              old(KeyEvents(EnabledMenus(manager.elements), keyCode, DecodeModifiers(modifiers)))
  {
    var ms := DecodeModifiers(modifiers);
    var roots := manager.Elements();
    forall i | 0 <= i < |roots|
      ensures KeyEvents(EnabledMenus(roots[..i + 1]), keyCode, ms) == KeyEvents(EnabledMenus(roots[..i]), keyCode, ms) +
                if Receives(roots[i]) && roots[i].hasKeyHandler then [KeyPressed(roots[i], keyCode, ms)] else []
    {
      KeyStep(roots, i, keyCode, ms);
    }
    for i := 0 to |roots|
      invariant host.events == old(host.events) + old(KeyEvents(EnabledMenus(roots[..i]), keyCode, ms))
    {
      var x := roots[i];
      if x.kind == Menu && x.enabled {
        x.HandleKeyPressed(keyCode, ms, host);
      }
    }
    assert roots[..|roots|] == roots;
  }

  /** `mouseScrolled`: hands the position and amount to every enabled root menu, in root order. */
  method OnMouseScrolled(manager: UIManager, mouseX: real, mouseY: real, amount: real, host: Host)
    modifies host`events
    ensures host.events == old(host.events) + old(ScrollEvents(EnabledMenus(manager.elements), mouseX, mouseY, amount))
  {
    var roots := manager.Elements();
    ghost var plans := ScrollPlans(roots, mouseX, mouseY);
    PlannedScrollEvents(roots, mouseX, mouseY, amount);
    ScrollAll(roots, mouseX, mouseY, amount, host, plans);
  }

  /** What a scroll does at one root, read in one state. */
  datatype ScrollPlan = ScrollPlan(root: Element, receives: bool, handler: bool, hovered: Element?)

  /** The plan of each root, in root order. */
  function ScrollPlans(roots: seq<Element>, mouseX: real, mouseY: real): (ps: seq<ScrollPlan>)
    reads roots`enabled, roots`hasScrollHandler, roots`children, MenuChildren(roots)
    ensures |ps| == |roots|
    ensures forall j :: 0 <= j < |roots| ==>
              ps[j] == ScrollPlan(roots[j], Receives(roots[j]), roots[j].hasScrollHandler,
                                  FirstHovered(roots[j].children, mouseX, mouseY))
    decreases |roots|
  {
    if roots == [] then []
    else
      var last := roots[|roots| - 1];
      var kids := last.children;
      assert forall c :: c in kids ==> c in MenuChildren(roots);
      ScrollPlans(roots[..|roots| - 1], mouseX, mouseY) +
        [ScrollPlan(last, Receives(last), last.hasScrollHandler, FirstHovered(kids, mouseX, mouseY))]
  }

  /** The event one root's scroll records, if any. */
  function PlannedScroll(p: ScrollPlan, amount: real): seq<Event> {
    if p.receives && p.handler then [Scrolled(p.root, p.hovered, amount)] else []
  }

  /** The events the roots' scrolls record, in root order. */
  function PlannedScrolls(ps: seq<ScrollPlan>, amount: real): (events: seq<Event>)
    ensures |events| <= |ps|
    decreases |ps|
  {
    if ps == [] then []
    else PlannedScrolls(ps[..|ps| - 1], amount) + PlannedScroll(ps[|ps| - 1], amount)
  }

  lemma PlannedScrollSnoc(ps: seq<ScrollPlan>, i: nat, amount: real)
    requires i < |ps|
    ensures PlannedScrolls(ps[..i + 1], amount) == PlannedScrolls(ps[..i], amount) + PlannedScroll(ps[i], amount)
  {
    assert ps[..i + 1][..i] == ps[..i];
  }

  /** Replaying the plans records what `handleContextMenus` with `handleScroll` records. */
  lemma {:induction false} PlannedScrollEvents(roots: seq<Element>, mouseX: real, mouseY: real, amount: real)
    ensures PlannedScrolls(ScrollPlans(roots, mouseX, mouseY), amount)
            == ScrollEvents(EnabledMenus(roots), mouseX, mouseY, amount)
    decreases |roots|
  {
    if roots != [] {
      var init := roots[..|roots| - 1];
      var ps := ScrollPlans(roots, mouseX, mouseY);
      PlannedScrollEvents(init, mouseX, mouseY, amount);
      assert ps[..|ps| - 1] == ScrollPlans(init, mouseX, mouseY);
      ScrollStep(roots, |roots| - 1, mouseX, mouseY, amount);
      assert roots[..|roots|] == roots;
    }
  }

  /** The loop of `mouseScrolled`, proved against the roots' plans read before it. */
  method ScrollAll(roots: seq<Element>, mouseX: real, mouseY: real, amount: real, host: Host, ghost plans: seq<ScrollPlan>)
    requires |plans| == |roots|
    requires forall j :: 0 <= j < |roots| ==>
               plans[j] == ScrollPlan(roots[j], Receives(roots[j]), roots[j].hasScrollHandler,
                                      FirstHovered(roots[j].children, mouseX, mouseY))
    modifies host`events
    ensures host.events == old(host.events) + PlannedScrolls(plans, amount)
  {
    for i := 0 to |roots|
      invariant host.events == old(host.events) + PlannedScrolls(plans[..i], amount)
    {
      ScrollRoot(roots[i], mouseX, mouseY, amount, host, plans[i]);
      PlannedScrollSnoc(plans, i, amount);
      AppendAssoc(old(host.events), PlannedScrolls(plans[..i], amount), PlannedScroll(plans[i], amount));
    }
    assert plans[..|roots|] == plans;
  }

  /** The loop body of `mouseScrolled` for one root: `handleScroll` when it is an enabled menu. */
  method ScrollRoot(x: Element, mouseX: real, mouseY: real, amount: real, host: Host, ghost plan: ScrollPlan)
    requires plan.root == x && plan.receives == Receives(x) && plan.handler == x.hasScrollHandler
    requires plan.hovered == FirstHovered(x.children, mouseX, mouseY)
    modifies host`events
    ensures host.events == old(host.events) + PlannedScroll(plan, amount)
  {
    if x.kind == Menu && x.enabled {
      x.HandleScroll(mouseX, mouseY, amount, host);
    }
  }

  /** What a drag does at one root, read in one state: the pure snapshot `mouseDragged` is proved against. */
  datatype DragPlan = DragPlan(root: Element, receives: bool, handler: bool, lock: Element?, target: Element?)

  /** The plan of each root, in root order. */
  function DragPlans(roots: seq<Element>, mouseX: real, mouseY: real): (ps: seq<DragPlan>)
    reads roots`enabled, roots`hasDragHandler, roots`draggingElement, roots`children, MenuChildren(roots)
    ensures |ps| == |roots|
    ensures forall j :: 0 <= j < |roots| ==>
              ps[j] == DragPlan(roots[j], Receives(roots[j]), roots[j].hasDragHandler, roots[j].draggingElement,
                               roots[j].DragTarget(mouseX, mouseY))
    decreases |roots|
  {
    if roots == [] then []
    else
      var last := roots[|roots| - 1];
      var kids := last.children;
      assert forall c :: c in kids ==> c in MenuChildren(roots);
      DragPlans(roots[..|roots| - 1], mouseX, mouseY) +
        [DragPlan(last, Receives(last), last.hasDragHandler, last.draggingElement, last.DragTarget(mouseX, mouseY))]
  }

  /** The event one root's drag records, if any. */
  function PlannedEvent(p: DragPlan, mouseX: real, mouseY: real, dx: real, dy: real): seq<Event> {
    if p.receives && p.target != null && p.handler then [Dragged(p.root, p.target, mouseX, mouseY, dx, dy)] else []
  }

  /** The events the roots' drags record, in root order. */
  function PlannedEvents(ps: seq<DragPlan>, mouseX: real, mouseY: real, dx: real, dy: real): (events: seq<Event>)
    ensures |events| <= |ps|
    decreases |ps|
  {
    if ps == [] then []
    else PlannedEvents(ps[..|ps| - 1], mouseX, mouseY, dx, dy) + PlannedEvent(ps[|ps| - 1], mouseX, mouseY, dx, dy)
  }

  lemma PlannedSnoc(ps: seq<DragPlan>, i: nat, mouseX: real, mouseY: real, dx: real, dy: real)
    requires i < |ps|
    ensures PlannedEvents(ps[..i + 1], mouseX, mouseY, dx, dy)
            == PlannedEvents(ps[..i], mouseX, mouseY, dx, dy) + PlannedEvent(ps[i], mouseX, mouseY, dx, dy)
  {
    assert ps[..i + 1][..i] == ps[..i];
  }

  lemma SnocPrefix(roots: seq<Element>, i: nat)
    requires i < |roots|
    ensures roots[..i + 1] == roots[..i] + [roots[i]]
  {
  }

  /** Replaying the plans records what `handleContextMenus` with `handleDrag` records. */
  lemma {:induction false} PlannedDragEvents(roots: seq<Element>, mouseX: real, mouseY: real, dx: real, dy: real)
    ensures PlannedEvents(DragPlans(roots, mouseX, mouseY), mouseX, mouseY, dx, dy)
            == DragEvents(EnabledMenus(roots), mouseX, mouseY, dx, dy)
    decreases |roots|
  {
    if roots != [] {
      var init := roots[..|roots| - 1];
      var ps := DragPlans(roots, mouseX, mouseY);
      PlannedDragEvents(init, mouseX, mouseY, dx, dy);
      assert ps[..|ps| - 1] == DragPlans(init, mouseX, mouseY);
      DragStep(roots, |roots| - 1, mouseX, mouseY, dx, dy);
      assert roots[..|roots|] == roots;
    }
  }

  /**
   * `mouseDragged`: hands the position and deltas, without the button, to
   * every enabled root menu, in root order. Each one ends locked onto the
   * element its drag reached; every other root keeps its lock.
   */
  method OnMouseDragged(manager: UIManager, mouseX: real, mouseY: real, button: int, dx: real, dy: real, host: Host)
    modifies (set x | x in manager.elements && x.kind == Menu)`draggingElement, host`events
    ensures host.events == old(host.events) + old(DragEvents(EnabledMenus(manager.elements), mouseX, mouseY, dx, dy))
    ensures forall j :: 0 <= j < |manager.elements| ==>
              manager.elements[j].draggingElement ==
              old(if Receives(manager.elements[j]) then manager.elements[j].DragTarget(mouseX, mouseY)
                  else manager.elements[j].draggingElement)
  {
    var roots := manager.Elements();
    ghost var plans := DragPlans(roots, mouseX, mouseY);
    PlannedDragEvents(roots, mouseX, mouseY, dx, dy);
    DragAll(roots, mouseX, mouseY, dx, dy, host, plans);
  }

  /** The loop of `mouseDragged`, proved against the roots' plans read before it. */
  method DragAll(roots: seq<Element>, mouseX: real, mouseY: real, dx: real, dy: real, host: Host, ghost plans: seq<DragPlan>)
    requires |plans| == |roots|
    requires forall j :: 0 <= j < |roots| ==>
               plans[j] == DragPlan(roots[j], Receives(roots[j]), roots[j].hasDragHandler, roots[j].draggingElement,
                                    roots[j].DragTarget(mouseX, mouseY))
    modifies (set x | x in roots && x.kind == Menu)`draggingElement, host`events
    ensures host.events == old(host.events) + PlannedEvents(plans, mouseX, mouseY, dx, dy)
    ensures forall j :: 0 <= j < |roots| ==>
              roots[j].draggingElement == if plans[j].receives then plans[j].target else plans[j].lock
  {
    for i := 0 to |roots|
      invariant host.events == old(host.events) + PlannedEvents(plans[..i], mouseX, mouseY, dx, dy)
      invariant forall j :: 0 <= j < |roots| ==>
                  roots[j].draggingElement == if plans[j].receives && roots[j] in roots[..i] then plans[j].target
                                              else plans[j].lock
    {
      var x := roots[i];
      label Before:
      if x.kind == Menu {
        DragRoot(x, mouseX, mouseY, dx, dy, host, plans[i]);
      }
      SnocPrefix(roots, i);
      forall j | 0 <= j < |roots|
        ensures roots[j].draggingElement == if plans[j].receives && roots[j] in roots[..i + 1] then plans[j].target
                                            else plans[j].lock
      {
        var y := roots[j];
        assert old@Before(y.draggingElement) == if plans[j].receives && y in roots[..i] then plans[j].target
                                                 else plans[j].lock;
        if y == x {
          assert plans[j] == plans[i];
        } else {
          assert y in roots[..i + 1] <==> y in roots[..i];
        }
      }
      PlannedSnoc(plans, i, mouseX, mouseY, dx, dy);
      AppendAssoc(old(host.events), PlannedEvents(plans[..i], mouseX, mouseY, dx, dy), PlannedEvent(plans[i], mouseX, mouseY, dx, dy));
    }
    assert plans[..|roots|] == plans;
    assert forall j :: 0 <= j < |roots| ==> roots[j] in roots[..|roots|];
  }

  /** The loop body of `mouseDragged` for a root menu: `handleDrag` when it is enabled. */
  method DragRoot(x: Element, mouseX: real, mouseY: real, dx: real, dy: real, host: Host, ghost plan: DragPlan)
    requires x.kind == Menu
    requires plan.root == x && plan.receives == Receives(x) && plan.handler == x.hasDragHandler
    requires plan.target == x.DragTarget(mouseX, mouseY)
    modifies x`draggingElement, host`events
    ensures host.events == old(host.events) + PlannedEvent(plan, mouseX, mouseY, dx, dy)
    ensures x.draggingElement == if plan.receives then plan.target else old(x.draggingElement)
  {
    if x.enabled {
      x.HandleDrag(mouseX, mouseY, dx, dy, host);
    }
  }
}
