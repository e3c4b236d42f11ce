/**
 * The scene manager (UIManager.kt): the list of root elements, the mouse
 * update that walks every tree depth-first in pre-order, and the render
 * pass over the roots.
 *
 * The update is specified by its call trace: the hover and click calls it
 * makes, in order, and the state (hover latches and recorded handler
 * invocations) obtained by replaying that trace one call at a time.
 */
module Manager {
  import opened Geometry
  import opened Input
  import opened Lists
  import opened Drawing
  import opened Elements

  /** One call `updateElement` makes on an element. */
  datatype Call =
    | HoverCall(element: Element)
    | ClickCall(element: Element, button: MouseButton, pressed: bool)

  /* ---------------- what an update reads ---------------- */

  /**
   * What an update reads of an element and never writes: the `interactable`
   * getter, the hit test at the mouse position, whether the two handlers are
   * set, and the child list.
   */
  datatype View = View(interactable: bool, hovered: bool, hasHoverHandler: bool, hasClickHandler: bool,
                       children: seq<Element>)

  /** The views of all elements for an update at (mouseX, mouseY). */
  ghost function Views(all: set<Element>, host: Host, mouseX: real, mouseY: real): (m: map<Element, View>)
    reads all`interactable, all`renderLocation, all`offset, all`size, all`hasHoverHandler, all`hasClickHandler
    reads all`children, host`interactionAllowed
    ensures m.Keys == all
  {
    map x | x in all :: View(x.IsInteractable(host), x.IsHovered(mouseX, mouseY), x.hasHoverHandler,
                             x.hasClickHandler, x.children)
  }

  /** Every child of a viewed element is viewed and ranks below its parent: the trees are finite. */
  ghost predicate Closed(views: map<Element, View>) {
    forall x, i :: x in views && 0 <= i < |views[x].children| ==>
      views[x].children[i] in views && views[x].children[i].rank < x.rank
  }

  /** A forest of elements gives closed views. */
  lemma ForestClosed(all: set<Element>, host: Host, mouseX: real, mouseY: real)
    requires Forest(all)
    ensures Closed(Views(all, host, mouseX, mouseY))
  {
  }

  /* ---------------- the traversal order ---------------- */

  /**
   * The elements `updateElement` is called on, in call order, when it is
   * called on x: x, then the subtrees of its children in list order. There is
   * no `enabled` or `interactable` test, so every node is reached.
   */
  ghost function Subtree(views: map<Element, View>, x: Element): (order: seq<Element>)
    requires x in views && Closed(views)
    decreases x.rank, 1
    ensures |order| >= 1 && order[0] == x
  {
    [x] + if IsParent(x.kind) then Walk(views, views[x].children, x.rank) else []
  }

  /** The subtrees of a list of siblings, in list order. */
  ghost function Walk(views: map<Element, View>, es: seq<Element>, bound: nat): (order: seq<Element>)
    requires Closed(views) && forall i :: 0 <= i < |es| ==> es[i] in views && es[i].rank < bound
    decreases bound, 0, |es|
    ensures forall i :: 0 <= i < |es| ==> es[i] in order
  {
    if es == [] then [] else Walk(views, es[..|es| - 1], bound) + Subtree(views, es[|es| - 1])
  }

  /** The subtrees of the roots, in list order. */
  ghost function Preorder(views: map<Element, View>, roots: seq<Element>): (order: seq<Element>)
    requires Closed(views) && forall i :: 0 <= i < |roots| ==> roots[i] in views
    decreases |roots|
    ensures forall i :: 0 <= i < |roots| ==> roots[i] in order
  {
    if roots == [] then [] else Preorder(views, roots[..|roots| - 1]) + Subtree(views, roots[|roots| - 1])
  }

  /** An element is in the walk of a list exactly when it is in the subtree of one of its entries. */
  lemma {:induction false} WalkMember(views: map<Element, View>, es: seq<Element>, bound: nat, y: Element)
    requires Closed(views) && forall i :: 0 <= i < |es| ==> es[i] in views && es[i].rank < bound
    ensures y in Walk(views, es, bound) <==> exists k :: 0 <= k < |es| && y in Subtree(views, es[k])
    decreases |es|
  {
    if es != [] {
      var init, last := es[..|es| - 1], es[|es| - 1];
      WalkMember(views, init, bound, y);
      assert Walk(views, es, bound) == Walk(views, init, bound) + Subtree(views, last);
      if y in Walk(views, init, bound) {
        var k :| 0 <= k < |init| && y in Subtree(views, init[k]);
        assert es[k] == init[k];
      } else if y in Subtree(views, last) {
        assert y in Subtree(views, es[|es| - 1]);
      } else {
        forall k | 0 <= k < |es|
          ensures y !in Subtree(views, es[k])
        {
          if k < |init| {
            assert init[k] == es[k];
          }
        }
      }
    }
  }

  /** Likewise for the roots. */
  lemma {:induction false} PreorderMember(views: map<Element, View>, roots: seq<Element>, y: Element)
    requires Closed(views) && forall i :: 0 <= i < |roots| ==> roots[i] in views
    ensures y in Preorder(views, roots) <==> exists k :: 0 <= k < |roots| && y in Subtree(views, roots[k])
    decreases |roots|
  {
    if roots != [] {
      var init, last := roots[..|roots| - 1], roots[|roots| - 1];
      PreorderMember(views, init, y);
      assert Preorder(views, roots) == Preorder(views, init) + Subtree(views, last);
      if y in Preorder(views, init) {
        var k :| 0 <= k < |init| && y in Subtree(views, init[k]);
        assert roots[k] == init[k];
      } else if y in Subtree(views, last) {
        assert y in Subtree(views, roots[|roots| - 1]);
      } else {
        forall k | 0 <= k < |roots|
          ensures y !in Subtree(views, roots[k])
        {
          if k < |init| {
            assert init[k] == roots[k];
          }
        }
      }
    }
  }

  /**
   * The subtree is closed under children: every child of a composite that
   * the traversal reaches is reached too, whatever the composite's state.
   */
  lemma {:induction false} SubtreeClosed(views: map<Element, View>, x: Element, y: Element, c: Element)
    requires x in views && y in views && Closed(views)
    requires y in Subtree(views, x) && IsParent(y.kind) && c in views[y].children
    ensures c in Subtree(views, x)
    decreases x.rank
  {
    if y == x {
      WalkMember(views, views[x].children, x.rank, c);
    } else {
      WalkMember(views, views[x].children, x.rank, y);
      var k :| 0 <= k < |views[x].children| && y in Subtree(views, views[x].children[k]);
      SubtreeClosed(views, views[x].children[k], y, c);
      WalkMember(views, views[x].children, x.rank, c);
    }
  }

  /** Every root, and every child of a composite reached, is reached by the traversal of the roots. */
  lemma PreorderCoversForest(views: map<Element, View>, roots: seq<Element>, y: Element, c: Element)
    requires Closed(views) && forall i :: 0 <= i < |roots| ==> roots[i] in views
    ensures forall i :: 0 <= i < |roots| ==> roots[i] in Preorder(views, roots)
    ensures y in Preorder(views, roots) && y in views && IsParent(y.kind) && c in views[y].children ==>
              c in Preorder(views, roots)
  {
    forall i | 0 <= i < |roots|
      ensures roots[i] in Preorder(views, roots)
    {
      PreorderMember(views, roots, roots[i]);
    }
    if y in Preorder(views, roots) && y in views && IsParent(y.kind) && c in views[y].children {
      PreorderMember(views, roots, y);
      var k :| 0 <= k < |roots| && y in Subtree(views, roots[k]);
      SubtreeClosed(views, roots[k], y, c);
      PreorderMember(views, roots, c);
    }
  }

  /* ---------------- the call trace ---------------- */

  /** Per element of the order: hover, then the left click, then the right click. */
  function UpdateCalls(order: seq<Element>, isLeftTurn: bool, isRightTurn: bool): (calls: seq<Call>)
    ensures |calls| == 3 * |order|
    ensures forall i :: 0 <= i < |order| ==>
              calls[3 * i] == HoverCall(order[i]) &&
              calls[3 * i + 1] == ClickCall(order[i], Left, isLeftTurn) &&
              calls[3 * i + 2] == ClickCall(order[i], Right, isRightTurn)
    decreases |order|
  {
    if order == [] then []
    else
      var init := order[..|order| - 1];
      var last := order[|order| - 1];
      var calls := UpdateCalls(init, isLeftTurn, isRightTurn)
                   + [HoverCall(last), ClickCall(last, Left, isLeftTurn), ClickCall(last, Right, isRightTurn)];
      assert forall i :: 0 <= i < |init| ==> order[i] == init[i];
      calls
  }

  /** The trace of a concatenation is the concatenation of the traces. */
  lemma {:induction false} UpdateCallsAppend(a: seq<Element>, b: seq<Element>, isLeftTurn: bool, isRightTurn: bool)
    ensures UpdateCalls(a + b, isLeftTurn, isRightTurn) == UpdateCalls(a, isLeftTurn, isRightTurn) + UpdateCalls(b, isLeftTurn, isRightTurn)
  {
    var l, r := UpdateCalls(a + b, isLeftTurn, isRightTurn), UpdateCalls(a, isLeftTurn, isRightTurn) + UpdateCalls(b, isLeftTurn, isRightTurn);
    forall j | 0 <= j < |l|
      ensures l[j] == r[j]
    {
      var i := j / 3;
      assert j == 3 * i + j % 3;
      if i < |a| {
        assert (a + b)[i] == a[i];
      } else {
        assert (a + b)[i] == b[i - |a|];
        assert j - 3 * |a| == 3 * (i - |a|) + j % 3;
      }
    }
  }

  /** How many hover calls a trace holds. */
  function HoverCount(calls: seq<Call>): (n: nat)
    ensures n <= |calls|
    decreases |calls|
  {
    if calls == [] then 0
    else (if calls[0].HoverCall? then 1 else 0) + HoverCount(calls[1..])
  }

  lemma {:induction false} HoverCountAppend(a: seq<Call>, b: seq<Call>)
    ensures HoverCount(a + b) == HoverCount(a) + HoverCount(b)
    decreases |a|
  {
    if a != [] {
      assert (a + b)[1..] == a[1..] + b;
      HoverCountAppend(a[1..], b);
    } else {
      assert a + b == b;
    }
  }

  /** One update makes exactly one hover call per entry of the order, duplicates counted per occurrence. */
  lemma {:induction false} OneHoverPerNode(order: seq<Element>, isLeftTurn: bool, isRightTurn: bool)
    ensures HoverCount(UpdateCalls(order, isLeftTurn, isRightTurn)) == |order|
    decreases |order|
  {
    if order != [] {
      var init := order[..|order| - 1];
      var last := order[|order| - 1];
      var three := [HoverCall(last), ClickCall(last, Left, isLeftTurn), ClickCall(last, Right, isRightTurn)];
      OneHoverPerNode(init, isLeftTurn, isRightTurn);
      HoverCountAppend(UpdateCalls(init, isLeftTurn, isRightTurn), three);
      assert three[1..][1..][1..] == [];
      assert HoverCount(three[1..][1..]) == 0;
      assert HoverCount(three[1..]) == 0;
      assert UpdateCalls(order, isLeftTurn, isRightTurn) == UpdateCalls(init, isLeftTurn, isRightTurn) + three;
    }
  }

  /* ---------------- replaying the trace ---------------- */

  /** The state an update works on: every element's hover latch and the recorded handler invocations. */
  datatype Outcome = Outcome(latches: map<Element, bool>, events: seq<Event>)

  /** The hover latches of all elements. */
  ghost function Latches(all: set<Element>): (m: map<Element, bool>)
    reads all`wasHovered
    ensures m.Keys == all
  {
    map x | x in all :: x.wasHovered
  }

  /** The trace refers only to elements that have a view and a latch. */
  predicate Covered(views: map<Element, View>, o: Outcome, calls: seq<Call>) {
    o.latches.Keys == views.Keys && forall i :: 0 <= i < |calls| ==> calls[i].element in views
  }

  /**
   * One call of the trace, as `handleMouseHover` and `handleMouseClick`
   * perform it on the latch recorded in `o`.
   */
  function Step(views: map<Element, View>, o: Outcome, c: Call): (p: Outcome)
    requires c.element in views && o.latches.Keys == views.Keys
    ensures p.latches.Keys == views.Keys
    ensures o.events <= p.events
  {
    var e, v := c.element, views[c.element];
    match c
    case HoverCall(_) =>
      if !v.interactable || v.hovered == o.latches[e] then o
      else Outcome(o.latches[e := v.hovered], o.events + if v.hasHoverHandler then [Hovered(e, v.hovered)] else [])
    case ClickCall(_, button, pressed) =>
      if v.interactable && o.latches[e] && v.hasClickHandler
      then Outcome(o.latches, o.events + [Clicked(e, button, pressed)])
      else o
  }

  /**
   * A hover call leaves the latch of an interactable element equal to its
   * hit test; every other latch is kept, and only a hover call reports a hover.
   */
  lemma StepLatches(views: map<Element, View>, o: Outcome, c: Call)
    requires c.element in views && o.latches.Keys == views.Keys
    ensures var p := Step(views, o, c);
            (c.HoverCall? && views[c.element].interactable ==> p.latches[c.element] == views[c.element].hovered) &&
            (forall x :: x in o.latches && (x != c.element || c.ClickCall? || !views[x].interactable) ==>
               p.latches[x] == o.latches[x]) &&
            (c.ClickCall? || !views[c.element].interactable || o.latches[c.element] == views[c.element].hovered ==>
               p.latches == o.latches && forall k :: |o.events| <= k < |p.events| ==> !p.events[k].Hovered?)
  {
  }

  /** A trace replayed call by call from `o`. */
  function Replay(views: map<Element, View>, o: Outcome, calls: seq<Call>): (p: Outcome)
    requires Covered(views, o, calls)
    ensures p.latches.Keys == views.Keys
    ensures o.events <= p.events
    decreases |calls|
  {
    if calls == [] then o
    else Step(views, Replay(views, o, calls[..|calls| - 1]), calls[|calls| - 1])
  }

  /** Replaying two traces one after the other is replaying their concatenation. */
  lemma {:induction false} ReplayAppend(views: map<Element, View>, o: Outcome, a: seq<Call>, b: seq<Call>)
    requires Covered(views, o, a) && Covered(views, o, b)
    ensures Covered(views, o, a + b)
    ensures Replay(views, o, a + b) == Replay(views, Replay(views, o, a), b)
    decreases |b|
  {
    assert forall i :: 0 <= i < |a + b| ==> (a + b)[i] == if i < |a| then a[i] else b[i - |a|];
    if b == [] {
      assert a + b == a;
    } else {
      var init := b[..|b| - 1];
      ReplayAppend(views, o, a, init);
      assert (a + b)[..|a + b| - 1] == a + init;
    }
  }

  /** The trace of one element: its hover call and its two click calls, replayed one after another. */
  lemma ReplayThree(views: map<Element, View>, o: Outcome, e: Element, isLeftTurn: bool, isRightTurn: bool)
    requires e in views && o.latches.Keys == views.Keys
    ensures var calls := [HoverCall(e), ClickCall(e, Left, isLeftTurn), ClickCall(e, Right, isRightTurn)];
            calls == UpdateCalls([e], isLeftTurn, isRightTurn) && Covered(views, o, calls) &&
            Replay(views, o, calls) == Step(views, Step(views, Step(views, o, calls[0]), calls[1]), calls[2])
  {
    var calls := [HoverCall(e), ClickCall(e, Left, isLeftTurn), ClickCall(e, Right, isRightTurn)];
    assert calls[..2][..1] == calls[..1] && calls[..1][..0] == [];
    assert Replay(views, o, calls[..1]) == Step(views, o, calls[0]);
    assert Replay(views, o, calls[..2]) == Step(views, Replay(views, o, calls[..1]), calls[1]);
    assert [e][..0] == [];
  }

  /** Extending a walk by one more sibling. */
  lemma WalkSnoc(views: map<Element, View>, es: seq<Element>, bound: nat, i: nat)
    requires Closed(views) && forall j :: 0 <= j < |es| ==> es[j] in views && es[j].rank < bound
    requires i < |es|
    ensures Walk(views, es[..i + 1], bound) == Walk(views, es[..i], bound) + Subtree(views, es[i])
  {
    assert es[..i + 1][..i] == es[..i];
  }

  /** Extending a pre-order by one more root. */
  lemma PreorderSnoc(views: map<Element, View>, roots: seq<Element>, i: nat)
    requires Closed(views) && forall j :: 0 <= j < |roots| ==> roots[j] in views
    requires i < |roots|
    ensures Preorder(views, roots[..i + 1]) == Preorder(views, roots[..i]) + Subtree(views, roots[i])
  {
    assert roots[..i + 1][..i] == roots[..i];
  }

  /** Every element the trace hovers and that is interactable has its latch equal to its hit test. */
  predicate Settled(views: map<Element, View>, o: Outcome, calls: seq<Call>)
    requires Covered(views, o, calls)
  {
    forall i :: 0 <= i < |calls| && calls[i].HoverCall? && views[calls[i].element].interactable ==>
      o.latches[calls[i].element] == views[calls[i].element].hovered
  }

  /** A replay leaves the latches it touches settled. */
  lemma {:induction false} ReplaySettles(views: map<Element, View>, o: Outcome, calls: seq<Call>)
    requires Covered(views, o, calls)
    ensures Settled(views, Replay(views, o, calls), calls)
    decreases |calls|
  {
    if calls != [] {
      var init := calls[..|calls| - 1];
      ReplaySettles(views, o, init);
      StepLatches(views, Replay(views, o, init), calls[|calls| - 1]);
      forall i | 0 <= i < |calls| - 1
        ensures calls[i] == init[i]
      {
      }
    }
  }

  /** From settled latches, a replay of the same trace changes no latch and reports no hover. */
  lemma {:induction false} SettledReplayQuiet(views: map<Element, View>, o: Outcome, calls: seq<Call>)
    requires Covered(views, o, calls) && Settled(views, o, calls)
    ensures Replay(views, o, calls).latches == o.latches
    ensures var p := Replay(views, o, calls);
            forall k :: |o.events| <= k < |p.events| ==> !p.events[k].Hovered?
    decreases |calls|
  {
    if calls != [] {
      var init := calls[..|calls| - 1];
      assert Settled(views, o, init) by {
        forall i | 0 <= i < |init|
          ensures init[i] == calls[i]
        {
        }
      }
      SettledReplayQuiet(views, o, init);
      StepLatches(views, Replay(views, o, init), calls[|calls| - 1]);
    }
  }

  /**
   * Two updates in a row with the same mouse position and views: the second
   * reports no hover change and leaves every latch as the first left it.
   */
  lemma SecondUpdateQuiet(views: map<Element, View>, o: Outcome, calls: seq<Call>)
    requires Covered(views, o, calls)
    ensures var first := Replay(views, o, calls);
            var second := Replay(views, first, calls);
            second.latches == first.latches &&
            forall k :: |first.events| <= k < |second.events| ==> !second.events[k].Hovered?
  {
    ReplaySettles(views, o, calls);
    SettledReplayQuiet(views, Replay(views, o, calls), calls);
  }

  /* ---------------- render ---------------- */

  /** The elements `render` reaches through `transformAndRender` of each root, in list order; every root among them. */
  ghost function RenderForest(looks: map<Element, Look>, roots: seq<Element>): (order: seq<Element>)
    requires Drawable(looks) && forall i :: 0 <= i < |roots| ==> roots[i] in looks
    ensures |order| >= |roots|
    ensures forall i :: 0 <= i < |roots| ==> roots[i] in order
    decreases |roots|
  {
    if roots == [] then []
    else
      var front := RenderForest(looks, roots[..|roots| - 1]);
      var last := RenderSubtree(looks, roots[|roots| - 1]);
      assert forall i :: 0 <= i < |roots| - 1 ==> roots[i] == roots[..|roots| - 1][i];
      front + last
  }

  /** What `render` draws: each root's trace, laid out in the window from (0, 0), in list order. */
  ghost function ForestTrace(looks: map<Element, Look>, roots: seq<Element>, windowWidth: int, windowHeight: int): (cs: seq<Command>)
    requires Drawable(looks) && forall i :: 0 <= i < |roots| ==> roots[i] in looks
    ensures Balanced(cs)
    decreases |roots|
  {
    if roots == [] then []
    else
      var front := ForestTrace(looks, roots[..|roots| - 1], windowWidth, windowHeight);
      var last := RenderTrace(looks, roots[|roots| - 1], windowWidth, windowHeight,
                              V3(windowWidth as real, windowHeight as real, 1.0), V2(0.0, 0.0));
      NetAppend(front, last);
      front + last
  }

  /** The prefix of a root list one root longer extends the walk and the trace by that root's. */
  lemma ForestStep(looks: map<Element, Look>, roots: seq<Element>, i: nat, windowWidth: int, windowHeight: int)
    requires Drawable(looks) && i < |roots| && forall k :: 0 <= k < |roots| ==> roots[k] in looks
    ensures RenderForest(looks, roots[..i + 1]) == RenderForest(looks, roots[..i]) + RenderSubtree(looks, roots[i])
    ensures ForestTrace(looks, roots[..i + 1], windowWidth, windowHeight)
            == ForestTrace(looks, roots[..i], windowWidth, windowHeight)
               + RenderTrace(looks, roots[i], windowWidth, windowHeight,
                             V3(windowWidth as real, windowHeight as real, 1.0), V2(0.0, 0.0))
  {
    assert roots[..i + 1][..i] == roots[..i];
  }

  /** Every enabled root among the first n of the list is laid out in the window. */
  ghost predicate Placed(all: set<Element>, looks: map<Element, Look>, roots: seq<Element>, n: nat,
                         windowWidth: int, windowHeight: int)
    reads all
  {
    forall k :: 0 <= k < n && k < |roots| && roots[k] in all && roots[k] in looks && looks[roots[k]].enabled ==>
      At(roots[k].renderLocation) == Spot(looks[roots[k]], V3(windowWidth as real, windowHeight as real, 1.0), V2(0.0, 0.0))
  }

  /** With consistent back-references, the only parentless element a subtree reaches is its root. */
  lemma {:induction false} ParentlessIsRoot(looks: map<Element, Look>, x: Element, y: Element)
    requires x in looks && Drawable(looks) && Linked(looks)
    requires y in RenderSubtree(looks, x) && y in looks && looks[y].parent == null
    ensures y == x
  {
    if y != x {
      var l := looks[x];
      assert y in RenderWalk(looks, l.children, x.rank);
      WalkParented(looks, l.children, x.rank, y);
    }
  }

  /** Every element reached from siblings that have a parent has a parent. */
  lemma {:induction false} WalkParented(looks: map<Element, Look>, es: seq<Element>, bound: nat, y: Element)
    requires Drawable(looks) && Linked(looks) && forall i :: 0 <= i < |es| ==> es[i] in looks && es[i].rank < bound
    requires forall i :: 0 <= i < |es| ==> looks[es[i]].parent != null
    requires y in RenderWalk(looks, es, bound)
    ensures y in looks && looks[y].parent != null
    decreases bound, 0, |es|
  {
    if y in RenderSubtree(looks, es[0]) {
      if y != es[0] {
        var l := looks[es[0]];
        assert y in RenderWalk(looks, l.children, es[0].rank);
        WalkParented(looks, l.children, es[0].rank, y);
      }
    } else {
      WalkParented(looks, es[1..], bound, y);
    }
  }

  /* ---------------- the manager ---------------- */

  /** `UIManager`: the root elements, in the order they were added. */
  class UIManager {
    var elements: seq<Element>

    constructor ()
      ensures elements == []
    {
      elements := [];
    }

    /** `addElement`: appends, duplicates included. */
    method AddElement(e: Element)
      modifies this`elements
      ensures elements == old(elements) + [e]
    {
      elements := elements + [e];
    }

    /** `removeElement`: drops the first occurrence; an absent element leaves the list as it is. */
    method RemoveElement(e: Element)
      modifies this`elements
      ensures elements == RemoveFirst(old(elements), e)
    {
      elements := RemoveFirst(elements, e);
    }

    /** `elements()`: the root list. */
    function Elements(): (r: seq<Element>)
      reads this`elements
      ensures r == elements
    {
      elements
    }

    /**
     * `updateElement`: hover, left click and right click on the element, then
     * the same on each child of a composite, in list order. `views` is what
     * the update reads of every element; it never changes.
     */
    method UpdateElement(e: Element, mouseX: real, mouseY: real, isLeftTurn: bool, isRightTurn: bool,
                         host: Host, ghost all: set<Element>, ghost views: map<Element, View>)
      returns (ghost calls: seq<Call>)
      requires e in all && views == Views(all, host, mouseX, mouseY) && Closed(views)
      modifies all`wasHovered, host`events
      decreases e.rank, 1
      ensures views == Views(all, host, mouseX, mouseY)
      ensures calls == UpdateCalls(Subtree(views, e), isLeftTurn, isRightTurn)
      ensures Covered(views, Outcome(old(Latches(all)), old(host.events)), calls)
      ensures Outcome(Latches(all), host.events) == Replay(views, Outcome(old(Latches(all)), old(host.events)), calls)
    {
      ghost var start := Outcome(Latches(all), host.events);
      calls := UpdateSelf(e, mouseX, mouseY, isLeftTurn, isRightTurn, host, all, views);
      if IsParent(e.kind) {
        var children := e.children;
        assert children == views[e].children;
        ghost var rest := UpdateChildren(children, e.rank, mouseX, mouseY, isLeftTurn, isRightTurn, host, all, views);
        ReplayAppend(views, start, calls, rest);
        UpdateCallsAppend([e], Walk(views, views[e].children, e.rank), isLeftTurn, isRightTurn);
        calls := calls + rest;
      } else {
        assert Subtree(views, e) == [e];
      }
    }

    /** The three calls `updateElement` makes on the element itself. */
    method UpdateSelf(e: Element, mouseX: real, mouseY: real, isLeftTurn: bool, isRightTurn: bool,
                      host: Host, ghost all: set<Element>, ghost views: map<Element, View>)
      returns (ghost calls: seq<Call>)
      requires e in all && views == Views(all, host, mouseX, mouseY)
      modifies e`wasHovered, host`events
      ensures views == Views(all, host, mouseX, mouseY)
      ensures calls == UpdateCalls([e], isLeftTurn, isRightTurn)
      ensures Covered(views, Outcome(old(Latches(all)), old(host.events)), calls)
      ensures Outcome(Latches(all), host.events) == Replay(views, Outcome(old(Latches(all)), old(host.events)), calls)
    {
      ghost var start := Outcome(Latches(all), host.events);
      HoverStep(e, mouseX, mouseY, host, all, views);
      ClickStep(e, Left, isLeftTurn, host, all, views, mouseX, mouseY);
      ClickStep(e, Right, isRightTurn, host, all, views, mouseX, mouseY);
      calls := [HoverCall(e), ClickCall(e, Left, isLeftTurn), ClickCall(e, Right, isRightTurn)];
      ReplayThree(views, start, e, isLeftTurn, isRightTurn);
    }

    /** `handleMouseHover` is the hover step of the replay. */
    method HoverStep(e: Element, mouseX: real, mouseY: real, host: Host, ghost all: set<Element>,
                     ghost views: map<Element, View>)
      requires e in all && views == Views(all, host, mouseX, mouseY)
      modifies e`wasHovered, host`events
      ensures views == Views(all, host, mouseX, mouseY)
      ensures Outcome(Latches(all), host.events)
              == Step(views, Outcome(old(Latches(all)), old(host.events)), HoverCall(e))
    {
      ghost var start := Latches(all);
      e.HandleMouseHover(mouseX, mouseY, host);
      assert Latches(all) == start[e := e.wasHovered];
    }

    /** `handleMouseClick` is the click step of the replay. */
    method ClickStep(e: Element, button: MouseButton, pressed: bool, host: Host, ghost all: set<Element>,
                     ghost views: map<Element, View>, ghost mouseX: real, ghost mouseY: real)
      requires e in all && views == Views(all, host, mouseX, mouseY)
      modifies host`events
      ensures views == Views(all, host, mouseX, mouseY)
      ensures Outcome(Latches(all), host.events)
              == Step(views, Outcome(old(Latches(all)), old(host.events)), ClickCall(e, button, pressed))
    {
      e.HandleMouseClick(button, pressed, host);
    }

    /** The children loop of `updateElement`: each child, in list order. */
    method UpdateChildren(children: seq<Element>, ghost bound: nat, mouseX: real, mouseY: real,
                          isLeftTurn: bool, isRightTurn: bool,
                          host: Host, ghost all: set<Element>, ghost views: map<Element, View>)
      returns (ghost calls: seq<Call>)
      requires views == Views(all, host, mouseX, mouseY) && Closed(views)
      requires forall j :: 0 <= j < |children| ==> children[j] in views && children[j].rank < bound
      modifies all`wasHovered, host`events
      decreases bound, 0
      ensures views == Views(all, host, mouseX, mouseY)
      ensures calls == UpdateCalls(Walk(views, children, bound), isLeftTurn, isRightTurn)
      ensures Covered(views, Outcome(old(Latches(all)), old(host.events)), calls)
      ensures Outcome(Latches(all), host.events) == Replay(views, Outcome(old(Latches(all)), old(host.events)), calls)
    {
      ghost var start := Outcome(Latches(all), host.events);
      ghost var prefix: seq<Element> := [];
      calls := [];
      for i := 0 to |children|
        invariant views == Views(all, host, mouseX, mouseY)
        invariant prefix == Walk(views, children[..i], bound)
        invariant calls == UpdateCalls(prefix, isLeftTurn, isRightTurn)
        invariant Covered(views, start, calls)
        invariant Outcome(Latches(all), host.events) == Replay(views, start, calls)
      {
        var c := children[i];
        ghost var piece := UpdateElement(c, mouseX, mouseY, isLeftTurn, isRightTurn, host, all, views);
        ReplayAppend(views, start, calls, piece);
        WalkSnoc(views, children, bound, i);
        UpdateCallsAppend(prefix, Subtree(views, c), isLeftTurn, isRightTurn);
        prefix := prefix + Subtree(views, c);
        calls := calls + piece;
      }
      assert children[..|children|] == children;
    }

    /**
     * `update`: `updateElement` on every root, in list order. With `views`
     * taken before the update, the calls made are the pre-order trace and the
     * latches and recorded invocations are the trace's replay.
     */
    method Update(mouseX: real, mouseY: real, isLeftTurn: bool, isRightTurn: bool,
                  host: Host, ghost all: set<Element>, ghost views: map<Element, View>)
      returns (ghost calls: seq<Call>)
      requires Forest(all) && forall i :: 0 <= i < |elements| ==> elements[i] in all
      requires views == Views(all, host, mouseX, mouseY)
      modifies all`wasHovered, host`events
      ensures views == Views(all, host, mouseX, mouseY)
      ensures Closed(views)
      ensures calls == UpdateCalls(Preorder(views, elements), isLeftTurn, isRightTurn)
      ensures Covered(views, Outcome(old(Latches(all)), old(host.events)), calls)
      ensures Outcome(Latches(all), host.events) == Replay(views, Outcome(old(Latches(all)), old(host.events)), calls)
    {
      ForestClosed(all, host, mouseX, mouseY);
      ghost var start := Outcome(Latches(all), host.events);
      var roots := elements;
      ghost var prefix: seq<Element> := [];
      calls := [];
      for i := 0 to |roots|
        invariant views == Views(all, host, mouseX, mouseY)
        invariant prefix == Preorder(views, roots[..i])
        invariant calls == UpdateCalls(prefix, isLeftTurn, isRightTurn)
        invariant Covered(views, start, calls)
        invariant Outcome(Latches(all), host.events) == Replay(views, start, calls)
      {
        var e := roots[i];
        ghost var piece := UpdateElement(e, mouseX, mouseY, isLeftTurn, isRightTurn, host, all, views);
        ReplayAppend(views, start, calls, piece);
        PreorderSnoc(views, roots, i);
        UpdateCallsAppend(prefix, Subtree(views, e), isLeftTurn, isRightTurn);
        prefix := prefix + Subtree(views, e);
        calls := calls + piece;
      }
      assert roots[..|roots|] == roots;
    }

    /**
     * `render`: `transformAndRender` on every root, in list order. With
     * consistent back-references and parentless roots, what it draws is the
     * roots' traces in list order and every enabled root ends up laid out in
     * the window.
     */
    method Render(ctx: DrawContext, ghost all: set<Element>, ghost looks: map<Element, Look>)
      returns (ghost visited: seq<Element>, ghost drawn: seq<Command>)
      requires Forest(all) && ColorsInRange(all) && looks == Looks(all)
      requires forall i :: 0 <= i < |elements| ==> elements[i] in all
      modifies all`renderLocation, ctx
      ensures ctx.depth == old(ctx.depth) && ctx.scissorDepth == old(ctx.scissorDepth)
      ensures ctx.log == old(ctx.log) + drawn
      ensures visited == RenderForest(looks, elements)
      ensures forall x :: x in all && x !in visited ==> x.renderLocation == old(x.renderLocation)
      ensures Linked(looks) && (forall i :: 0 <= i < |elements| ==> looks[elements[i]].parent == null) ==>
                drawn == ForestTrace(looks, elements, ctx.windowWidth, ctx.windowHeight) &&
                forall i :: 0 <= i < |elements| && looks[elements[i]].enabled ==>
                  At(elements[i].renderLocation)
                  == Spot(looks[elements[i]], V3(ctx.windowWidth as real, ctx.windowHeight as real, 1.0), V2(0.0, 0.0))
    {
      LooksDrawable(all);
      ghost var rooted := Linked(looks) && (forall i :: 0 <= i < |elements| ==> looks[elements[i]].parent == null);
      var roots := elements;
      assert roots[..|roots|] == roots;
      visited, drawn := [], [];
      for i := 0 to |roots|
        invariant ctx.depth == old(ctx.depth) && ctx.scissorDepth == old(ctx.scissorDepth)
        invariant ctx.log == old(ctx.log) + drawn
        invariant Looks(all) == looks
        invariant visited == RenderForest(looks, roots[..i])
        invariant forall x :: x in all && x !in visited ==> x.renderLocation == old(x.renderLocation)
        invariant rooted ==> drawn == ForestTrace(looks, roots[..i], ctx.windowWidth, ctx.windowHeight)
        invariant rooted ==> Placed(all, looks, roots, i, ctx.windowWidth, ctx.windowHeight)
      {
        ForestStep(looks, roots, i, ctx.windowWidth, ctx.windowHeight);
        var v, piece := RenderRoot(roots, i, rooted, ctx, all, looks);
        AppendAssoc(old(ctx.log), drawn, piece);
        visited, drawn := visited + v, drawn + piece;
      }
    }

    /** One step of `render`: `transformAndRender` on the root at index i, laid out in the window. */
    method RenderRoot(roots: seq<Element>, i: nat, ghost rooted: bool, ctx: DrawContext, ghost all: set<Element>, ghost looks: map<Element, Look>)
      returns (ghost visited: seq<Element>, ghost drawn: seq<Command>)
      requires i < |roots| && (forall k :: 0 <= k < |roots| ==> roots[k] in all)
      requires looks == Looks(all) && Drawable(looks)
      requires rooted ==> Linked(looks) && forall k :: 0 <= k < |roots| ==> looks[roots[k]].parent == null
      modifies all`renderLocation, ctx
      ensures ctx.depth == old(ctx.depth) && ctx.scissorDepth == old(ctx.scissorDepth)
      ensures ctx.log == old(ctx.log) + drawn
      ensures Looks(all) == looks
      ensures visited == RenderSubtree(looks, roots[i])
      ensures forall x :: x in all && x !in visited ==> x.renderLocation == old(x.renderLocation)
      ensures rooted ==>
                drawn == RenderTrace(looks, roots[i], ctx.windowWidth, ctx.windowHeight,
                                     V3(ctx.windowWidth as real, ctx.windowHeight as real, 1.0), V2(0.0, 0.0))
      ensures rooted && old(Placed(all, looks, roots, i, ctx.windowWidth, ctx.windowHeight)) ==>
                Placed(all, looks, roots, i + 1, ctx.windowWidth, ctx.windowHeight)
    {
      var e := roots[i];
      assert looks[e].parent == e.lastParent;
      if rooted {
        forall k | 0 <= k < i && roots[k] in RenderSubtree(looks, e)
          ensures roots[k] == e
        {
          ParentlessIsRoot(looks, e, roots[k]);
        }
      }
      ghost var inner;
      visited, drawn, inner := e.TransformAndRender(ctx, all, looks);
    }
  }
}
