/**
 * The host's draw context, reduced to what the engine observes of it: the
 * depth of the transform (matrix) stack, the depth of the scissor stack, the
 * scaled window size and the log of commands it was given.
 */
module Drawing {

  /** A texture identifier (`Identifier`). */
  datatype TextureId = TextureId(path: string)

  /** One call made on the draw context, with the arguments as passed. */
  datatype Command =
    | PushMatrix
    | PopMatrix
    | Translate(dx: real, dy: real, dz: real)
    | RotateZ(degrees: real)
    | Fill(x1: int, y1: int, x2: int, y2: int, argb: int)
    | DrawTexture(texture: TextureId, x: int, y: int, width: int, height: int, u: real, v: real,
                  regionWidth: int, regionHeight: int, textureWidth: int, textureHeight: int)
    | DrawText(text: string, x: int, y: int, argb: int, shadow: bool)
    | EnableScissor(a: int, b: int, c: int, d: int)
    | DisableScissor
      /** One of the fills of a rounded corner; its coordinates come from cos/sin of the segment's angle. */
    | CornerSegment(centerX: int, centerY: int, radius: int, startAngle: int, segment: nat, argb: int)

  class DrawContext {
    /** `scaledWindowWidth` and `scaledWindowHeight`. */
    const windowWidth: int
    const windowHeight: int
    /** Pushes not yet popped on the matrix stack. */
    var depth: nat
    /** Scissor regions enabled and not yet disabled. */
    var scissorDepth: nat
    var log: seq<Command>

    constructor (windowWidth: int, windowHeight: int)
      ensures this.windowWidth == windowWidth && this.windowHeight == windowHeight
      ensures depth == 0 && scissorDepth == 0 && log == []
    {
      this.windowWidth, this.windowHeight := windowWidth, windowHeight;
      depth, scissorDepth, log := 0, 0, [];
    }

    method Push()
      modifies this
      ensures depth == old(depth) + 1 && scissorDepth == old(scissorDepth)
      ensures log == old(log) + [PushMatrix]
    {
      depth := depth + 1;
      log := log + [PushMatrix];
    }

    /** Popping needs a matching push. */
    method Pop()
      requires depth > 0
      modifies this
      ensures depth == old(depth) - 1 && scissorDepth == old(scissorDepth)
      ensures log == old(log) + [PopMatrix]
    {
      depth := depth - 1;
      log := log + [PopMatrix];
    }

    /** Appends a command that leaves both stacks alone. */
    method Draw(c: Command)
      requires !c.PushMatrix? && !c.PopMatrix? && !c.EnableScissor? && !c.DisableScissor?
      modifies this
      ensures depth == old(depth) && scissorDepth == old(scissorDepth)
      ensures log == old(log) + [c]
    {
      log := log + [c];
    }

    method EnableScissorRegion(a: int, b: int, c: int, d: int)
      modifies this
      ensures depth == old(depth) && scissorDepth == old(scissorDepth) + 1
      ensures log == old(log) + [EnableScissor(a, b, c, d)]
    {
      scissorDepth := scissorDepth + 1;
      log := log + [EnableScissor(a, b, c, d)];
    }

    /** Disabling needs a matching enable. */
    method DisableScissorRegion()
      requires scissorDepth > 0
      modifies this
      ensures depth == old(depth) && scissorDepth == old(scissorDepth) - 1
      ensures log == old(log) + [DisableScissor]
    {
      scissorDepth := scissorDepth - 1;
      log := log + [DisableScissor];
    }
  }

  /** What a command does to the depth of the transform stack. */
  function MatrixStep(c: Command): int {
    if c.PushMatrix? then 1 else if c.PopMatrix? then -1 else 0
  }

  /** What a command does to the depth of the scissor stack. */
  function ScissorStep(c: Command): int {
    if c.EnableScissor? then 1 else if c.DisableScissor? then -1 else 0
  }

  /** The net change a command sequence makes to the transform-stack depth. */
  function MatrixNet(cs: seq<Command>): int {
    if cs == [] then 0 else MatrixStep(cs[0]) + MatrixNet(cs[1..])
  }

  /** The net change a command sequence makes to the scissor-stack depth. */
  function ScissorNet(cs: seq<Command>): int {
    if cs == [] then 0 else ScissorStep(cs[0]) + ScissorNet(cs[1..])
  }

  /** A command sequence that leaves both stacks as it found them. */
  predicate Balanced(cs: seq<Command>) {
    MatrixNet(cs) == 0 && ScissorNet(cs) == 0
  }

  /** Both net changes add up over concatenation. */
  lemma {:induction false} NetAppend(a: seq<Command>, b: seq<Command>)
    ensures MatrixNet(a + b) == MatrixNet(a) + MatrixNet(b)
    ensures ScissorNet(a + b) == ScissorNet(a) + ScissorNet(b)
    decreases |a|
  {
    if a == [] {
      assert a + b == b;
    } else {
      assert (a + b)[0] == a[0] && (a + b)[1..] == a[1..] + b;
      NetAppend(a[1..], b);
    }
  }

  /** A sequence of commands that touch neither stack is balanced. */
  lemma {:induction false} FlatBalanced(cs: seq<Command>)
    requires forall i :: 0 <= i < |cs| ==> MatrixStep(cs[i]) == 0 && ScissorStep(cs[i]) == 0
    ensures Balanced(cs)
    decreases |cs|
  {
    if cs != [] {
      FlatBalanced(cs[1..]);
    }
  }
}
