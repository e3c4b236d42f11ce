/**
 * `Color` (Color.kt): red, green and blue channels, an alpha in [0, 1], and
 * the packed 32-bit ARGB value handed to the renderer.
 */
module Colors {
  import opened Geometry

  /** The four channels of a color, as a value. */
  datatype Rgba = Rgba(red: int, green: int, blue: int, alpha: real)

  /** The predefined colors `WHITE`, `BLACK` and `TRANSPARENT`. */
  const White := Rgba(255, 255, 255, 1.0)
  const Black := Rgba(0, 0, 0, 1.0)
  const Transparent := Rgba(0, 0, 0, 0.0)

  predicate IsByte(n: int) {
    0 <= n <= 255
  }

  /** `java.awt.Color` refuses a channel outside 0..255. */
  predicate ChannelsInRange(c: Rgba) {
    IsByte(c.red) && IsByte(c.green) && IsByte(c.blue)
  }

  /** Kotlin `coerceIn(lo, hi)`. */
  function Clamp(n: int, lo: int, hi: int): (r: int)
    requires lo <= hi
    ensures lo <= r <= hi
    ensures lo <= n <= hi ==> r == n
    ensures n < lo ==> r == lo
    ensures n > hi ==> r == hi
  {
    if n < lo then lo else if n > hi then hi else n
  }

  /** The alpha byte: `(alpha * 255).toInt()` clamped to 0..255. */
  function AlphaByte(alpha: real): (a: int)
    ensures IsByte(a)
    ensures alpha <= 0.0 ==> a == 0
    ensures alpha >= 1.0 ==> a == 255
    // in between, the scaled alpha with its fraction dropped
    ensures 0.0 <= alpha <= 1.0 ==> a as real <= alpha * 255.0 < a as real + 1.0
  {
    Clamp(ToInt(alpha * 255.0), 0, 255)
  }

  /** Byte k (0 = least significant) of the 32-bit pattern of an Int. */
  function ByteOf(n: int, k: nat): (b: int)
    requires IsInt32(n) && k < 4
    ensures IsByte(b)
  {
    ShiftBytes(Unsigned(n), k) % 256
  }

  /** u shifted right by k bytes. */
  function ShiftBytes(u: nat, k: nat): nat {
    if k == 0 then u else ShiftBytes(u / 256, k - 1)
  }

  /** Splitting a number into its low byte and the rest. */
  lemma SplitByte(high: nat, low: int)
    requires IsByte(low)
    ensures (high * 256 + low) / 256 == high && (high * 256 + low) % 256 == low
  {
  }

  /**
   * `java.awt.Color(red, green, blue, alpha).rgb`: alpha, red, green and blue
   * bytes from the most significant down, as a signed 32-bit Int.
   */
  function PackArgb(a: int, r: int, g: int, b: int): (argb: int)
    requires IsByte(a) && IsByte(r) && IsByte(g) && IsByte(b)
    ensures IsInt32(argb)
    // unpacking the four bytes gives back the four channels
    ensures ByteOf(argb, 3) == a && ByteOf(argb, 2) == r && ByteOf(argb, 1) == g && ByteOf(argb, 0) == b
    // the sign bit is the top bit of the alpha byte
    ensures argb < 0 <==> a >= 128
  {
    var u1 := a * 256 + r;
    var u2 := u1 * 256 + g;
    var u := u2 * 256 + b;
    SplitByte(u2, b);
    SplitByte(u1, g);
    SplitByte(a, r);
    assert ShiftBytes(u, 1) == ShiftBytes(u2, 0) == u2;
    assert ShiftBytes(u, 2) == ShiftBytes(u2, 1) == ShiftBytes(u1, 0) == u1;
    assert ShiftBytes(u, 3) == ShiftBytes(u1, 1) == ShiftBytes(a, 0) == a;
    if u > IntMax then u - Word else u
  }

  /** Two packed values are equal exactly when all four channels are. */
  lemma {:induction false} PackArgbInjective(a: int, r: int, g: int, b: int, a': int, r': int, g': int, b': int)
    requires IsByte(a) && IsByte(r) && IsByte(g) && IsByte(b)
    requires IsByte(a') && IsByte(r') && IsByte(g') && IsByte(b')
    ensures PackArgb(a, r, g, b) == PackArgb(a', r', g', b') <==> a == a' && r == r' && g == g' && b == b'
  {
    var p, p' := PackArgb(a, r, g, b), PackArgb(a', r', g', b');
    if p == p' {
      assert ByteOf(p, 3) == ByteOf(p', 3) && ByteOf(p, 2) == ByteOf(p', 2);
      assert ByteOf(p, 1) == ByteOf(p', 1) && ByteOf(p, 0) == ByteOf(p', 0);
    }
  }

  /** The packed values of the three predefined colors. */
  lemma ConstantsPacked()
    ensures Unsigned(PackArgb(AlphaByte(White.alpha), White.red, White.green, White.blue)) == 0xFFFF_FFFF
    ensures Unsigned(PackArgb(AlphaByte(Black.alpha), Black.red, Black.green, Black.blue)) == 0xFF00_0000
    ensures PackArgb(AlphaByte(Transparent.alpha), Transparent.red, Transparent.green, Transparent.blue) == 0
  {
  }

  /** `toInt` on the four channels: the alpha byte and the three channels packed as ARGB. */
  function Argb(c: Rgba): (argb: int)
    requires ChannelsInRange(c)
    ensures IsInt32(argb)
    ensures ByteOf(argb, 3) == AlphaByte(c.alpha)
    ensures ByteOf(argb, 2) == c.red && ByteOf(argb, 1) == c.green && ByteOf(argb, 0) == c.blue
  {
    PackArgb(AlphaByte(c.alpha), c.red, c.green, c.blue)
  }

  /** A mutable color (Kotlin's `Color` has `var` channels). */
  class Color {
    var red: int
    var green: int
    var blue: int
    var alpha: real

    constructor (red: int, green: int, blue: int, alpha: real)
      ensures Value() == Rgba(red, green, blue, alpha)
    {
      this.red, this.green, this.blue, this.alpha := red, green, blue, alpha;
    }

    /** The four channels. */
    function Value(): Rgba
      reads this
    {
      Rgba(red, green, blue, alpha)
    }

    /** `toInt`; `java.awt.Color` demands channels in 0..255. */
    function ToInt(): (argb: int)
      reads this
      requires ChannelsInRange(Value())
      ensures IsInt32(argb)
      ensures ByteOf(argb, 3) == AlphaByte(alpha)
      ensures ByteOf(argb, 2) == red && ByteOf(argb, 1) == green && ByteOf(argb, 0) == blue
    {
      Argb(Value())
    }

    /** `write`: copies this color's four channels into `another`; this color is unchanged. */
    method Write(another: Color)
      modifies another
      ensures another.Value() == old(Value())
      ensures Value() == old(Value())
    {
      another.red := red;
      another.green := green;
      another.blue := blue;
      another.alpha := alpha;
    }

    /** `copy`: a new color with the same four channels. */
    method Copy() returns (c: Color)
      ensures fresh(c)
      ensures c.Value() == Value()
    {
      c := new Color(red, green, blue, alpha);
    }
  }
}
