/**
 The colour palette of the renderer: an escape count is turned into an RGB
 triple by pure integer arithmetic on the count's low bits, except that the
 count 200 is painted white.
 */
module Palette {

  /** An RGB colour; each channel is an 8-bit value in a well-formed colour. */
  datatype Rgb = Rgb(red: int, green: int, blue: int)

  const White: Rgb := Rgb(255, 255, 255)

  predicate IsChannel(n: int) {
    0 <= n <= 255
  }

  /** Every channel of `c` fits in a byte. */
  predicate IsColor(c: Rgb) {
    IsChannel(c.red) && IsChannel(c.green) && IsChannel(c.blue)
  }

  /**
   The colour of an escape count. Python's `%` is floored; for a positive
   divisor it agrees with Dafny's Euclidean `%`, so the formula below holds
   for negative counts as well.
   */
  function ColorOf(escape: int): (c: Rgb)
    ensures IsColor(c)
    ensures c == White <==> escape == 200
    ensures escape != 200 ==> c.red <= 248 && c.green <= 240 && c.blue <= 224
    ensures escape != 200 ==> c.red % 8 == 0 && c.green % 16 == 0 && c.blue % 32 == 0
  {
    var red := escape % 32 * 8;
    var green := escape % 16 * 16;
    var blue := escape % 8 * 32;
    if escape == 200 then White else Rgb(red, green, blue)
  }

  /** Reads back the residue modulo 32 that a non-white colour was made from. */
  function Residue(c: Rgb): int {
    c.red / 8
  }

  /** A remainder modulo 16 is determined by any decomposition `e == 16 * q + r` with `0 <= r < 16`. */
  lemma Mod16Unique(e: int, q: int, r: int)
    requires e == 16 * q + r && 0 <= r < 16
    ensures e % 16 == r
  {
  }

  /** A remainder modulo 8 is determined by any decomposition `e == 8 * q + r` with `0 <= r < 8`. */
  lemma Mod8Unique(e: int, q: int, r: int)
    requires e == 8 * q + r && 0 <= r < 8
    ensures e % 8 == r
  {
  }

  /** Reducing modulo 32 first does not change the residues modulo 16 and 8. */
  lemma {:induction false} ModOfMod32(e: int)
    ensures e % 32 % 16 == e % 16
    ensures e % 32 % 8 == e % 8
  {
    var q := e / 32;
    var r := e % 32;
    assert e == 32 * q + r && 0 <= r < 32;
    var r16 := if r < 16 then r else r - 16;
    var q16 := if r < 16 then 0 else 1;
    Mod16Unique(r, q16, r16);
    Mod16Unique(e, 2 * q + q16, r16);
    var r8 := r % 8;
    assert r == 8 * (r / 8) + r8 && 0 <= r8 < 8;
    Mod8Unique(e, 4 * q + r / 8, r8);
  }

  /** `Residue` inverts `ColorOf` away from the special count 200. */
  lemma ResidueOfColor(escape: int)
    requires escape != 200
    ensures Residue(ColorOf(escape)) == escape % 32
  {
  }

  /**
   Apart from the white count, two counts get the same colour exactly when
   they agree modulo 32.
   */
  lemma {:induction false} SameColorIffSameResidue(a: int, b: int)
    requires a != 200 && b != 200
    ensures ColorOf(a) == ColorOf(b) <==> a % 32 == b % 32
  {
    ModOfMod32(a);
    ModOfMod32(b);
    ResidueOfColor(a);
    ResidueOfColor(b);
  }

  /** Apart from the white count, the palette repeats every 32 counts. */
  lemma ColorPeriod(escape: int)
    requires escape != 200 && escape + 32 != 200
    ensures ColorOf(escape) == ColorOf(escape + 32)
  {
  }

  /** Worked values: an ordinary count, the white count and the Mandelbrot sentinel. */
  lemma ColorSamples()
    ensures ColorOf(17) == Rgb(136, 16, 32)
    ensures ColorOf(200) == White
    ensures ColorOf(255) == Rgb(248, 240, 224)
  {
  }
}
