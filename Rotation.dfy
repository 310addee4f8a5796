/**
 * The rotation counter of the Pixelator view and the aspect ratio of the
 * container that hosts the drawing surface.
 *
 * The rotation is a number of quarter turns.  The "Rotate" button advances
 * it with JavaScript's `(r + 1) % 4`; the view is "sideways" when the counter
 * is odd, and then the container shows the reciprocal of the source's
 * intrinsic aspect ratio.  Ratios are exact Dafny reals here, where the
 * component uses IEEE doubles.
 */
module Rotation {

  /** JavaScript's `%` on integers: the remainder truncates toward zero, so it
      takes the sign of the dividend (unlike Dafny's Euclidean `%`). */
  function JsRem(a: int, n: int): (r: int)
    requires n > 0
    ensures a >= 0 ==> 0 <= r < n
    ensures a < 0 ==> -n < r <= 0
  {
    if a >= 0 then a % n else -((-a) % n)
  }

  /** On a non-negative dividend the two remainders agree. */
  lemma JsRemOfNonNegative(a: int, n: int)
    requires a >= 0 && n > 0
    ensures JsRem(a, n) == a % n
  {
  }

  /** Negating the dividend negates the remainder.  With
      `JsRemOfNonNegative` this fixes the remainder of every dividend: the
      Euclidean remainder of its magnitude, carrying its sign. */
  lemma JsRemNegated(a: int, n: int)
    requires n > 0
    ensures JsRem(-a, n) == -JsRem(a, n)
  {
  }

  /** The "Rotate" action: `r => (r + 1) % 4`. */
  function NextRotation(r: int): (r': int)
  {
    JsRem(r + 1, 4)
  }

  /** A counter that starts in 0..3 stays in 0..3 and advances by one quarter
      turn, wrapping from 3 back to 0. */
  lemma NextRotationStep(r: int)
    requires 0 <= r < 4
    ensures 0 <= NextRotation(r) < 4
    ensures NextRotation(r) == if r == 3 then 0 else r + 1
  {
    JsRemOfNonNegative(r + 1, 4);
  }

  /** The counter after `n` presses of "Rotate". */
  function Rotated(r: int, n: nat): (r': int)
  {
    if n == 0 then r else NextRotation(Rotated(r, n - 1))
  }

  /** Adding one to a non-negative number advances its residue modulo 4. */
  lemma ResidueStep(k: int)
    requires k >= 0
    ensures (k + 1) % 4 == if k % 4 == 3 then 0 else k % 4 + 1
  {
  }

  /** `n` presses from a counter in 0..3 add `n` quarter turns modulo 4. */
  lemma {:induction false} RotatedAdds(r: int, n: nat)
    requires 0 <= r < 4
    ensures Rotated(r, n) == (r + n) % 4
  {
    if n > 0 {
      var k := Rotated(r, n - 1);
      RotatedAdds(r, n - 1);
      NextRotationStep(k);
      ResidueStep(r + n - 1);
      assert Rotated(r, n) == NextRotation(k);
    }
  }

  /** However often "Rotate" is pressed, a counter in 0..3 stays in 0..3. */
  lemma {:induction false} RotatedInRange(r: int, n: nat)
    requires 0 <= r < 4
    ensures 0 <= Rotated(r, n) < 4
  {
    if n > 0 {
      RotatedInRange(r, n - 1);
      NextRotationStep(Rotated(r, n - 1));
    }
  }

  /** Four presses of "Rotate" bring the counter back to where it started. */
  lemma FourRotationsRestore(r: int)
    requires 0 <= r < 4
    ensures Rotated(r, 4) == r
  {
    RotatedAdds(r, 4);
    assert (r + 4) % 4 == r;
  }

  /** `rotation % 2 !== 0`: the view is turned by 90 or 270 degrees. */
  function IsSideways(rotation: int): (b: bool)
  {
    JsRem(rotation, 2) != 0
  }

  /** Sideways exactly when the counter is odd, for every integer counter
      (the truncating remainder of an odd negative number is -1, still
      non-zero). */
  lemma SidewaysIffOdd(rotation: int)
    ensures IsSideways(rotation) <==> rotation % 2 == 1
  {
  }

  /** Each press of "Rotate" flips between upright and sideways. */
  lemma RotateFlipsSideways(r: int)
    requires 0 <= r < 4
    ensures IsSideways(NextRotation(r)) == !IsSideways(r)
  {
    NextRotationStep(r);
  }

  /** The aspect ratio of the container: the reciprocal of the source's ratio
      when sideways, the ratio itself otherwise. */
  function DisplayAspect(base: real, rotation: int): (a: real)
    requires base != 0.0
  {
    if IsSideways(rotation) then 1.0 / base else base
  }

  /** For a `width` x `height` source the container shows `width / height`
      upright and `height / width` sideways: width and height trade places. */
  lemma DisplayAspectSwapsDimensions(width: real, height: real, rotation: int)
    requires width > 0.0 && height > 0.0
    ensures DisplayAspect(width / height, rotation) ==
            if rotation % 2 == 1 then height / width else width / height
    ensures DisplayAspect(width / height, rotation) > 0.0
  {
    SidewaysIffOdd(rotation);
    if IsSideways(rotation) {
      calc {
        1.0 / (width / height);
        { assert (width / height) * (height / width) == 1.0; }
        height / width;
      }
    }
  }

  /** One press of "Rotate" turns the container's ratio into its reciprocal. */
  lemma RotateInvertsDisplayAspect(base: real, r: int)
    requires base != 0.0
    requires 0 <= r < 4
    ensures DisplayAspect(base, NextRotation(r)) == 1.0 / DisplayAspect(base, r)
  {
    RotateFlipsSideways(r);
    if IsSideways(r) {
      assert 1.0 / (1.0 / base) == base;
    }
  }

  /** Two presses of "Rotate" leave the container's ratio unchanged. */
  lemma TwoRotationsKeepDisplayAspect(base: real, r: int)
    requires base != 0.0
    requires 0 <= r < 4
    ensures DisplayAspect(base, Rotated(r, 2)) == DisplayAspect(base, r)
  {
    NextRotationStep(r);
    RotateInvertsDisplayAspect(base, r);
    RotateInvertsDisplayAspect(base, NextRotation(r));
    ReciprocalInvolution(DisplayAspect(base, r));
    assert Rotated(r, 2) == NextRotation(NextRotation(r));
  }

  /** Taking the reciprocal twice gives the number back. */
  lemma ReciprocalInvolution(d: real)
    requires d != 0.0
    ensures 1.0 / (1.0 / d) == d
  {
  }

  /** One step down flips the parity of a positive number. */
  lemma ParityStep(n: nat)
    requires n > 0
    ensures (n - 1) % 2 == 1 - n % 2
  {
  }

  /** After `n` presses the container shows the starting ratio when `n` is
      even and its reciprocal when `n` is odd; in particular a full cycle of
      four restores it. */
  lemma {:induction false} DisplayAspectAfterPresses(base: real, r: int, n: nat)
    requires base != 0.0
    requires 0 <= r < 4
    ensures DisplayAspect(base, Rotated(r, n)) ==
            if n % 2 == 0 then DisplayAspect(base, r) else 1.0 / DisplayAspect(base, r)
  {
    if n > 0 {
      DisplayAspectAfterPresses(base, r, n - 1);
      RotatedInRange(r, n - 1);
      var before := Rotated(r, n - 1);
      RotateInvertsDisplayAspect(base, before);
      ParityStep(n);
      if n % 2 == 0 {
        ReciprocalInvolution(DisplayAspect(base, r));
      }
    }
  }

  /** A 1920 x 1080 source shows 1920/1080 upright and 1080/1920 after one
      press of "Rotate". */
  lemma FullHdExample()
    ensures DisplayAspect(1920.0 / 1080.0, 0) == 1920.0 / 1080.0
    ensures DisplayAspect(1920.0 / 1080.0, NextRotation(0)) == 1080.0 / 1920.0
  {
    NextRotationStep(0);
    DisplayAspectSwapsDimensions(1920.0, 1080.0, 1);
  }
}
