/** Cropping: offsets from the source's edges to a rectangle of even numbers. */
module Crop {
  import opened Wrappers

  datatype Offsets = Offsets(left: int, top: int, right: int, bottom: int)

  datatype Rectangle = Rectangle(x: int, y: int, width: int, height: int)

  /** Go's remainder is non-zero for odd numbers of either sign. */
  function RoundEven(i: int, mod: int): int {
    if i % 2 != 0 then i + mod else i
  }

  function CropTo(crop: Offsets, width: int, height: int): Option<Rectangle> {
    if crop == Offsets(0, 0, 0, 0) || height <= 0 || width <= 0 then None
    else Some(Rectangle(RoundEven(crop.left, 1), RoundEven(crop.top, 1),
                        RoundEven(width - crop.left - crop.right, -1), RoundEven(height - crop.top - crop.bottom, -1)))
  }

  /** The offsets are non-negative and leave something, or nothing, of the source. */
  predicate Fits(crop: Offsets, width: int, height: int) {
    && 0 <= crop.left && 0 <= crop.right && crop.left + crop.right <= width
    && 0 <= crop.top && 0 <= crop.bottom && crop.top + crop.bottom <= height
  }

  predicate Odd(i: int) {
    i % 2 == 1
  }

  predicate Inside(r: Rectangle, width: int, height: int) {
    0 <= r.x && 0 <= r.width && r.x + r.width <= width && 0 <= r.y && 0 <= r.height && r.y + r.height <= height
  }

  lemma RoundsUp(i: nat)
    ensures RoundEven(i, 1) == i + (if Odd(i) then 1 else 0) && RoundEven(i, 1) % 2 == 0
  {
  }

  lemma RoundsDown(i: nat)
    ensures RoundEven(i, -1) == i - (if Odd(i) then 1 else 0) && RoundEven(i, -1) % 2 == 0
  {
  }

  lemma DifferenceOdd(a: nat, b: nat)
    requires b <= a
    ensures Odd(a - b) <==> Odd(a) != Odd(b)
  {
    assert a == a / 2 * 2 + a % 2 && b == b / 2 * 2 + b % 2;
    assert a - b == (a / 2 - b / 2) * 2 + (a % 2 - b % 2);
  }

  /** One direction only: the near edge rounds up, the extent down, and the far edge may pass the
      requested one by a pixel, which leaves the source exactly when an odd source is cropped by an
      odd number on its near side alone. */
  lemma Span(source: int, near: int, far: int)
    requires 0 <= near && 0 <= far && near + far <= source
    ensures var (origin, extent) := (RoundEven(near, 1), RoundEven(source - near - far, -1));
      && origin % 2 == 0 && extent % 2 == 0 && 0 <= extent
      && near <= origin <= near + 1
      && source - far - 1 <= origin + extent <= source - far + 1
      && (origin + extent > source - far <==> Odd(near) && Odd(source - far))
      && (origin + extent > source <==> Odd(near) && Odd(source) && far == 0)
  {
    RoundsUp(near);
    RoundsDown(source - near - far);
    DifferenceOdd(source - far, near);
  }

  /** A source is left alone exactly when no offset is set or one of its dimensions is not known. */
  lemma LeftAloneExactly(crop: Offsets, width: int, height: int)
    ensures CropTo(crop, width, height).None? <==>
      || (crop.left == 0 && crop.top == 0 && crop.right == 0 && crop.bottom == 0)
      || width <= 0 || height <= 0
  {
  }

  /** The rectangle is even, starts at the requested offsets or one further, ends within one of the
      requested far edges, and lies inside the source exactly when no odd dimension is cropped by an odd number
      on its near side alone; with even dimensions it always does. */
  lemma CropIsEvenAndInside(crop: Offsets, width: int, height: int)
    requires Fits(crop, width, height) && CropTo(crop, width, height).Some?
    ensures var r := CropTo(crop, width, height).value;
      && r.x % 2 == 0 && r.y % 2 == 0 && r.width % 2 == 0 && r.height % 2 == 0
      && crop.left <= r.x <= crop.left + 1 && crop.top <= r.y <= crop.top + 1
      && width - crop.right - 1 <= r.x + r.width <= width - crop.right + 1
      && height - crop.bottom - 1 <= r.y + r.height <= height - crop.bottom + 1
      && (Inside(r, width, height) <==>
            && !(Odd(width) && Odd(crop.left) && crop.right == 0)
            && !(Odd(height) && Odd(crop.top) && crop.bottom == 0))
  {
    Span(width, crop.left, crop.right);
    Span(height, crop.top, crop.bottom);
  }

  /** A source five pixels wide, cropped by one on its left. */
  lemma OddCropLeavesTheSource()
    ensures CropTo(Offsets(1, 0, 0, 0), 5, 4) == Some(Rectangle(2, 0, 4, 4)) && !Inside(Rectangle(2, 0, 4, 4), 5, 4)
  {
  }
}
