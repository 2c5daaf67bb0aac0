/** The ambient visuals driven by the countdown: which animation the creature
    plays and how brightly the fireplace burns. */
module Visuals {

  /** The creature's animation; the sprite shows it as the single class
      `creature-walking`, `creature-sitting` or `creature-idle`. */
  datatype Animation = Walking | Sitting | Idle

  /** The walk/sit/walk rule of updateVisualsBasedOnTime, with the thirds of
      the reference duration compared by integer cross-multiplication:
      elapsed < reference / 3 is 3 * elapsed < reference. */
  function SegmentAnimation(reference: int, remaining: int): (a: Animation)
    ensures a != Idle
  {
    var elapsed := reference - remaining;
    if 3 * elapsed < reference then Walking
    else if reference <= 3 * elapsed && 3 * elapsed < 2 * reference then Sitting
    else Walking
  }

  /** The same rule as the source states it, on exact reals: a segment is
      reference / 3 and the elapsed seconds are compared with one and two
      segments. */
  function ThirdsAnimation(reference: int, remaining: int): Animation {
    var segment := reference as real / 3.0;
    var elapsed := (reference - remaining) as real;
    if elapsed < segment then Walking
    else if elapsed >= segment && elapsed < segment * 2.0 then Sitting
    else Walking
  }

  /** The integer rule chooses the same animation as the real-valued one, for
      every duration, including those not divisible by three. */
  lemma SegmentMatchesThirds(reference: int, remaining: int)
    ensures SegmentAnimation(reference, remaining) == ThirdsAnimation(reference, remaining)
  {
    var e := reference - remaining;
    assert (e as real < reference as real / 3.0) <==> 3 * e < reference;
    assert (e as real < reference as real / 3.0 * 2.0) <==> 3 * e < 2 * reference;
  }

  /** Over a run the creature walks, then sits, then walks again: it sits
      exactly while the elapsed time lies in the middle third, so the sitting
      seconds form one unbroken stretch. */
  lemma SittingIsMiddleThird(reference: nat, e1: int, e2: int, e3: int)
    requires 0 <= e1 <= e2 <= e3 <= reference
    requires SegmentAnimation(reference, reference - e1) == Sitting
    requires SegmentAnimation(reference, reference - e3) == Sitting
    ensures SegmentAnimation(reference, reference - e2) == Sitting
  {
  }

  /** The run starts walking, ends walking, and sits at some point whenever
      it lasts at least two seconds. */
  lemma SegmentEnds(reference: nat)
    requires reference > 0
    ensures SegmentAnimation(reference, reference) == Walking
    ensures SegmentAnimation(reference, 0) == Walking
    ensures reference >= 2 ==> SegmentAnimation(reference, reference - (reference + 2) / 3) == Sitting
  {
  }

  /** The fire opacity of updateVisualsBasedOnTime, on exact reals: the
      fraction of time remaining scaled into [0.3, 1.0] while it is above
      0.1, and a flat 0.1 ("embers") after that. */
  function FireOpacity(remaining: int, reference: int): real
    requires reference > 0
  {
    var progress := remaining as real / reference as real;
    if progress > 0.1 then 0.3 + progress * 0.7 else 0.1
  }

  /** remaining / reference, multiplied back out. */
  lemma ProgressScale(remaining: int, reference: int)
    requires reference > 0
    ensures (remaining as real / reference as real) * reference as real == remaining as real
  {
  }

  /** The embers branch is taken exactly when 10 * remaining <= reference. */
  lemma FireEmbers(remaining: int, reference: int)
    requires reference > 0
    ensures FireOpacity(remaining, reference) == 0.1 <==> 10 * remaining <= reference
  {
    var p := remaining as real / reference as real;
    ProgressScale(remaining, reference);
    ScaleCompare(p, 0.1, reference as real);
  }

  /** For a positive scale d, x <= y exactly when x * d <= y * d. */
  lemma ScaleCompare(x: real, y: real, d: real)
    requires d > 0.0
    ensures x <= y <==> x * d <= y * d
  {
    if x <= y {
      assert (y - x) * d >= 0.0;
    } else {
      assert (x - y) * d > 0.0;
    }
  }

  /** Between full time and zero the fire stays within [0.1, 1.0], and it
      burns fully at the moment the run starts. */
  lemma FireBounds(remaining: int, reference: int)
    requires reference > 0 && 0 <= remaining <= reference
    ensures 0.1 <= FireOpacity(remaining, reference) <= 1.0
    ensures remaining == reference ==> FireOpacity(remaining, reference) == 1.0
  {
    var p := remaining as real / reference as real;
    ProgressScale(remaining, reference);
    ScaleCompare(p, 1.0, reference as real);
    ScaleCompare(1.0, p, reference as real);
  }

  /** The fire never brightens as the remaining time goes down. */
  lemma FireMonotone(r1: int, r2: int, reference: int)
    requires reference > 0 && r1 <= r2
    ensures FireOpacity(r1, reference) <= FireOpacity(r2, reference)
  {
    var p1 := r1 as real / reference as real;
    var p2 := r2 as real / reference as real;
    ProgressScale(r1, reference);
    ProgressScale(r2, reference);
    ScaleCompare(p1, p2, reference as real);
  }
}
