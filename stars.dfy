/**
 * The `StarRating` control: five stars, numbered 1 to 5; star `i` is drawn
 * filled when `i <= rating`, and clicking it reports `i` as the new rating.
 */
module Stars {
  import opened Wrappers

  const StarCount: int := 5

  /** One rendered star: its number (also the rating a click reports) and whether it is filled. */
  datatype Star = Star(index: int, filled: bool)

  /**
   * The comparison `i <= rating`; a card whose rating is missing passes
   * `undefined`, against which every comparison is false.
   */
  predicate Fills(i: int, rating: Option<int>): (filled: bool)
    ensures rating.None? ==> !filled
    ensures filled ==> i <= rating.value
    ensures rating.Some? && rating.value >= StarCount && i <= StarCount ==> filled
  {
    rating.Some? && i <= rating.value
  }

  /** What `renderStars` promises about the row it returns. */
  ghost predicate IsStarRow(stars: seq<Star>, rating: Option<int>)
  {
    && |stars| == StarCount
    && forall k :: 0 <= k < |stars| ==> stars[k].index == k + 1 && stars[k].filled == Fills(k + 1, rating)
  }

  /** `renderStars`: the loop from 1 to 5 that pushes one star per step. */
  method RenderStars(rating: Option<int>) returns (stars: seq<Star>)
    ensures IsStarRow(stars, rating)
  {
    stars := [];
    var i := 1;
    while i <= StarCount
      invariant 1 <= i <= StarCount + 1
      invariant |stars| == i - 1
      invariant forall k :: 0 <= k < |stars| ==> stars[k].index == k + 1 && stars[k].filled == Fills(k + 1, rating)
    {
      stars := stars + [Star(i, Fills(i, rating))];
      i := i + 1;
    }
  }

  /** The rating a click on the star at position `k` reports. */
  function ClickedRating(stars: seq<Star>, k: nat): (r: int)
    requires k < |stars|
    ensures forall rating :: IsStarRow(stars, rating) ==> r == k + 1
  {
    stars[k].index
  }

  /** Every rating reported by a click on the control lies in 1..5. */
  lemma ClickedRatingInRange(stars: seq<Star>, rating: Option<int>, k: nat)
    requires IsStarRow(stars, rating) && k < |stars|
    ensures 1 <= ClickedRating(stars, k) <= StarCount
  {
  }

  function FilledCount(stars: seq<Star>): nat
  {
    if stars == [] then 0 else (if stars[0].filled then 1 else 0) + FilledCount(stars[1..])
  }

  /** The number of filled stars is the rating clamped to 0..5 (0 for a missing rating). */
  function Clamped(rating: Option<int>): int
  {
    match rating
    case None => 0
    case Some(r) => if r < 0 then 0 else if r > StarCount then StarCount else r
  }

  /** The filled stars are exactly the first `Clamped(rating)` of the row. */
  lemma FilledArePrefix(stars: seq<Star>, rating: Option<int>, k: nat)
    requires IsStarRow(stars, rating) && k < |stars|
    ensures stars[k].filled <==> k < Clamped(rating)
  {
  }

  /** The stars from position `j` on hold the filled ones past `j`. */
  lemma {:induction false} FilledCountFrom(stars: seq<Star>, rating: Option<int>, j: nat)
    requires IsStarRow(stars, rating) && j <= |stars|
    ensures FilledCount(stars[j..]) == if Clamped(rating) > j then Clamped(rating) - j else 0
    decreases |stars| - j
  {
    if j < |stars| {
      FilledCountFrom(stars, rating, j + 1);
      assert stars[j..][1..] == stars[j + 1..];
      FilledArePrefix(stars, rating, j);
    }
  }

  /** A rendered row shows as many filled stars as the clamped rating. */
  lemma FilledCountOfRow(stars: seq<Star>, rating: Option<int>)
    requires IsStarRow(stars, rating)
    ensures FilledCount(stars) == Clamped(rating)
  {
    FilledCountFrom(stars, rating, 0);
    assert stars[0..] == stars;
  }
}
