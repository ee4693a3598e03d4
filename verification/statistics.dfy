/**
 * The arithmetic shared by the `stats` and `rides` commands and by the GUI:
 * sums over a selection of rides, speed with its zero-duration guard, the
 * comment column of the ride list, and the running total of distances.
 */
module Statistics {
  import opened RideRecord

  /** A speed in km/h, or the `'nan'` text shown when the duration is zero. */
  datatype Speed = NotANumber | Kmh(kmh: real)

  /** `distance / duration`, guarded by `duration != 0` (bike.py:224-227,
      bike.py:262-265, Velociraptor.py:22-25). */
  function SpeedOf(distance: real, duration: real): (s: Speed)
    ensures s.NotANumber? <==> duration == 0.0
    ensures s.Kmh? ==> s.kmh * duration == distance
  {
    if duration != 0.0 then Kmh(distance / duration) else NotANumber
  }

  function Sum(xs: seq<real>): real
    decreases |xs|
  {
    if xs == [] then 0.0 else Sum(xs[..|xs| - 1]) + xs[|xs| - 1]
  }

  function Distances(rides: seq<Ride>): (ds: seq<real>)
    ensures |ds| == |rides|
    ensures forall i :: 0 <= i < |rides| ==> ds[i] == rides[i].distance.Value()
  {
    seq(|rides|, i requires 0 <= i < |rides| => rides[i].distance.Value())
  }

  function Durations(rides: seq<Ride>): (ds: seq<real>)
    ensures |ds| == |rides|
    ensures forall i :: 0 <= i < |rides| ==> ds[i] == rides[i].duration.Value()
  {
    seq(|rides|, i requires 0 <= i < |rides| => rides[i].duration.Value())
  }

  lemma SumAppend(xs: seq<real>, x: real)
    ensures Sum(xs + [x]) == Sum(xs) + x
  {
    assert (xs + [x])[..|xs|] == xs;
  }

  // ----- the comment column of `rides` (bike.py:267-271) -----

  const CommentWidth: nat := 30
  const Ellipsis: string := "..."

  /** A comment that fits is shown whole; a longer one is cut so that, with
      `...` added, it fills the column exactly. */
  function Truncate(comment: string): (shown: string)
    ensures |shown| <= CommentWidth
    ensures |comment| <= CommentWidth ==> shown == comment
    ensures |comment| > CommentWidth ==>
      && |shown| == CommentWidth
      && shown[..CommentWidth - |Ellipsis|] == comment[..CommentWidth - |Ellipsis|]
      && shown[CommentWidth - |Ellipsis|..] == Ellipsis
  {
    if |comment| <= CommentWidth then comment
    else comment[..CommentWidth - |Ellipsis|] + Ellipsis
  }

  // ----- running totals -----

  /** `itertools.accumulate(xs)`: the first value, then each later value added
      to the total before it. */
  function Accumulate(xs: seq<real>): (acc: seq<real>)
    ensures |acc| == |xs|
    decreases |xs|
  {
    if |xs| <= 1 then xs
    else
      var prev := Accumulate(xs[..|xs| - 1]);
      prev + [prev[|prev| - 1] + xs[|xs| - 1]]
  }

  /** Each running total is the sum of the values up to and including its own. */
  lemma {:induction false} AccumulateIsPrefixSums(xs: seq<real>)
    ensures forall i :: 0 <= i < |xs| ==> Accumulate(xs)[i] == Sum(xs[..i + 1])
    decreases |xs|
  {
    if |xs| == 1 {
      assert xs[..1] == xs;
      assert Sum(xs[..0]) == 0.0;
    } else if |xs| > 1 {
      var k := |xs| - 1;
      var init := xs[..k];
      AccumulateIsPrefixSums(init);
      forall i | 0 <= i < |xs| ensures Accumulate(xs)[i] == Sum(xs[..i + 1]) {
        if i < k {
          assert init[..i + 1] == xs[..i + 1];
        } else {
          assert init[..k] == init;
          assert xs[..k + 1][..k] == init;
          assert xs[..k + 1] == xs;
        }
      }
    }
  }

  /** The series starts at the first value and adds one value per step. */
  lemma AccumulateSteps(xs: seq<real>)
    ensures xs != [] ==> Accumulate(xs)[0] == xs[0]
    ensures forall i :: 0 < i < |xs| ==> Accumulate(xs)[i] == Accumulate(xs)[i - 1] + xs[i]
  {
    AccumulateIsPrefixSums(xs);
    if xs != [] {
      SumPrefixStep(xs, 0);
    }
    forall i | 0 < i < |xs| ensures Accumulate(xs)[i] == Accumulate(xs)[i - 1] + xs[i] {
      SumPrefixStep(xs, i);
    }
  }

  lemma SumPrefixStep(xs: seq<real>, i: nat)
    requires i < |xs|
    ensures Sum(xs[..i + 1]) == Sum(xs[..i]) + xs[i]
  {
    assert xs[..i + 1][..i] == xs[..i];
  }

  /** The last running total is the total. */
  lemma AccumulateLast(xs: seq<real>)
    requires xs != []
    ensures Accumulate(xs)[|xs| - 1] == Sum(xs)
  {
    AccumulateIsPrefixSums(xs);
    assert xs[..|xs|] == xs;
  }
}
