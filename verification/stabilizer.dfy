/** `getStableViewBox`: a hysteresis filter that only lets a new ViewBox
    through when it differs enough from the last one it let through. The
    class keeps the last stable ViewBox in a hidden static field; here that
    field is an explicit state passed in and returned. */
module Stabilizer {
  import opened Wrappers
  import opened ViewBoxManager
  import opened RealMath

  /** The default minimum relative change (5%). */
  const DefaultThreshold: real := 0.05

  /** Change of a size component, relative to the old size but never to
      less than 1. */
  function SizeChange(newV: real, oldV: real): real {
    Abs((newV - oldV) / Max(1.0, oldV))
  }

  /** The divisor for a position component: an old position within 0.1 of
      zero is replaced by 1, and the magnitude is floored at 1. */
  function PositionScale(oldV: real): (d: real)
    ensures d >= 1.0
  {
    var last := if Abs(oldV) < 0.1 then 1.0 else oldV;
    Max(1.0, Abs(last))
  }

  function PositionChange(newV: real, oldV: real): real {
    Abs((newV - oldV) / PositionScale(oldV))
  }

  /** Whether `candidate` differs from `last` by more than `threshold` in
      any of the four components. */
  predicate Exceeds(last: ViewBox, candidate: ViewBox, threshold: real) {
    || SizeChange(candidate.width, last.width) > threshold
    || SizeChange(candidate.height, last.height) > threshold
    || PositionChange(candidate.x, last.x) > threshold
    || PositionChange(candidate.y, last.y) > threshold
  }

  /** The stored ViewBox after the call, and the value the call returns. */
  datatype Stabilized = Stabilized(stored: Option<ViewBox>, result: Option<ViewBox>)

  function GetStableViewBox(last: Option<ViewBox>, candidate: Option<ViewBox>, threshold: real): (r: Stabilized)
    ensures r.result == r.stored
    ensures r.stored == last || r.stored == candidate
    ensures candidate.None? ==> r.stored == last
    ensures candidate.Some? ==> r.stored.Some?
    ensures last.None? ==> r.stored == candidate
  {
    if candidate.None? then Stabilized(last, last)
    else if last.None? then Stabilized(candidate, candidate)
    else if Exceeds(last.value, candidate.value, threshold) then Stabilized(candidate, candidate)
    else Stabilized(last, last)
  }

  /** With the default threshold, a 4% change of the width is absorbed and
      a 6% change is let through. */
  lemma DefaultThresholdExamples()
    ensures var last := Some(ViewBox(0.0, 0.0, 100.0, 100.0));
            GetStableViewBox(last, Some(ViewBox(0.0, 0.0, 104.0, 100.0)), DefaultThreshold).stored == last
    ensures var c := Some(ViewBox(0.0, 0.0, 106.0, 100.0));
            GetStableViewBox(Some(ViewBox(0.0, 0.0, 100.0, 100.0)), c, DefaultThreshold).stored == c
  {
  }

  // ---------------------------------------------------------------------
  // An independent formulation of the threshold test
  // ---------------------------------------------------------------------

  /** The largest of the four relative changes, with every position
      divided by `max(1, |old position|)` directly. */
  function MaxChange(last: ViewBox, candidate: ViewBox): real {
    Max(Max(Abs((candidate.width - last.width) / Max(1.0, last.width)),
            Abs((candidate.height - last.height) / Max(1.0, last.height))),
        Max(Abs((candidate.x - last.x) / Max(1.0, Abs(last.x))),
            Abs((candidate.y - last.y) / Max(1.0, Abs(last.y)))))
  }

  /** Replacing a near-zero old position by 1 changes nothing: the divisor
      is `max(1, |old position|)` either way. */
  lemma PositionScaleIsMax(oldV: real)
    ensures PositionScale(oldV) == Max(1.0, Abs(oldV))
  {
  }

  /** A candidate is accepted exactly when its largest relative change is
      above the threshold. */
  lemma AcceptedIffMaxChangeExceeds(last: ViewBox, candidate: ViewBox, threshold: real)
    ensures GetStableViewBox(Some(last), Some(candidate), threshold).stored == Some(candidate)
            <==> (MaxChange(last, candidate) > threshold || candidate == last)
  {
    PositionScaleIsMax(last.x);
    PositionScaleIsMax(last.y);
  }

  // ---------------------------------------------------------------------
  // Hysteresis
  // ---------------------------------------------------------------------

  /** Offering the stored ViewBox again leaves everything unchanged for a
      non-negative threshold. */
  lemma StableRepeat(v: ViewBox, threshold: real)
    requires threshold >= 0.0
    ensures GetStableViewBox(Some(v), Some(v), threshold) == Stabilized(Some(v), Some(v))
  {
  }

  /** Calling twice with the same candidate is the same as calling once. */
  lemma StableIdempotent(last: Option<ViewBox>, candidate: Option<ViewBox>, threshold: real)
    requires threshold >= 0.0
    ensures var once := GetStableViewBox(last, candidate, threshold);
            GetStableViewBox(once.stored, candidate, threshold) == once
  {
    var once := GetStableViewBox(last, candidate, threshold);
    if candidate.Some? && once.stored != candidate {
      assert once.stored == last && last.Some?;
      assert !Exceeds(last.value, candidate.value, threshold);
    }
  }

  /** `v` is within `threshold` of `candidate` in every component, measured
      against the scale of `last` that the threshold test uses. */
  predicate Tracks(last: ViewBox, candidate: ViewBox, v: ViewBox, threshold: real) {
    && Abs(candidate.width - v.width) <= threshold * Max(1.0, last.width)
    && Abs(candidate.height - v.height) <= threshold * Max(1.0, last.height)
    && Abs(candidate.x - v.x) <= threshold * Max(1.0, Abs(last.x))
    && Abs(candidate.y - v.y) <= threshold * Max(1.0, Abs(last.y))
  }

  /** The returned ViewBox never lags the candidate by more than the
      threshold, measured against the stored ViewBox's scale. */
  lemma StableTracksCandidate(last: ViewBox, candidate: ViewBox, threshold: real)
    requires threshold >= 0.0
    ensures Tracks(last, candidate, GetStableViewBox(Some(last), Some(candidate), threshold).result.value, threshold)
  {
    if Exceeds(last, candidate, threshold) {
      TracksItself(last, candidate, threshold);
    } else {
      TracksWhenKept(last, candidate, threshold);
    }
  }

  lemma TracksItself(last: ViewBox, candidate: ViewBox, threshold: real)
    requires threshold >= 0.0
    ensures Tracks(last, candidate, candidate, threshold)
  {
    NoLag(threshold, Max(1.0, last.width));
    NoLag(threshold, Max(1.0, last.height));
    NoLag(threshold, Max(1.0, Abs(last.x)));
    NoLag(threshold, Max(1.0, Abs(last.y)));
  }

  lemma TracksWhenKept(last: ViewBox, candidate: ViewBox, threshold: real)
    requires !Exceeds(last, candidate, threshold)
    ensures Tracks(last, candidate, last, threshold)
  {
    SizesWithin(last, candidate, threshold);
    PositionsWithin(last, candidate, threshold);
  }

  lemma SizesWithin(last: ViewBox, candidate: ViewBox, threshold: real)
    requires SizeChange(candidate.width, last.width) <= threshold
    requires SizeChange(candidate.height, last.height) <= threshold
    ensures Abs(candidate.width - last.width) <= threshold * Max(1.0, last.width)
    ensures Abs(candidate.height - last.height) <= threshold * Max(1.0, last.height)
  {
    SizeWithin(candidate.width, last.width, threshold);
    SizeWithin(candidate.height, last.height, threshold);
  }

  lemma PositionsWithin(last: ViewBox, candidate: ViewBox, threshold: real)
    requires PositionChange(candidate.x, last.x) <= threshold
    requires PositionChange(candidate.y, last.y) <= threshold
    ensures Abs(candidate.x - last.x) <= threshold * Max(1.0, Abs(last.x))
    ensures Abs(candidate.y - last.y) <= threshold * Max(1.0, Abs(last.y))
  {
    PositionWithin(candidate.x, last.x, threshold);
    PositionWithin(candidate.y, last.y, threshold);
  }

  lemma NoLag(t: real, d: real)
    requires t >= 0.0 && d >= 1.0
    ensures Abs(0.0) <= t * d
  {
  }

  lemma SizeWithin(newV: real, oldV: real, t: real)
    requires SizeChange(newV, oldV) <= t
    ensures Abs(newV - oldV) <= t * Max(1.0, oldV)
  {
    RelativeBound(newV - oldV, Max(1.0, oldV), t);
  }

  lemma PositionWithin(newV: real, oldV: real, t: real)
    requires PositionChange(newV, oldV) <= t
    ensures Abs(newV - oldV) <= t * Max(1.0, Abs(oldV))
  {
    PositionScaleIsMax(oldV);
    RelativeBound(newV - oldV, Max(1.0, Abs(oldV)), t);
  }

  lemma RelativeBound(delta: real, d: real, t: real)
    requires d >= 1.0 && Abs(delta / d) <= t
    ensures Abs(delta) <= t * d
  {
    assert delta == (delta / d) * d;
    if delta / d >= 0.0 {
      assert delta / d <= t;
      assert (delta / d) * d <= t * d;
    } else {
      assert -(delta / d) <= t;
      assert -(delta / d) * d <= t * d;
    }
  }

  /** The stored state after a stream of calls. */
  function Feed(last: Option<ViewBox>, candidates: seq<Option<ViewBox>>, threshold: real): Option<ViewBox>
    decreases |candidates|
  {
    if |candidates| == 0 then last
    else Feed(GetStableViewBox(last, candidates[0], threshold).stored, candidates[1..], threshold)
  }

  /** A stream of candidates each within the threshold of the stored
      ViewBox (or missing) never moves it: small jitter is absorbed. */
  lemma {:induction false} FeedAbsorbsJitter(v: ViewBox, candidates: seq<Option<ViewBox>>, threshold: real)
    requires forall i :: 0 <= i < |candidates| && candidates[i].Some? ==> !Exceeds(v, candidates[i].value, threshold)
    ensures Feed(Some(v), candidates, threshold) == Some(v)
    decreases |candidates|
  {
    if |candidates| > 0 {
      assert GetStableViewBox(Some(v), candidates[0], threshold).stored == Some(v);
      assert forall i :: 0 <= i < |candidates[1..]| ==> candidates[1..][i] == candidates[i + 1];
      FeedAbsorbsJitter(v, candidates[1..], threshold);
    }
  }

  /** Once a ViewBox is stored, missing candidates never clear it. */
  lemma {:induction false} FeedKeepsSome(last: ViewBox, candidates: seq<Option<ViewBox>>, threshold: real)
    ensures Feed(Some(last), candidates, threshold).Some?
    decreases |candidates|
  {
    if |candidates| > 0 {
      var next := GetStableViewBox(Some(last), candidates[0], threshold).stored;
      FeedKeepsSome(next.value, candidates[1..], threshold);
    }
  }
}
