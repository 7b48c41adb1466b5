/** The per-frame loop of app/main.py reduced to its interaction logic: the on/off counters
    and the `draw_state` hysteresis that debounce the pinch observation, and the guard that
    forwards the fingertip to the renderer. Capture, pose estimation, display and the pinch
    geometry itself are external: each frame arrives as "no hand" or "a hand with its tip
    and whether it pinches". */
module MainLoop {
  import opened Base

  /** Consecutive pinching frames needed to switch drawing on, and consecutive non-pinching
      frames needed to switch it off. */
  const ThresholdOn: nat := 3
  const ThresholdOff: nat := 3

  /** The debouncer's state: the two consecutive-frame counters and the stable mode. */
  datatype Mode = Mode(onCounter: nat, offCounter: nat, drawState: bool)

  /** Before the first frame both counters are zero and drawing is off. */
  const Initial := Mode(0, 0, false)

  /** One frame's update. A pinch extends the on-run and clears the off-run, anything else
      (including no hand) does the reverse; then at most one transition happens: off to on
      once the on-run reaches its threshold, on to off once the off-run reaches its. */
  function Step(m: Mode, pinch: bool): (r: Mode)
    ensures r.onCounter == 0 || r.offCounter == 0
    ensures pinch ==> r.onCounter == m.onCounter + 1 && r.offCounter == 0
    ensures !pinch ==> r.offCounter == m.offCounter + 1 && r.onCounter == 0
    ensures !m.drawState ==> (r.drawState <==> r.onCounter >= ThresholdOn)
    ensures m.drawState ==> (r.drawState <==> r.offCounter < ThresholdOff)
  {
    var on := if pinch then m.onCounter + 1 else 0;
    var off := if pinch then 0 else m.offCounter + 1;
    var active :=
      if !m.drawState && on >= ThresholdOn then true
      else if m.drawState && off >= ThresholdOff then false
      else m.drawState;
    Mode(on, off, active)
  }

  /** The state after feeding a whole sequence of observations, oldest first. */
  function Run(observations: seq<bool>): (m: Mode)
    ensures m.onCounter == 0 || m.offCounter == 0
    ensures m.onCounter + m.offCounter <= |observations|
    ensures m.drawState ==> |observations| >= ThresholdOn
    decreases |observations|
  {
    if observations == [] then Initial
    else Step(Run(observations[..|observations| - 1]), observations[|observations| - 1])
  }

  /** Frames with the same observation `v` at the end of `observations`. */
  function TrailingRun(observations: seq<bool>, v: bool): nat
    decreases |observations|
  {
    if observations == [] || observations[|observations| - 1] != v then 0
    else 1 + TrailingRun(observations[..|observations| - 1], v)
  }

  /** The last `k` observations all equal `v`. */
  predicate EndsWithRun(observations: seq<bool>, v: bool, k: nat) {
    k <= |observations| &&
    forall i :: |observations| - k <= i < |observations| ==> observations[i] == v
  }

  /** Reference definition of the mode, free of counters: drawing is on exactly when the
      most recent decisive window (ThresholdOn pinches in a row, or ThresholdOff
      non-pinches in a row) was a pinch window; with no decisive window yet it is off. */
  function LastDecisive(observations: seq<bool>): bool
    decreases |observations|
  {
    if observations == [] then false
    else if EndsWithRun(observations, true, ThresholdOn) then true
    else if EndsWithRun(observations, false, ThresholdOff) then false
    else LastDecisive(observations[..|observations| - 1])
  }

  /** The on-counter is the length of the trailing run of pinches and the off-counter the
      length of the trailing run of non-pinches. */
  lemma {:induction false} CountersAreTrailingRuns(observations: seq<bool>)
    ensures Run(observations).onCounter == TrailingRun(observations, true)
    ensures Run(observations).offCounter == TrailingRun(observations, false)
    decreases |observations|
  {
    if observations != [] {
      CountersAreTrailingRuns(observations[..|observations| - 1]);
    }
  }

  /** A trailing run is at least `k` long exactly when the last `k` observations agree. */
  lemma {:induction false} TrailingRunWindow(observations: seq<bool>, v: bool, k: nat)
    ensures TrailingRun(observations, v) >= k <==> EndsWithRun(observations, v, k)
    decreases |observations|
  {
    var n := |observations|;
    if k == 0 {
    } else if observations == [] {
    } else if observations[n - 1] != v {
      assert !EndsWithRun(observations, v, k);
    } else {
      var prefix := observations[..n - 1];
      TrailingRunWindow(prefix, v, k - 1);
      if EndsWithRun(observations, v, k) {
        assert forall i :: n - 1 - (k - 1) <= i < n - 1 ==> prefix[i] == observations[i];
      }
      if EndsWithRun(prefix, v, k - 1) {
        assert forall i :: n - k <= i < n - 1 ==> observations[i] == prefix[i];
      }
    }
  }

  /** The counter-based debouncer agrees with the reference definition on every sequence of
      observations. */
  lemma {:induction false} DrawStateFollowsLastDecisive(observations: seq<bool>)
    ensures Run(observations).drawState == LastDecisive(observations)
    decreases |observations|
  {
    if observations != [] {
      var prefix := observations[..|observations| - 1];
      DrawStateFollowsLastDecisive(prefix);
      CountersAreTrailingRuns(prefix);
      CountersAreTrailingRuns(observations);
      TrailingRunWindow(observations, true, ThresholdOn);
      TrailingRunWindow(observations, false, ThresholdOff);
    }
  }

  /** `j` copies of the observation `v`. */
  function Repeat(v: bool, j: nat): (s: seq<bool>)
    ensures |s| == j
  {
    seq(j, _ => v)
  }

  /** The state after `j` more frames that all observe `v`. */
  function Iterate(m: Mode, v: bool, j: nat): Mode {
    if j == 0 then m else Step(Iterate(m, v, j - 1), v)
  }

  /** Appending `j` equal observations iterates Step `j` times. */
  lemma {:induction false} RunRepeat(prefix: seq<bool>, v: bool, j: nat)
    ensures Run(prefix + Repeat(v, j)) == Iterate(Run(prefix), v, j)
  {
    if j == 0 {
      assert prefix + Repeat(v, 0) == prefix;
    } else {
      RunRepeat(prefix, v, j - 1);
      var longer := prefix + Repeat(v, j);
      assert longer[..|longer| - 1] == prefix + Repeat(v, j - 1);
      assert longer[|longer| - 1] == v;
    }
  }

  /** From an off state with a cleared on-counter, `j` pinches count up to `j` and turn
      drawing on exactly from the ThresholdOn-th pinch. */
  lemma {:induction false} PinchesFromOff(m: Mode, j: nat)
    requires !m.drawState && m.onCounter == 0
    ensures Iterate(m, true, j).onCounter == j
    ensures Iterate(m, true, j).drawState <==> j >= ThresholdOn
  {
    if j > 0 {
      PinchesFromOff(m, j - 1);
    }
  }

  /** From an on state with a cleared off-counter, `j` non-pinches count up to `j` and turn
      drawing off exactly from the ThresholdOff-th one. */
  lemma {:induction false} ReleasesFromOn(m: Mode, j: nat)
    requires m.drawState && m.offCounter == 0
    ensures Iterate(m, false, j).offCounter == j
    ensures Iterate(m, false, j).drawState <==> j < ThresholdOff
  {
    if j > 0 {
      ReleasesFromOn(m, j - 1);
    }
  }

  /** Starting while off, after a non-pinch (or at the very start), `j` pinches in a row
      switch drawing on exactly when `j` reaches ThresholdOn; fewer never do. */
  lemma PinchRunActivatesAtThreshold(prefix: seq<bool>, j: nat)
    requires !Run(prefix).drawState
    requires prefix == [] || !prefix[|prefix| - 1]
    ensures Run(prefix + Repeat(true, j)).onCounter == j
    ensures Run(prefix + Repeat(true, j)).drawState <==> j >= ThresholdOn
  {
    RunRepeat(prefix, true, j);
    PinchesFromOff(Run(prefix), j);
  }

  /** Fewer than ThresholdOn pinches followed by a non-pinch leave drawing off throughout. */
  lemma ShortPinchNeverActivates(prefix: seq<bool>, j: nat)
    requires !Run(prefix).drawState
    requires prefix == [] || !prefix[|prefix| - 1]
    requires j < ThresholdOn
    ensures forall i :: 0 <= i <= j ==> !Run(prefix + Repeat(true, i)).drawState
    ensures !Run(prefix + Repeat(true, j) + [false]).drawState
  {
    forall i | 0 <= i <= j
      ensures !Run(prefix + Repeat(true, i)).drawState
    {
      PinchRunActivatesAtThreshold(prefix, i);
    }
    RunSnoc(prefix + Repeat(true, j), false);
  }

  /** Starting while on, after a pinch, `j` non-pinches in a row switch drawing off exactly
      when `j` reaches ThresholdOff. */
  lemma ReleaseRunDeactivatesAtThreshold(prefix: seq<bool>, j: nat)
    requires Run(prefix).drawState
    requires prefix != [] && prefix[|prefix| - 1]
    ensures Run(prefix + Repeat(false, j)).offCounter == j
    ensures Run(prefix + Repeat(false, j)).drawState <==> j < ThresholdOff
  {
    RunRepeat(prefix, false, j);
    ReleasesFromOn(Run(prefix), j);
  }

  /** Three non-pinches then three pinches: drawing stays off after frames 0 to 4 and is
      on after frame 5, the third pinch. */
  lemma ThreeOffThenThreeOn(obs: seq<bool>)
    requires obs == [false, false, false, true, true, true]
    ensures forall k :: 1 <= k <= 5 ==> !Run(obs[..k]).drawState
    ensures Run(obs).drawState
  {
    var p1, p2, p3, p4, p5 := obs[..1], obs[..2], obs[..3], obs[..4], obs[..5];
    assert Run(p1) == Mode(0, 1, false) by {
      RunSnoc([], false);
      assert p1 == [] + [false];
    }
    assert Run(p2) == Mode(0, 2, false) by {
      RunSnoc(p1, false);
      assert p2 == p1 + [false];
    }
    assert Run(p3) == Mode(0, 3, false) by {
      RunSnoc(p2, false);
      assert p3 == p2 + [false];
    }
    assert Run(p4) == Mode(1, 0, false) by {
      RunSnoc(p3, true);
      assert p4 == p3 + [true];
    }
    assert Run(p5) == Mode(2, 0, false) by {
      RunSnoc(p4, true);
      assert p5 == p4 + [true];
    }
    assert Run(obs) == Mode(3, 0, true) by {
      RunSnoc(p5, true);
      assert obs == p5 + [true];
    }
  }

  /** Feeding one more observation is one more Step. */
  lemma RunSnoc(observations: seq<bool>, v: bool)
    ensures Run(observations + [v]) == Step(Run(observations), v)
  {
    assert (observations + [v])[..|observations|] == observations;
  }

  /** The debouncer as the frame loop keeps it: two counters and the stable mode, updated in
      place once per frame. */
  class DrawModeDebouncer {
    var onCounter: nat
    var offCounter: nat
    var drawState: bool

    /** The abstract state the fields stand for. */
    function Current(): Mode
      reads this
    {
      Mode(onCounter, offCounter, drawState)
    }

    /** At most one of the two counters is nonzero. */
    ghost predicate Valid()
      reads this
    {
      onCounter == 0 || offCounter == 0
    }

    constructor ()
      ensures Valid() && Current() == Initial
    {
      onCounter, offCounter, drawState := 0, 0, false;
    }

    /** Consumes one frame's observation (false when no hand is present). */
    method Update(pinch: bool)
      requires Valid()
      modifies this
      ensures Valid() && Current() == Step(old(Current()), pinch)
    {
      if pinch {
        onCounter := onCounter + 1;
        offCounter := 0;
      } else {
        offCounter := offCounter + 1;
        onCounter := 0;
      }
      if !drawState && onCounter >= ThresholdOn {
        drawState := true;
      } else if drawState && offCounter >= ThresholdOff {
        drawState := false;
      }
    }
  }

  /** What the pose estimator yields for one frame: no hand, or the first hand's index
      fingertip in pixels and whether that hand pinches. */
  datatype Frame = NoHand | Hand(tip: Point, pinch: bool)

  /** The observation fed to the debouncer: a frame without a hand counts as "no pinch". */
  function Observation(f: Frame): (pinch: bool)
    ensures pinch ==> f.Hand?
    ensures f.Hand? ==> pinch == f.pinch
  {
    f.Hand? && f.pinch
  }

  function Observations(frames: seq<Frame>): (observations: seq<bool>)
    ensures |observations| == |frames|
  {
    seq(|frames|, i requires 0 <= i < |frames| => Observation(frames[i]))
  }

  lemma ObservationsSnoc(frames: seq<Frame>, i: nat)
    requires i < |frames|
    ensures Run(Observations(frames[..i + 1]))
         == Step(Run(Observations(frames[..i])), Observation(frames[i]))
  {
    assert Observations(frames[..i + 1]) == Observations(frames[..i]) + [Observation(frames[i])];
    RunSnoc(Observations(frames[..i]), Observation(frames[i]));
  }

  /** The forwarding guard: the tip goes to the renderer only while drawing is on and a
      hand (hence a tip) is present. */
  function Forwarded(drawState: bool, f: Frame): (p: Option<Point>)
    ensures p.Some? <==> drawState && f.Hand?
    ensures p.Some? ==> p.value == f.tip
  {
    if drawState && f.Hand? then Some(f.tip) else None
  }

  /** The point forwarded at frame `k`: the guard applied to the mode after frames 0..k. */
  function ForwardedAt(frames: seq<Frame>, k: nat): Option<Point>
    requires k < |frames|
  {
    Forwarded(Run(Observations(frames[..k + 1])).drawState, frames[k])
  }

  /** The frame loop: for each frame, in order, update the debouncer with the frame's
      observation and report the point forwarded to the renderer, if any. */
  method RunSession(frames: seq<Frame>) returns (forwarded: seq<Option<Point>>)
    ensures |forwarded| == |frames|
    ensures forall k :: 0 <= k < |frames| ==> forwarded[k] == ForwardedAt(frames, k)
  {
    var debouncer := new DrawModeDebouncer();
    forwarded := [];
    for i := 0 to |frames|
      invariant debouncer.Valid()
      invariant debouncer.Current() == Run(Observations(frames[..i]))
      invariant |forwarded| == i
      invariant forall k :: 0 <= k < i ==> forwarded[k] == ForwardedAt(frames, k)
    {
      var tip: Option<Point> := None;
      var pinch := false;
      if frames[i].Hand? {
        tip := Some(frames[i].tip);
        pinch := frames[i].pinch;
      }
      debouncer.Update(pinch);
      ObservationsSnoc(frames, i);
      if debouncer.drawState && tip.Some? {
        forwarded := forwarded + [tip];
      } else {
        forwarded := forwarded + [None];
      }
    }
  }
}
