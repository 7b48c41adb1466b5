/** The gesture predicate of `HandTracker` (app/hand_detector.py). Pose estimation itself is
    an external collaborator; only the landmark comparison is modelled. */
module HandDetector {

  /** One normalised hand keypoint as the pose estimator reports it. */
  datatype Landmark = Landmark(x: real, y: real, z: real)

  /** Landmark indices of the index finger: its tip and its proximal (PIP) joint. */
  const IndexTip: nat := 8
  const IndexPip: nat := 6

  /** The index finger points up when its tip is strictly higher on screen than its PIP
      joint. Image y grows downward, so "higher" is a smaller y. Indexing landmark 8 needs
      at least nine landmarks. */
  function IsIndexFingerUp(landmarks: seq<Landmark>): (up: bool)
    requires |landmarks| > IndexTip
    ensures up <==> landmarks[IndexPip].y - landmarks[IndexTip].y > 0.0
  {
    landmarks[IndexTip].y < landmarks[IndexPip].y
  }

  /** The comparison is strict: a tip level with its joint does not count as up. */
  lemma LevelTipIsNotUp(landmarks: seq<Landmark>)
    requires |landmarks| > IndexTip
    requires landmarks[IndexTip].y == landmarks[IndexPip].y
    ensures !IsIndexFingerUp(landmarks)
  {
  }

  /** Only the y coordinates of landmarks 6 and 8 decide the result: two snapshots that agree
      on those two heights agree on the predicate, whatever every other landmark, every x and
      every z is. */
  lemma OnlyIndexHeightsMatter(a: seq<Landmark>, b: seq<Landmark>)
    requires |a| > IndexTip && |b| > IndexTip
    requires a[IndexTip].y == b[IndexTip].y && a[IndexPip].y == b[IndexPip].y
    ensures IsIndexFingerUp(a) == IsIndexFingerUp(b)
  {
  }

  /** Raising the tip further (smaller y) keeps a pointing finger pointing. */
  lemma RaisingTipKeepsUp(landmarks: seq<Landmark>, higherTip: real)
    requires |landmarks| > IndexTip
    requires IsIndexFingerUp(landmarks) && higherTip <= landmarks[IndexTip].y
    ensures IsIndexFingerUp(landmarks[IndexTip := landmarks[IndexTip].(y := higherTip)])
  {
  }
}
