/**
 * The gesture classifier: the end of a drag, given as its final offset and
 * velocity on both axes, is turned into one of four outcomes. The vertical
 * (add-to-cart) test is tried first, then right, then left; a drag that
 * crosses no threshold snaps back and changes nothing.
 */
module Gesture {

  /** A point or a velocity on the screen; positive `y` points down. */
  datatype Vec = Vec(x: real, y: real)

  /** What the drag library reports when a drag ends. */
  datatype PanInfo = PanInfo(offset: Vec, velocity: Vec)

  /** Distance past which a drag counts as a swipe. */
  const SwipeThreshold: real := 100.0
  /** Speed past which a drag counts as a swipe. */
  const VelocityThreshold: real := 500.0

  /** What a finished drag means for the card on top. */
  datatype Outcome = Down | Right | Left | SnapBack

  /** The three commands of the button bar: every outcome that moves the card. */
  type Direction = o: Outcome | o != SnapBack witness Down

  predicate SwipedRight(info: PanInfo) {
    info.offset.x > SwipeThreshold || info.velocity.x > VelocityThreshold
  }

  predicate SwipedLeft(info: PanInfo) {
    info.offset.x < -SwipeThreshold || info.velocity.x < -VelocityThreshold
  }

  predicate SwipedDown(info: PanInfo) {
    info.offset.y > SwipeThreshold || info.velocity.y > VelocityThreshold
  }

  /** The branch chosen by the drag-end handler, tests taken in priority order. */
  function Classify(info: PanInfo): (o: Outcome)
    ensures SwipedDown(info) ==> o == Down
    ensures o == Right <==> !SwipedDown(info) && SwipedRight(info)
    ensures o == Left <==> !SwipedDown(info) && !SwipedRight(info) && SwipedLeft(info)
    ensures o == SnapBack <==> !SwipedDown(info) && !SwipedRight(info) && !SwipedLeft(info)
  {
    if SwipedDown(info) then Down
    else if SwipedRight(info) then Right
    else if SwipedLeft(info) then Left
    else SnapBack
  }

  /** The rectangle of drags that cross no threshold, written as closed intervals. */
  predicate InDeadZone(info: PanInfo) {
    && -SwipeThreshold <= info.offset.x <= SwipeThreshold
    && -VelocityThreshold <= info.velocity.x <= VelocityThreshold
    && info.offset.y <= SwipeThreshold
    && info.velocity.y <= VelocityThreshold
  }

  /** A drag snaps back exactly when it ends inside the dead zone. */
  lemma SnapBackIffDeadZone(info: PanInfo)
    ensures Classify(info) == SnapBack <==> InDeadZone(info)
  {
  }

  /** A card goes to the cart exactly when the drag is far or fast enough downwards, whatever the horizontal part. */
  lemma DownIffVerticalCrossed(info: PanInfo)
    ensures Classify(info) == Down <==> info.offset.y > 100.0 || info.velocity.y > 500.0
  {
  }

  /** A diagonal drag that crosses both a vertical and a horizontal threshold commits to the cart. */
  lemma DiagonalCommits(info: PanInfo)
    requires SwipedDown(info) && (SwipedRight(info) || SwipedLeft(info))
    ensures Classify(info) == Down
  {
  }

  /** A drag that does not move down (and is not thrown down) never reaches the cart. */
  lemma UpwardNeverCommits(info: PanInfo)
    requires info.offset.y <= 0.0 && info.velocity.y <= 0.0
    ensures Classify(info) != Down
  {
  }

  /** When offset and velocity point opposite ways and both cross, right wins over left. */
  lemma ConflictGoesRight(info: PanInfo)
    requires !SwipedDown(info) && SwipedRight(info) && SwipedLeft(info)
    ensures Classify(info) == Right
  {
  }

  function Mirror(info: PanInfo): PanInfo {
    PanInfo(Vec(-info.offset.x, info.offset.y), Vec(-info.velocity.x, info.velocity.y))
  }

  function Swap(o: Outcome): Outcome {
    match o
    case Right => Left
    case Left => Right
    case _ => o
  }

  /** Apart from the right-over-left tie break, the classifier is symmetric under a horizontal mirror. */
  lemma MirrorSwapsSides(info: PanInfo)
    requires !(SwipedRight(info) && SwipedLeft(info))
    ensures Classify(Mirror(info)) == Swap(Classify(info))
  {
  }
}
